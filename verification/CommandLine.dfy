/** Writing an argument list as one command line, and why nothing is lost by it. */
module CommandLine {
  import opened Seqs

  /** The control characters are written as a backslash and a letter. */
  function Letter(c: char): (r: Option<char>)
    ensures r.Some? ==> r.value in "abfnrtv"
  {
    match c
    case '\U{0007}' => Some('a')
    case '\U{0008}' => Some('b')
    case '\U{000C}' => Some('f')
    case '\n' => Some('n')
    case '\r' => Some('r')
    case '\t' => Some('t')
    case '\U{000B}' => Some('v')
    case _ => None
  }

  /** The characters that are written after a backslash. */
  predicate Special(c: char)
    ensures Special(c) ==> c !in "abfnrtv"
    ensures c == ' ' || c == '\\' ==> Special(c)
  {
    c in " ><!\"#$&()*,:;?@[\\]`{}"
  }

  function EscapeChar(c: char): string {
    match Letter(c)
    case Some(letter) => ['\\', letter]
    case None => if Special(c) then ['\\', c] else [c]
  }

  function Escaped(s: string): string {
    if s == "" then "" else EscapeChar(s[0]) + Escaped(s[1..])
  }

  method EscapeCommandArgument(s: string) returns (result: string)
    ensures result == Escaped(s)
  {
    hide Letter, Special, EscapeChar, Escaped;
    result := "";
    assert s[0..] == s;
    for i := 0 to |s|
      invariant result + Escaped(s[i..]) == Escaped(s)
    {
      PeelChar(s, i);
      ghost var before := result;
      var letter := Letter(s[i]);
      if letter.Some? {
        result := result + ['\\', letter.value];
      } else {
        if Special(s[i]) {
          result := result + ['\\'];
        }
        result := result + [s[i]];
      }
      Appended(before, s[i]);
      Regroup(before, EscapeChar(s[i]), Escaped(s[i + 1..]));
    }
    NoneLeft(s);
  }

  lemma PeelChar(s: string, i: nat)
    requires i < |s|
    ensures Escaped(s[i..]) == EscapeChar(s[i]) + Escaped(s[i + 1..])
  {
    assert s[i..][1..] == s[i + 1..];
  }

  lemma Appended(before: string, c: char)
    ensures before + EscapeChar(c) == match Letter(c)
                                      case Some(letter) => before + ['\\', letter]
                                      case None => (if Special(c) then before + ['\\'] else before) + [c]
  {
    hide Letter, Special;
    if Letter(c).None? && Special(c) {
      assert before + ['\\'] + [c] == before + ['\\', c];
    }
  }

  lemma Regroup(a: string, b: string, c: string)
    ensures a + b + c == a + (b + c)
  {
  }

  lemma NoneLeft(s: string)
    ensures Escaped(s[|s|..]) == ""
  {
  }

  /** The arguments, each followed by a space. */
  function Spaced(args: seq<string>): (line: string)
    ensures args != [] ==> line != "" && line[|line| - 1] == ' '
  {
    if args == [] then "" else
      var rest := Spaced(args[1..]);
      if rest == "" then Escaped(args[0]) + " " else Escaped(args[0]) + " " + rest
  }

  /** The command line: the program, if wanted, as it is, and the arguments escaped, single spaces between. */
  function Line(withProgram: bool, program: string, args: seq<string>): string {
    WithoutLast((if withProgram then program + " " else "") + Spaced(args))
  }

  function WithoutLast(s: string): string {
    if s == "" then "" else s[..|s| - 1]
  }

  method ToCommandLine(withProgram: bool, program: string, args: seq<string>) returns (result: string)
    ensures result == Line(withProgram, program, args)
  {
    hide Escaped, Spaced;
    result := "";
    if withProgram {
      result := result + (program + " ");
    }
    ghost var start := result;
    assert args[0..] == args;
    for i := 0 to |args|
      invariant result + Spaced(args[i..]) == start + Spaced(args)
    {
      var escaped := EscapeCommandArgument(args[i]);
      PeelArgument(args, i);
      assert result + Spaced(args[i..]) == result + (escaped + " ") + Spaced(args[i + 1..]);
      result := result + (escaped + " ");
    }
    NothingLeft(args);
    assert result == start + Spaced(args);
    if result != "" {
      result := result[..|result| - 1];
    }
  }

  lemma PeelArgument(args: seq<string>, i: nat)
    requires i < |args|
    ensures Spaced(args[i..]) == Escaped(args[i]) + " " + Spaced(args[i + 1..])
  {
    assert args[i..][1..] == args[i + 1..];
  }

  lemma NothingLeft(args: seq<string>)
    ensures Spaced(args[|args|..]) == ""
  {
  }

  // ---------------------------------------------------------------------------------------------
  // Which characters stand behind a backslash
  // ---------------------------------------------------------------------------------------------

  datatype Written = Bare(c: char) | Quoted(c: char)

  /** A text as a shell passes over it from left to right: a backslash takes the next character with it. */
  function Marks(t: string): seq<Written>
    decreases |t|
  {
    if t == "" then []
    else if t[0] == '\\' && |t| > 1 then [Quoted(t[1])] + Marks(t[2..])
    else [Bare(t[0])] + Marks(t[1..])
  }

  /** How one character has to be written: those that mean something to a shell behind a backslash, the control
      characters as the letters that stand for them, all others bare. */
  ghost predicate WrittenAs(c: char, w: Written) {
    && (c in " ><!\"#$&()*,:;?@[\\]`{}" ==> w == Quoted(c))
    && (c == '\U{0007}' ==> w == Quoted('a'))
    && (c == '\U{0008}' ==> w == Quoted('b'))
    && (c == '\t' ==> w == Quoted('t'))
    && (c == '\n' ==> w == Quoted('n'))
    && (c == '\U{000B}' ==> w == Quoted('v'))
    && (c == '\U{000C}' ==> w == Quoted('f'))
    && (c == '\r' ==> w == Quoted('r'))
    && (c !in " ><!\"#$&()*,:;?@[\\]`{}\U{0007}\U{0008}\t\n\U{000B}\U{000C}\r" ==> w == Bare(c))
  }

  lemma MarksOfChar(c: char, rest: string) returns (w: Written)
    ensures Marks(EscapeChar(c) + rest) == [w] + Marks(rest) && WrittenAs(c, w)
  {
    var e := EscapeChar(c);
    assert (e + rest)[|e|..] == rest;
    w := if |e| == 2 then Quoted(e[1]) else Bare(c);
  }

  /** An escaped argument consists of its characters, each written as it has to be, whatever comes after it. */
  lemma {:induction false} EscapesExactly(s: string, rest: string) returns (marks: seq<Written>)
    ensures Marks(Escaped(s) + rest) == marks + Marks(rest)
    ensures |marks| == |s| && forall i :: 0 <= i < |s| ==> WrittenAs(s[i], marks[i])
    decreases |s|
  {
    hide Marks, EscapeChar, WrittenAs;
    if s == "" {
      marks := [];
      assert Escaped(s) + rest == rest && marks + Marks(rest) == Marks(rest);
    } else {
      assert Escaped(s) + rest == EscapeChar(s[0]) + (Escaped(s[1..]) + rest);
      var w := MarksOfChar(s[0], Escaped(s[1..]) + rest);
      var more := EscapesExactly(s[1..], rest);
      marks := [w] + more;
      assert [w] + (more + Marks(rest)) == marks + Marks(rest);
    }
  }

  /** The characters of the arguments, each as it has to be written, with one bare space between two arguments. */
  ghost predicate Separated(args: seq<string>, marks: seq<Written>)
    requires args != []
  {
    var n := |args[0]|;
    && |marks| >= n && (forall i :: 0 <= i < n ==> WrittenAs(args[0][i], marks[i]))
    && if |args| == 1 then |marks| == n
       else |marks| > n && marks[n] == Bare(' ') && Separated(args[1..], marks[n + 1..])
  }

  /** In a whole command line the only special characters that stand bare are the spaces between its arguments. */
  lemma {:induction false} LineIsSeparated(args: seq<string>)
    requires args != []
    ensures Separated(args, Marks(Line(false, "", args)))
  {
    hide Marks, Escaped, Line, WrittenAs;
    var first := args[0];
    LineOf(args);
    if |args| == 1 {
      var marks := EscapesExactly(first, "");
      MarksOfNothing();
      assert marks + [] == marks;
    } else {
      var rest := Line(false, "", args[1..]);
      var marks := EscapesExactly(first, " " + rest);
      MarksOfSpace(rest);
      LineIsSeparated(args[1..]);
      var all := marks + ([Bare(' ')] + Marks(rest));
      assert all[|first| + 1..] == Marks(rest);
    }
  }

  lemma MarksOfNothing()
    ensures Marks("") == []
  {
  }

  lemma MarksOfSpace(rest: string)
    ensures Marks(" " + rest) == [Bare(' ')] + Marks(rest)
  {
    assert (" " + rest)[1..] == rest;
  }

  // ---------------------------------------------------------------------------------------------
  // Reading a command line back
  // ---------------------------------------------------------------------------------------------

  /** The character that a backslash followed by `c` stands for. */
  function Unescape(c: char): char {
    match c
    case 'a' => '\U{0007}'
    case 'b' => '\U{0008}'
    case 'f' => '\U{000C}'
    case 'n' => '\n'
    case 'r' => '\r'
    case 't' => '\t'
    case 'v' => '\U{000B}'
    case _ => c
  }

  /** Reads from left to right: a bare space ends an argument, a backslash takes the next character with it.
      `soFar` is what has been read of the current argument. */
  function Decode(line: string, soFar: string): (args: seq<string>)
    ensures args != []
    decreases |line|
  {
    if line == "" then [soFar]
    else if line[0] == ' ' then [soFar] + Decode(line[1..], "")
    else if line[0] == '\\' && |line| > 1 then Decode(line[2..], soFar + [Unescape(line[1])])
    else Decode(line[1..], soFar + [line[0]])
  }

  lemma DecodeOne(c: char, rest: string, soFar: string)
    ensures Decode(EscapeChar(c) + rest, soFar) == Decode(rest, soFar + [c])
  {
    var e := EscapeChar(c);
    assert (e + rest)[|e|..] == rest;
    if Letter(c).Some? {
      assert Unescape(Letter(c).value) == c;
    }
  }

  /** An escaped argument is read as the argument, whatever comes after it. */
  lemma {:induction false} DecodeEscaped(s: string, rest: string, soFar: string)
    ensures Decode(Escaped(s) + rest, soFar) == Decode(rest, soFar + s)
    decreases |s|
  {
    hide Decode, EscapeChar;
    if s == "" {
      assert Escaped(s) + rest == rest && soFar + s == soFar;
    } else {
      assert Escaped(s) + rest == EscapeChar(s[0]) + (Escaped(s[1..]) + rest);
      DecodeOne(s[0], Escaped(s[1..]) + rest, soFar);
      DecodeEscaped(s[1..], rest, soFar + [s[0]]);
      assert soFar + [s[0]] + s[1..] == soFar + s;
    }
  }

  lemma {:induction false} DecodeArguments(args: seq<string>)
    requires args != []
    ensures Decode(Line(false, "", args), "") == args
  {
    hide Decode, Escaped, Line, Spaced;
    var first := args[0];
    LineOf(args);
    if |args| == 1 {
      DecodeEscaped(first, "", "");
      DecodeEnd(first);
      assert args == [first];
    } else {
      var rest := Line(false, "", args[1..]);
      DecodeEscaped(first, " " + rest, "");
      DecodeSpace(first, rest);
      DecodeArguments(args[1..]);
      assert args == [first] + args[1..];
    }
  }

  lemma LineOf(args: seq<string>)
    requires args != []
    ensures Line(false, "", args)
         == Escaped(args[0]) + if |args| == 1 then "" else " " + Line(false, "", args[1..])
  {
    hide Escaped, Spaced, WithoutLast;
    var escaped, rest := Escaped(args[0]), Spaced(args[1..]);
    SpacedOf(args);
    assert "" + Spaced(args) == Spaced(args) && "" + rest == rest;
    if |args| == 1 {
      DropsLast(escaped, " ");
      assert escaped + " " + rest == escaped + " " && escaped + "" == escaped;
    } else {
      DropsLast(escaped + " ", rest);
      assert escaped + " " + WithoutLast(rest) == escaped + (" " + WithoutLast(rest));
    }
  }

  lemma DropsLast(s: string, t: string)
    requires t != ""
    ensures WithoutLast(s + t) == s + WithoutLast(t)
    ensures |t| == 1 ==> WithoutLast(t) == ""
  {
  }

  lemma SpacedOf(args: seq<string>)
    requires args != []
    ensures Spaced(args) == Escaped(args[0]) + " " + Spaced(args[1..])
    ensures |args| == 1 ==> Spaced(args[1..]) == ""
  {
  }

  /** Reading recovers every argument list but the empty one, empty arguments and trailing backslashes included. */
  lemma DecodesExactly(args: seq<string>, program: string)
    ensures Decode(Line(false, program, args), "") == args <==> args != []
  {
    if args != [] {
      DecodeArguments(args);
    }
  }

  /** Two lists give the same line only if they are equal, or one is empty and the other a single empty argument. */
  lemma InjectiveExactly(xs: seq<string>, ys: seq<string>)
    ensures Line(false, "", xs) == Line(false, "", ys) <==>
      xs == ys || (xs == [] && ys == [""]) || (xs == [""] && ys == [])
  {
    hide Decode, Escaped;
    EmptyLine();
    DecodesExactly(xs, "");
    DecodesExactly(ys, "");
  }

  lemma EmptyLine()
    ensures Line(false, "", []) == Line(false, "", [""]) == ""
    ensures Decode("", "") == [""]
  {
    assert Escaped("") + " " == " ";
  }

  // ---------------------------------------------------------------------------------------------
  // The program in front, which is not escaped
  // ---------------------------------------------------------------------------------------------

  /** No space, and no backslash but one at the very end with no argument behind it. */
  predicate Unharmed(program: string, args: seq<string>) {
    ' ' !in program &&
    forall i :: 0 <= i < |program| && program[i] == '\\' ==> args == [] && i == |program| - 1
  }

  /** The line reads back as the program and its arguments exactly for such programs. */
  lemma DecodesWithProgramExactly(program: string, args: seq<string>)
    ensures Decode(Line(true, program, args), "") == [program] + args <==> Unharmed(program, args)
  {
    hide Decode, Escaped;
    LineWithProgram(program, args);
    assert "" + program == program;
    if args == [] {
      AloneExactly(program, "");
      assert [program] + args == [program];
    } else {
      var rest := Line(false, "", args);
      DecodeArguments(args);
      BeforeExactly(program, rest, "");
      assert '\\' !in program <==> forall i :: 0 <= i < |program| ==> program[i] != '\\';
    }
  }

  lemma LineWithProgram(program: string, args: seq<string>)
    ensures Line(true, program, args) == if args == [] then program else program + " " + Line(false, "", args)
  {
    hide Escaped;
    var spaced := Spaced(args);
    assert "" + spaced == spaced;
    if args == [] {
      assert program + " " + spaced == program + " ";
      DropsLast(program, " ");
      assert program + "" == program;
    } else {
      DropsLast(program + " ", spaced);
    }
  }

  lemma DecodeEnd(soFar: string)
    ensures Decode("", "" + soFar) == [soFar]
  {
    assert "" + soFar == soFar;
  }

  lemma DecodeSpace(soFar: string, rest: string)
    ensures Decode(" " + rest, "" + soFar) == [soFar] + Decode(rest, "")
  {
    assert "" + soFar == soFar && (" " + rest)[1..] == rest;
  }

  lemma {:induction false} FirstIsBounded(line: string, soFar: string)
    ensures |Decode(line, soFar)[0]| <= |soFar| + |line|
    decreases |line|
  {
    if line == "" || line[0] == ' ' {
    } else if line[0] == '\\' && |line| > 1 {
      FirstIsBounded(line[2..], soFar + [Unescape(line[1])]);
    } else {
      FirstIsBounded(line[1..], soFar + [line[0]]);
    }
  }

  /** A line reads as one argument, itself, exactly when it holds no space and no backslash before its end. */
  lemma {:induction false} AloneExactly(line: string, soFar: string)
    ensures Decode(line, soFar) == [soFar + line] <==> Unharmed(line, [])
    decreases |line|
  {
    if line == "" {
      assert soFar + line == soFar;
    } else if line[0] == ' ' {
      assert |Decode(line, soFar)| > 1;
    } else if line[0] == '\\' && |line| > 1 {
      FirstIsBounded(line[2..], soFar + [Unescape(line[1])]);
    } else {
      AloneExactly(line[1..], soFar + [line[0]]);
      assert soFar + [line[0]] + line[1..] == soFar + line;
      UnharmedTail(line);
    }
  }

  lemma UnharmedTail(line: string)
    requires line != "" && line[0] != ' ' && (line[0] == '\\' ==> |line| == 1)
    ensures Unharmed(line, []) <==> Unharmed(line[1..], [])
  {
    assert line == [line[0]] + line[1..];
  }

  lemma {:induction false} CountIsTheSame(line: string, x: string, y: string)
    ensures |Decode(line, x)| == |Decode(line, y)|
    decreases |line|
  {
    if line == "" || line[0] == ' ' {
    } else if line[0] == '\\' && |line| > 1 {
      CountIsTheSame(line[2..], x + [Unescape(line[1])], y + [Unescape(line[1])]);
    } else {
      CountIsTheSame(line[1..], x + [line[0]], y + [line[0]]);
    }
  }

  /** Either the first argument ends no later than `s`, or the space behind it has been swallowed. */
  lemma {:induction false} EndsOrSwallows(s: string, rest: string, soFar: string)
    ensures var args := Decode(s + " " + rest, soFar);
      |args[0]| <= |soFar| + |s| || |args| <= |Decode(rest, "")|
    decreases |s|
  {
    var line := s + " " + rest;
    if s == "" {
      assert line[0] == ' ';
    } else if s[0] == ' ' {
      assert line[0] == ' ';
    } else if s[0] == '\\' {
      if |s| == 1 {
        assert line[2..] == rest;
        CountIsTheSame(rest, soFar + [' '], "");
      } else {
        assert line[2..] == s[2..] + " " + rest && line[1] == s[1];
        EndsOrSwallows(s[2..], rest, soFar + [Unescape(s[1])]);
      }
    } else {
      assert line[1..] == s[1..] + " " + rest && line[0] == s[0];
      EndsOrSwallows(s[1..], rest, soFar + [s[0]]);
    }
  }

  lemma {:induction false} BeforeExactly(s: string, rest: string, soFar: string)
    ensures Decode(s + " " + rest, soFar) == [soFar + s] + Decode(rest, "") <==> ' ' !in s && '\\' !in s
    decreases |s|
  {
    var line := s + " " + rest;
    if s == "" {
      assert line[1..] == rest && soFar + s == soFar;
    } else if s[0] == ' ' {
      assert line[0] == ' ' && Decode(line, soFar)[0] == soFar;
    } else if s[0] == '\\' {
      if |s| == 1 {
        assert line[2..] == rest;
        CountIsTheSame(rest, soFar + [' '], "");
      } else {
        assert line[2..] == s[2..] + " " + rest && line[1] == s[1];
        EndsOrSwallows(s[2..], rest, soFar + [Unescape(s[1])]);
      }
    } else {
      assert line[1..] == s[1..] + " " + rest && line[0] == s[0];
      BeforeExactly(s[1..], rest, soFar + [s[0]]);
      assert soFar + [s[0]] + s[1..] == soFar + s;
      assert s == [s[0]] + s[1..];
    }
  }
}
