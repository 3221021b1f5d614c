/** The multi-chunk format: a line of sizes ended by "\r\n", then the chunks one after another.  There are two
    writers, one of which puts two commas after every size but the last, and one reader for both. */
module MultiChunk {
  import opened Decimal
  import opened Seqs
  import opened Split

  /** One comma between the sizes. */
  function HeaderLine(parts: seq<string>): string {
    if parts == [] then "" else Join(SizesOf(parts), ",") + "\r\n"
  }

  /** Two commas after each size, then one of them dropped at the end. */
  function Chunked(parts: seq<string>): string {
    if parts == [] then "" else Join(SizesOf(parts), ",,") + "," + "\r\n" + Concat(parts)
  }

  lemma PeelSizes(parts: seq<string>, i: nat, d: string)
    requires i < |parts|
    ensures Terminated(SizesOf(parts[i..]), d) == ToString(|parts[i]|) + d + Terminated(SizesOf(parts[i + 1..]), d)
    ensures Concat(parts[i..]) == parts[i] + Concat(parts[i + 1..])
  {
    assert parts[i..][1..] == parts[i + 1..];
    assert SizesOf(parts[i..])[1..] == SizesOf(parts[i + 1..]);
  }

  method MakeHeaderLine(parts: seq<string>) returns (result: string)
    ensures result == HeaderLine(parts)
  {
    hide ToString, Join, Terminated, SizesOf;
    result := "";
    if parts == [] {
      return;
    }
    for i := 0 to |parts|
      invariant result + Terminated(SizesOf(parts[i..]), ",") == Terminated(SizesOf(parts), ",")
    {
      PeelSizes(parts, i, ",");
      result := result + (ToString(|parts[i]|) + ",");
    }
    NoSizesLeft(parts, ",");
    TerminatedIsJoin(SizesOf(parts), ",");
    assert result == Join(SizesOf(parts), ",") + ",";
    result := result[..|result| - 1];
    result := result + "\r\n";
  }

  method MakeChunked(parts: seq<string>) returns (result: string)
    ensures result == Chunked(parts)
  {
    hide ToString, Join, Terminated, SizesOf;
    result := "";
    if parts == [] {
      return;
    }
    for i := 0 to |parts|
      invariant result + Terminated(SizesOf(parts[i..]), ",,") == Terminated(SizesOf(parts), ",,")
    {
      PeelSizes(parts, i, ",,");
      result := result + ToString(|parts[i]|);
      result := result + ",";
      result := result + ",";
    }
    NoSizesLeft(parts, ",,");
    TerminatedIsJoin(SizesOf(parts), ",,");
    assert result == Join(SizesOf(parts), ",,") + ",,";
    assert result == Join(SizesOf(parts), ",,") + "," + ",";
    result := result[..|result| - 1];
    result := result + "\r\n";
    ghost var header := result;
    for i := 0 to |parts|
      invariant result + Concat(parts[i..]) == header + Concat(parts)
    {
      PeelSizes(parts, i, ",,");
      result := result + parts[i];
    }
  }

  lemma NoSizesLeft(parts: seq<string>, d: string)
    ensures Terminated(SizesOf(parts[|parts|..]), d) == ""
  {
  }

  // ---------------------------------------------------------------------------------------------
  // Reading
  // ---------------------------------------------------------------------------------------------

  /** `Overrun` is the outcome that the language leaves undefined: a chunk is cut off a shorter text. */
  datatype Parsed = Chunks(parts: seq<string>) | Malformed | Overrun

  /** The numbers of the header, or nothing when one of them is not positive or not below the largest long. */
  function Numbers(sizes: seq<string>): Option<seq<nat>> {
    if sizes == [] then Some([])
    else
      var n := Strtol(sizes[0]);
      if n <= 0 || n == LONG_MAX || n == -LONG_MAX - 1 then None
      else Prepend([n], Numbers(sizes[1..]))
  }

  /** The chunks of the given sizes; none when one is cut off a shorter text. */
  function Cut(body: string, sizes: seq<nat>): Option<seq<string>> {
    if sizes == [] then Some([])
    else if sizes[0] > |body| then None
    else Prepend([body[..sizes[0]]], Cut(body[sizes[0]..], sizes[1..]))
  }

  function OrOverrun(parts: Option<seq<string>>): Parsed {
    match parts
    case None => Overrun
    case Some(ps) => Chunks(ps)
  }

  /** The first line without its "\r\n" and the text after it. */
  function Lines(text: string): Option<(string, string)> {
    match Find(text, "\n")
    case None => None
    case Some(p) => if p == 0 || text[p - 1] != '\r' then None else Some((text[..p - 1], text[p + 1..]))
  }

  function Parse(text: string): Parsed {
    if text == "" then Chunks([])
    else
      match Lines(text)
      case None => Malformed
      case Some((line, body)) =>
        match Numbers(Fields(line, ",", false))
        case None => Malformed
        case Some(sizes) => if Sum(sizes) % WORD != |body| then Malformed else OrOverrun(Cut(body, sizes))
  }

  method TryParse(text: string) returns (result: Parsed)
    ensures result == Parse(text)
  {
    hide Numbers, Sum, Cut, Fields;
    if text == "" {
      return Chunks([]);
    }
    var delim := Find(text, "\n");
    if delim == None || delim.value == 0 || text[delim.value - 1] != '\r' {
      return Malformed;
    }
    var sizes := SplitText(text[..delim.value - 1], ",", false);
    var body := text[delim.value + 1..];
    var ok, parsed, total := ReadSizes(sizes);
    if !ok || total != |body| {
      return Malformed;
    }
    var parts := CutChunks(body, parsed);
    result := OrOverrun(parts);
  }

  method ReadSizes(sizes: seq<string>) returns (ok: bool, parsed: seq<nat>, total: nat)
    ensures Numbers(sizes) == if ok then Some(parsed) else None
    ensures ok ==> total == Sum(parsed) % WORD
  {
    hide Strtol;
    ok, parsed, total := true, [], 0;
    assert sizes[0..] == sizes;
    PrependMore([], 0, Numbers(sizes));
    for i := 0 to |sizes|
      invariant ok && total == Sum(parsed) % WORD
      invariant Numbers(sizes) == Prepend(parsed, Numbers(sizes[i..]))
    {
      assert sizes[i..][1..] == sizes[i + 1..];
      var size := Strtol(sizes[i]);
      if size <= 0 || size == LONG_MAX || size == -LONG_MAX - 1 {
        return false, [], 0;
      }
      SumSnoc(parsed, size);
      PrependMore(parsed, size, Numbers(sizes[i + 1..]));
      parsed := parsed + [size];
      total := (total + size) % WORD;
    }
    assert parsed + [] == parsed;
  }

  method CutChunks(body: string, sizes: seq<nat>) returns (result: Option<seq<string>>)
    ensures result == Cut(body, sizes)
  {
    var parts, rest := [], body;
    assert sizes[0..] == sizes;
    PrependMore([], "", Cut(body, sizes));
    for i := 0 to |sizes|
      invariant Cut(body, sizes) == Prepend(parts, Cut(rest, sizes[i..]))
    {
      assert sizes[i..][1..] == sizes[i + 1..];
      if sizes[i] > |rest| {
        return None;
      }
      PrependMore(parts, rest[..sizes[i]], Cut(rest[sizes[i]..], sizes[i + 1..]));
      parts := parts + [rest[..sizes[i]]];
      rest := rest[sizes[i]..];
    }
    assert parts + [] == parts;
    result := Some(parts);
  }

  // ---------------------------------------------------------------------------------------------
  // What a successful parse means
  // ---------------------------------------------------------------------------------------------

  /** Cutting by sizes that add up to the text gives the one list of chunks of those lengths making it up. */
  lemma {:induction false} CutIsExact(body: string, sizes: seq<nat>)
    ensures Cut(body, sizes).Some? <==> Sum(sizes) <= |body|
    ensures Cut(body, sizes).Some? ==>
      Lengths(Cut(body, sizes).value) == sizes && Concat(Cut(body, sizes).value) == body[..Sum(sizes)]
  {
    if sizes != [] && sizes[0] <= |body| {
      var n := sizes[0];
      CutIsExact(body[n..], sizes[1..]);
      if Cut(body[n..], sizes[1..]).Some? {
        var rest := Cut(body[n..], sizes[1..]).value;
        var parts := Cut(body, sizes).value;
        assert parts[0] == body[..n] && parts[1..] == rest;
        assert Lengths(parts) == [n] + Lengths(rest) == sizes;
        assert body[..Sum(sizes)] == body[..n] + body[n..][..Sum(sizes[1..])];
      }
    }
  }

  /** What the header of a non-empty text declares. */
  function Declared(text: string): Option<seq<nat>> {
    match Lines(text)
    case None => None
    case Some((line, _)) => Numbers(Fields(line, ",", false))
  }

  /** The sizes are readable exactly when each reads as a positive number below the largest long. */
  lemma {:induction false} NumbersExactly(sizes: seq<string>)
    ensures Numbers(sizes).Some? <==> forall i :: 0 <= i < |sizes| ==> 0 < Strtol(sizes[i]) < LONG_MAX
    ensures Numbers(sizes).Some? ==>
      |Numbers(sizes).value| == |sizes| && forall i :: 0 <= i < |sizes| ==> Numbers(sizes).value[i] == Strtol(sizes[i])
  {
    hide Strtol;
    if sizes != [] {
      NumbersExactly(sizes[1..]);
      assert forall i :: 0 < i < |sizes| ==> sizes[i] == sizes[1..][i - 1];
    }
  }

  /** A text has a header exactly when its first line feed stands behind a carriage return. */
  lemma LinesExactly(text: string, line: string, body: string)
    ensures Lines(text) == Some((line, body)) <==> '\n' !in line && text == line + "\r\n" + body
  {
    hide Find;
    if '\n' !in line && text == line + "\r\n" + body {
      LinesFound(line, body);
    }
    if Lines(text) == Some((line, body)) {
      var p := Find(text, "\n").value;
      assert text[p..p + 1] == "\n";
      assert text == text[..p - 1] + "\r\n" + text[p + 1..];
      forall k | 0 <= k < |line| ensures line[k] != '\n' {
        assert !At(text, "\n", k) && text[k..k + 1] == [line[k]];
      }
    }
  }

  /** A non-empty text parses into chunks exactly when its header is readable and the declared sizes add up to
      what follows; the chunks then have the declared sizes and make up the body. */
  lemma ParsesExactly(text: string)
    requires text != "" && |text| < WORD
    ensures Parse(text).Chunks? <==>
      Lines(text).Some? && Declared(text).Some? && Sum(Declared(text).value) == |Lines(text).value.1|
    ensures Parse(text).Chunks? ==>
      Lengths(Parse(text).parts) == Declared(text).value && Concat(Parse(text).parts) == Lines(text).value.1
  {
    hide Numbers, Sum, Cut, Fields, Concat, Lengths;
    if Lines(text).Some? && Declared(text).Some? {
      CutIsExact(Lines(text).value.1, Declared(text).value);
    }
  }

  /** The undefined outcome happens exactly when the sum of the declared sizes wraps around to the right one. */
  lemma OverrunsExactly(text: string)
    requires text != "" && |text| < WORD
    ensures Parse(text).Overrun? <==>
      && Lines(text).Some? && Declared(text).Some?
      && Sum(Declared(text).value) != |Lines(text).value.1|
      && Sum(Declared(text).value) % WORD == |Lines(text).value.1|
  {
    hide Numbers, Sum, Cut, Fields, Concat, Lengths;
    if Lines(text).Some? && Declared(text).Some? {
      CutIsExact(Lines(text).value.1, Declared(text).value);
    }
  }

  /** Two sizes of almost half a machine word and a third that brings the sum round to one: a text of one
      character is cut by the first size. */
  lemma OverrunHappens()
    ensures var half := ToString(LONG_MAX - 1);
      Parse(half + "," + half + ",5" + "\r\n" + "X") == Overrun
  {
    hide ToString, Fields, Find, Lines, Strtol, Numbers, Sum;
    var half := ToString(LONG_MAX - 1);
    var line := half + "," + half + ",5";
    ConversionsInvertToString(LONG_MAX - 1);
    FiveReads();
    AllDigitsHoldNoFeed(half);
    LinesFound(line, "X");
    assert line == half + "," + (half + "," + "5");
    FieldBefore(half, ",", half + "," + "5");
    FieldBefore(half, ",", "5");
    FirstField("5", "");
    assert "5" + "" == "5";
    assert Fields(line, ",", false) == [half, half, "5"];
    NumbersOfThree(half, half, "5");
    SumOfThree(LONG_MAX - 1, LONG_MAX - 1, 5);
  }

  lemma NumbersOfThree(a: string, b: string, c: string)
    requires 0 < Strtol(a) < LONG_MAX && 0 < Strtol(b) < LONG_MAX && 0 < Strtol(c) < LONG_MAX
    ensures Numbers([a, b, c]) == Some([Strtol(a), Strtol(b), Strtol(c)])
  {
    hide Strtol;
    NumbersOfMore(c, []);
    NumbersOfMore(b, [c]);
    NumbersOfMore(a, [b, c]);
    var none: seq<string>, no: seq<nat> := [], [];
    assert [c] + none == [c] && [b] + [c] == [b, c] && [a] + [b, c] == [a, b, c];
    var z: seq<nat> := [Strtol(c)];
    assert z + no == z;
    assert Numbers([c]) == Some(z) && Numbers([b, c]) == Some([Strtol(b)] + z);
    assert [Strtol(a)] + ([Strtol(b)] + z) == [Strtol(a), Strtol(b), Strtol(c)];
  }

  lemma NumbersOfMore(size: string, rest: seq<string>)
    requires 0 < Strtol(size) < LONG_MAX && Numbers(rest).Some?
    ensures Numbers([size] + rest) == Some([Strtol(size)] + Numbers(rest).value)
  {
    hide Strtol;
    assert ([size] + rest)[1..] == rest;
  }

  lemma SumOfThree(a: nat, b: nat, c: nat)
    ensures Sum([a, b, c]) == a + b + c
  {
    SumSnoc([a, b], c);
    SumSnoc([a], b);
    assert [a, b, c] == [a] + [b] + [c];
  }

  lemma FiveReads()
    ensures Strtol("5") == 5 && AllDigits("5")
  {
    ConversionsInvertToString(5);
    assert DigitOf(5) == '5';
  }

  lemma AllDigitsHoldNoFeed(s: string)
    requires AllDigits(s)
    ensures '\n' !in s
  {
  }

  // ---------------------------------------------------------------------------------------------
  // Round trips
  // ---------------------------------------------------------------------------------------------

  predicate AllNonEmpty(parts: seq<string>) {
    forall i :: 0 <= i < |parts| ==> parts[i] != ""
  }

  lemma {:induction false} NumbersInvertSizes(parts: seq<string>)
    requires |Concat(parts)| < LONG_MAX
    ensures Numbers(SizesOf(parts)) == if AllNonEmpty(parts) then Some(Lengths(parts)) else None
  {
    if parts != [] {
      ConversionsInvertToString(|parts[0]|);
      NumbersInvertSizes(parts[1..]);
      assert SizesOf(parts)[1..] == SizesOf(parts[1..]);
      assert AllNonEmpty(parts) <==> parts[0] != "" && AllNonEmpty(parts[1..]);
      assert Lengths(parts) == [|parts[0]|] + Lengths(parts[1..]);
    }
  }

  lemma {:induction false} CutInvertsConcat(parts: seq<string>)
    ensures Cut(Concat(parts), Lengths(parts)) == Some(parts)
  {
    if parts != [] {
      var n := |parts[0]|;
      assert Lengths(parts)[1..] == Lengths(parts[1..]);
      assert Concat(parts)[..n] == parts[0] && Concat(parts)[n..] == Concat(parts[1..]);
      CutInvertsConcat(parts[1..]);
      assert [parts[0]] + parts[1..] == parts;
    }
  }

  lemma {:induction false} SizesAreClean(parts: seq<string>, d: string)
    requires d == "," || d == ",,"
    ensures '\n' !in Join(SizesOf(parts), d)
    decreases |parts|
  {
    if parts != [] {
      assert AllDigits(ToString(|parts[0]|));
      SizesAreClean(parts[1..], d);
      assert SizesOf(parts)[1..] == SizesOf(parts[1..]);
    }
  }

  /** Either way of separating the sizes leaves the sizes, once empty fields are dropped. */
  lemma {:induction false} FieldsOfSizes(parts: seq<string>, d: string, tail: string)
    requires parts != [] && ((d == "," && tail == "") || (d == ",," && tail == ","))
    ensures Join(SizesOf(parts), d) != ""
    ensures Fields(Join(SizesOf(parts), d) + tail, ",", false) == SizesOf(parts)
    decreases |parts|
  {
    hide ToString, Skipping, Cuts, Find;
    var sizes := SizesOf(parts);
    var size := sizes[0];
    if |parts| == 1 {
      assert sizes == [size];
      FirstField(size, tail);
    } else {
      FieldsOfSizes(parts[1..], d, tail);
      assert sizes[1..] == SizesOf(parts[1..]);
      var rest := Join(sizes[1..], d) + tail;
      assert Join(sizes, d) + tail == size + d + rest;
      FieldBefore(size, d, rest);
      assert [size] + sizes[1..] == sizes;
    }
  }

  lemma FieldBefore(size: string, d: string, rest: string)
    requires size != "" && AllDigits(size) && (d == "," || d == ",,")
    ensures Fields(size + d + rest, ",", false) == [size] + Fields(rest, ",", false)
  {
    hide Fields;
    if d == "," {
      assert size + d + rest == size + ("," + rest);
      FirstField(size, "," + rest);
    } else {
      var tail := "," + ("," + rest);
      assert size + d + rest == size + tail;
      FirstField(size, tail);
      assert tail[1..] == "," + rest;
      EmptyField(rest);
    }
  }

  /** A number at the start is the first field. */
  lemma FirstField(size: string, tail: string)
    requires size != "" && AllDigits(size) && (tail == "" || tail[0] == ',')
    ensures Fields(size + tail, ",", false) == [size] + if tail == "" then [] else Fields(tail[1..], ",", false)
  {
    hide Skipping, Cuts;
    Unfold(size + tail, ",", false);
    CharacterFound(size, ',');
    if tail == "" {
      assert size + tail == size;
    } else {
      assert size + tail == size + "," + tail[1..];
      FirstCut(size, ",", tail[1..]);
      assert (size + tail)[|size| + 1..] == tail[1..];
    }
  }

  lemma EmptyField(rest: string)
    ensures Fields("," + rest, ",", false) == Fields(rest, ",", false)
  {
    hide Skipping, Cuts;
    Unfold("," + rest, ",", false);
    assert At("," + rest, ",", 0);
    assert ("," + rest)[1..] == rest;
  }

  /** A line of sizes followed by the body is read back as the line and the body. */
  lemma LinesFound(line: string, body: string)
    requires '\n' !in line
    ensures Lines(line + "\r\n" + body) == Some((line, body))
  {
    var withReturn := line + "\r";
    CharacterFound(withReturn, '\n');
    FirstCut(withReturn, "\n", body);
    assert line + "\r\n" + body == withReturn + "\n" + body;
    var text := line + "\r\n" + body;
    assert text[..|line|] == line && text[|line| + 2..] == body;
  }

  lemma ParsesWritten(parts: seq<string>, d: string, tail: string)
    requires parts != [] && ((d == "," && tail == "") || (d == ",," && tail == ","))
    requires |Concat(parts)| < LONG_MAX
    ensures Parse(Join(SizesOf(parts), d) + tail + "\r\n" + Concat(parts))
         == if AllNonEmpty(parts) then Chunks(parts) else Malformed
  {
    hide Join, Concat, SizesOf, Fields, Lines, Numbers, Cut, Sum, AllNonEmpty;
    var line := Join(SizesOf(parts), d) + tail;
    SizesAreClean(parts, d);
    FieldsOfSizes(parts, d, tail);
    LinesFound(line, Concat(parts));
    NumbersInvertSizes(parts);
    SumOfLengths(parts);
    CutInvertsConcat(parts);
  }

  /** Both writers are read back exactly when no part is empty; an empty part makes the text unreadable. */
  lemma RoundTripsExactly(parts: seq<string>)
    requires |Concat(parts)| < LONG_MAX
    ensures Parse(Chunked(parts)) == if AllNonEmpty(parts) then Chunks(parts) else Malformed
    ensures Parse(HeaderLine(parts) + Concat(parts)) == if AllNonEmpty(parts) then Chunks(parts) else Malformed
  {
    if parts != [] {
      ParsesWritten(parts, ",,", ",");
      ParsesWritten(parts, ",", "");
      assert Join(SizesOf(parts), ",") + "" == Join(SizesOf(parts), ",");
    }
  }

  // ---------------------------------------------------------------------------------------------
  // What the writers write
  // ---------------------------------------------------------------------------------------------

  lemma SizesHoldNoComma(parts: seq<string>)
    ensures forall size <- SizesOf(parts) :: size != "" && ',' !in size
  {
    forall size <- SizesOf(parts) ensures size != "" && ',' !in size {
      assert AllDigits(size);
    }
  }

  /** The header line is cut at every comma into exactly the sizes. */
  lemma HeaderIsSizes(parts: seq<string>)
    requires parts != []
    ensures var line := HeaderLine(parts);
      && |line| >= 2 && line[|line| - 2..] == "\r\n"
      && Cuts(line[..|line| - 2], ",") == SizesOf(parts)
  {
    hide Join, Cuts;
    SizesHoldNoComma(parts);
    SeparableByCharacter(SizesOf(parts), ',');
    CutsInvertsJoinExactly(SizesOf(parts), ",");
    assert HeaderLine(parts)[..|HeaderLine(parts)| - 2] == Join(SizesOf(parts), ",");
  }

  /** Each size with an empty field behind it. */
  function Padded(sizes: seq<string>): (fields: seq<string>)
    ensures |fields| == 2 * |sizes|
    ensures forall field <- fields :: field == "" || field in sizes
  {
    if sizes == [] then [] else [sizes[0], ""] + Padded(sizes[1..])
  }

  lemma {:induction false} PaddedAt(sizes: seq<string>, i: nat)
    requires i < |sizes|
    ensures Padded(sizes)[2 * i] == sizes[i] && Padded(sizes)[2 * i + 1] == ""
  {
    if i > 0 {
      PaddedAt(sizes[1..], i - 1);
    }
  }

  lemma {:induction false} JoinPadded(sizes: seq<string>)
    requires sizes != []
    ensures Join(Padded(sizes), ",") == Join(sizes, ",,") + ","
  {
    var rest := sizes[1..];
    var fields := Padded(sizes);
    assert fields[1..] == [""] + Padded(rest) && fields[1..][1..] == Padded(rest);
    if rest == [] {
      assert sizes[0] + "," + "" == sizes[0] + ",";
    } else {
      JoinPadded(rest);
      assert Join(fields, ",") == sizes[0] + "," + ("" + "," + Join(Padded(rest), ","));
      assert ",," == "," + ",";
    }
  }

  /** The other writer leaves an empty field after each size, and the body is the parts. */
  lemma ChunkedIsSizesAndParts(parts: seq<string>)
    requires parts != []
    ensures Lines(Chunked(parts)).Some?
    ensures var (line, body) := Lines(Chunked(parts)).value;
      && body == Concat(parts)
      && |Cuts(line, ",")| == 2 * |parts|
      && forall i :: 0 <= i < |parts| ==> Cuts(line, ",")[2 * i] == SizesOf(parts)[i] && Cuts(line, ",")[2 * i + 1] == ""
  {
    hide Join, Cuts, Lines, Concat, Padded;
    var sizes := SizesOf(parts);
    var line := Join(sizes, ",,") + ",";
    SizesAreClean(parts, ",,");
    LinesFound(line, Concat(parts));
    assert Chunked(parts) == line + "\r\n" + Concat(parts);
    JoinPadded(sizes);
    SizesHoldNoComma(parts);
    var fields := Padded(sizes);
    assert forall field <- fields :: ',' !in field;
    SeparableByCharacter(fields, ',');
    CutsInvertsJoinExactly(fields, ",");
    forall i | 0 <= i < |sizes| ensures fields[2 * i] == sizes[i] && fields[2 * i + 1] == "" {
      PaddedAt(sizes, i);
    }
  }
}
