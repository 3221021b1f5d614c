/** Reading a compiler command into options and filenames, and rewriting it. */
module CompilerCommand {
  import opened CommandLine
  import opened Seqs

  // The options that take the next argument as their value, in five parts.
  const ONE_VALUE_A: set<string> := {
    "-o", "-x", "-dyld-prefix", "-gcc-toolchain", "--param", "--sysroot", "--system-header-prefix", "-target",
    "--assert", "--allowable_client", "-arch", "-arch_only", "-arcmt-migrate-report-output", "--prefix",
    "-bundle_loader", "-dependency-dot", "-dependency-file", "-dylib_file", "-exported_symbols_list",
    "--bootclasspath"
  }
  const ONE_VALUE_B: set<string> := {
    "--CLASSPATH", "--classpath", "--resource", "--encoding", "--extdirs", "-filelist",
    "-fmodule-implementation-of", "-fmodule-name", "-fmodules-user-build-path", "-fnew-alignment",
    "-force_load", "--output-class-directory", "-framework", "-frewrite-map-file", "-ftrapv-handler",
    "-image_base", "-init", "-install_name", "-lazy_framework", "-lazy_library"
  }
  const ONE_VALUE_C: set<string> := {
    "-meabi", "-mhwdiv", "-mllvm", "-module-dependency-dir", "-mthread-model", "-multiply_defined",
    "-multiply_defined_unused", "-rpath", "--rtlib", "-seg_addr_table", "-seg_addr_table_filename",
    "-segs_read_only_addr", "-segs_read_write_addr", "-serialize-diagnostics", "--serialize-diagnostics",
    "-std", "--stdlib", "--force-link", "-umbrella", "-unexported_symbols_list"
  }
  const ONE_VALUE_D: set<string> := {
    "-weak_library", "-weak_reference_mismatches", "-B", "-D", "-U", "-I", "-i", "--include-directory", "-L",
    "-l", "--library-directory", "-MF", "-MT", "-MQ", "-cxx-isystem", "-c-isystem", "-idirafter",
    "--include-directory-after", "-iframework", "-iframeworkwithsysroot"
  }
  const ONE_VALUE_E: set<string> := {
    "-imacros", "-imultilib", "-iprefix", "--include-prefix", "-iquote", "-include", "-include-pch",
    "-isysroot", "-isystem", "-isystem-after", "-ivfsoverlay", "-iwithprefix", "--include-with-prefix",
    "--include-with-prefix-after", "-iwithprefixbefore", "--include-with-prefix-before", "-iwithsysroot"
  }
  const ONE_VALUE: set<string> := ONE_VALUE_A + ONE_VALUE_B + ONE_VALUE_C + ONE_VALUE_D + ONE_VALUE_E

  /** An option with the arguments that belong to it; an option at the end of the command finds the null that
      closes the argument vector instead of its value. */
  datatype Argument = Argument(key: string, values: seq<Option<string>>)

  datatype Arguments = Arguments(options: seq<Argument>, filenames: seq<string>)

  predicate IsOption(arg: string) {
    arg != "" && arg[0] == '-'
  }

  /** Options with their values and filenames, for any table of options that take one. */
  function Parse(table: set<string>, argv: seq<string>): Arguments {
    if argv == [] then Arguments([], [])
    else if argv[0] in table then
      if |argv| == 1 then Arguments([Argument(argv[0], [None])], [])
      else
        var rest := Parse(table, argv[2..]);
        Arguments([Argument(argv[0], [Some(argv[1])])] + rest.options, rest.filenames)
    else
      var rest := Parse(table, argv[1..]);
      if IsOption(argv[0]) then Arguments([Argument(argv[0], [])] + rest.options, rest.filenames)
      else Arguments(rest.options, [argv[0]] + rest.filenames)
  }

  predicate Matches(key: string, prefixes: seq<string>) {
    exists i :: 0 <= i < |prefixes| && prefixes[i] <= key
  }

  /** The options that are neither named for removal nor begin with one of the prefixes. */
  function Kept(options: seq<Argument>, remove: set<string>, prefixes: seq<string>): seq<Argument> {
    if options == [] then []
    else
      var rest := Kept(options[1..], remove, prefixes);
      if options[0].key in remove || Matches(options[0].key, prefixes) then rest else [options[0]] + rest
  }

  predicate AllGiven(values: seq<Option<string>>) {
    forall i :: 0 <= i < |values| ==> values[i].Some?
  }

  predicate HasValues(option: Argument) {
    AllGiven(option.values)
  }

  predicate AllHaveValues(options: seq<Argument>) {
    forall i :: 0 <= i < |options| ==> HasValues(options[i])
  }

  function Words(values: seq<Option<string>>): seq<string>
    requires AllGiven(values)
  {
    if values == [] then [] else [values[0].value] + Words(values[1..])
  }

  function Flatten(options: seq<Argument>): seq<string>
    requires AllHaveValues(options)
  {
    if options == [] then [] else [options[0].key] + Words(options[0].values) + Flatten(options[1..])
  }

  /** Only an option that is dropped may lack its value. */
  predicate Writable(options: seq<Argument>, remove: set<string>, prefixes: seq<string>) {
    AllHaveValues(Kept(options, remove, prefixes))
  }

  function Rewritten(args: Arguments, remove: set<string>, prefixes: seq<string>, add: seq<string>,
                     keepFilenames: bool): seq<string>
    requires Writable(args.options, remove, prefixes)
  {
    Flatten(Kept(args.options, remove, prefixes)) + add + if keepFilenames then args.filenames else []
  }

  // ---------------------------------------------------------------------------------------------
  // The command as an object
  // ---------------------------------------------------------------------------------------------

  class CompilerArgs {
    var options: seq<Argument>
    var filenames: seq<string>
    var rebuilt: string

    ghost function View(): Arguments
      reads this
    {
      Arguments(options, filenames)
    }

    constructor (argv: seq<string>)
      requires argv != []
      ensures View() == Parse(ONE_VALUE, argv) && rebuilt == Line(false, "", argv)
    {
      var found, files := ReadArguments(ONE_VALUE, argv);
      var line := RebuildLine(argv);
      options, filenames, rebuilt := found, files, line;
    }

    /** Options to keep, then what is added, then the filenames if wanted. */
    method Rewrite(remove: set<string>, prefixes: seq<string>, add: seq<string>, keepFilenames: bool)
      returns (result: seq<string>)
      requires Writable(options, remove, prefixes)
      ensures result == Rewritten(View(), remove, prefixes, add, keepFilenames)
    {
      hide Kept, Matches, Flatten, Words;
      result := WriteOptions(options, remove, prefixes);
      ghost var kept := result;
      for i := 0 to |add|
        invariant result == kept + add[..i]
      {
        result := result + [add[i]];
      }
      if keepFilenames {
        ghost var before := result;
        for i := 0 to |filenames|
          invariant result == before + filenames[..i]
        {
          result := result + [filenames[i]];
        }
      }
    }
  }

  method ReadArguments(table: set<string>, argv: seq<string>) returns (options: seq<Argument>, filenames: seq<string>)
    ensures Arguments(options, filenames) == Parse(table, argv)
  {
    hide IsOption, Parse;
    options, filenames := [], [];
    var i := 0;
    assert argv[0..] == argv;
    while i < |argv|
      invariant 0 <= i <= |argv|
      invariant Parse(table, argv).options == options + Parse(table, argv[i..]).options
      invariant Parse(table, argv).filenames == filenames + Parse(table, argv[i..]).filenames
    {
      ParseNext(table, argv, i);
      if argv[i] in table {
        options := options + [Argument(argv[i], [if i + 1 < |argv| then Some(argv[i + 1]) else None])];
        i := i + 1;
      } else {
        if IsOption(argv[i]) {
          options := options + [Argument(argv[i], [])];
        } else {
          filenames := filenames + [argv[i]];
        }
      }
      i := i + 1;
      if i > |argv| {
        i := |argv|;
      }
    }
    ParseNothing(table, argv);
  }

  lemma ParseNothing(table: set<string>, argv: seq<string>)
    ensures Parse(table, argv[|argv|..]) == Arguments([], [])
  {
  }

  lemma ParseNext(table: set<string>, argv: seq<string>, i: nat)
    requires i < |argv|
    ensures Parse(table, argv[i..]) ==
      if argv[i] in table then
        var next := if i + 1 == |argv| then |argv| else i + 2;
        var value := if i + 1 == |argv| then None else Some(argv[i + 1]);
        Arguments([Argument(argv[i], [value])] + Parse(table, argv[next..]).options, Parse(table, argv[next..]).filenames)
      else if IsOption(argv[i]) then
        Arguments([Argument(argv[i], [])] + Parse(table, argv[i + 1..]).options, Parse(table, argv[i + 1..]).filenames)
      else Arguments(Parse(table, argv[i + 1..]).options, [argv[i]] + Parse(table, argv[i + 1..]).filenames)
  {
    hide IsOption;
    assert argv[i..][1..] == argv[i + 1..];
    if i + 1 < |argv| {
      assert argv[i..][2..] == argv[i + 2..];
    }
  }

  method RebuildLine(argv: seq<string>) returns (line: string)
    requires argv != []
    ensures line == Line(false, "", argv)
  {
    hide Spaced, Escaped;
    line := "";
    assert argv[0..] == argv;
    for k := 0 to |argv|
      invariant line + Spaced(argv[k..]) == Spaced(argv)
    {
      var escaped := EscapeCommandArgument(argv[k]);
      PeelArgument(argv, k);
      assert line + Spaced(argv[k..]) == line + (escaped + " ") + Spaced(argv[k + 1..]);
      line := line + (escaped + " ");
    }
    NothingLeft(argv);
    assert line == Spaced(argv) == "" + Spaced(argv);
    line := line[..|line| - 1];
  }

  method MatchesAny(key: string, prefixes: seq<string>) returns (skip: bool)
    ensures skip == Matches(key, prefixes)
  {
    skip := false;
    for i := 0 to |prefixes|
      invariant !skip && forall j :: 0 <= j < i ==> !(prefixes[j] <= key)
    {
      if prefixes[i] <= key {
        skip := true;
        break;
      }
    }
  }

  method WriteOptions(options: seq<Argument>, remove: set<string>, prefixes: seq<string>) returns (result: seq<string>)
    requires Writable(options, remove, prefixes)
    ensures result == Flatten(Kept(options, remove, prefixes))
  {
    hide Kept, Matches, Flatten, Words;
    result := [];
    assert options[0..] == options;
    for i := 0 to |options|
      invariant Writable(options[i..], remove, prefixes)
      invariant result + Flatten(Kept(options[i..], remove, prefixes)) == Flatten(Kept(options, remove, prefixes))
    {
      KeptNext(options, i, remove, prefixes);
      var skip := options[i].key in remove;
      if !skip {
        skip := MatchesAny(options[i].key, prefixes);
      }
      if !skip {
        result := result + [options[i].key];
        result := WriteValues(result, options[i].values);
      }
    }
    KeptNothing(options, remove, prefixes);
  }

  method WriteValues(start: seq<string>, values: seq<Option<string>>) returns (result: seq<string>)
    requires AllGiven(values)
    ensures result == start + Words(values)
  {
    result := start;
    assert values[0..] == values;
    for i := 0 to |values|
      invariant result + Words(values[i..]) == start + Words(values)
    {
      assert values[i..][1..] == values[i + 1..];
      result := result + [values[i].value];
    }
  }

  lemma KeptNothing(options: seq<Argument>, remove: set<string>, prefixes: seq<string>)
    ensures Writable(options[|options|..], remove, prefixes)
    ensures Flatten(Kept(options[|options|..], remove, prefixes)) == []
  {
  }

  lemma KeptNext(options: seq<Argument>, i: nat, remove: set<string>, prefixes: seq<string>)
    requires i < |options| && Writable(options[i..], remove, prefixes)
    ensures Writable(options[i + 1..], remove, prefixes)
    ensures var rest := Flatten(Kept(options[i + 1..], remove, prefixes));
      if options[i].key in remove || Matches(options[i].key, prefixes) then
        Flatten(Kept(options[i..], remove, prefixes)) == rest
      else
        && HasValues(options[i])
        && Flatten(Kept(options[i..], remove, prefixes)) == [options[i].key] + Words(options[i].values) + rest
  {
    hide Matches;
    var all, rest := Kept(options[i..], remove, prefixes), Kept(options[i + 1..], remove, prefixes);
    assert options[i..][1..] == options[i + 1..];
    if !(options[i].key in remove || Matches(options[i].key, prefixes)) {
      assert all == [options[i]] + rest && all[1..] == rest;
      assert HasValues(all[0]);
      forall k | 0 <= k < |rest| ensures HasValues(rest[k]) {
        assert HasValues(all[k + 1]);
      }
    }
  }

  // ---------------------------------------------------------------------------------------------
  // Which arguments are read as what, and which options are kept
  // ---------------------------------------------------------------------------------------------

  /** The argument at `i` stands for itself: it is not the value of the option before it. */
  predicate OnItsOwn(table: set<string>, argv: seq<string>, i: int)
    decreases i
  {
    0 <= i < |argv| && !(i > 0 && argv[i - 1] in table && OnItsOwn(table, argv, i - 1))
  }

  lemma {:induction false} OnItsOwnLater(table: set<string>, argv: seq<string>, k: nat, i: nat)
    requires k < |argv| && (k > 0 ==> !(argv[k - 1] in table && OnItsOwn(table, argv, k - 1))) && i < |argv| - k
    ensures OnItsOwn(table, argv, k + i) <==> OnItsOwn(table, argv[k..], i)
  {
    if i > 0 {
      OnItsOwnLater(table, argv, k, i - 1);
      assert argv[k..][i - 1] == argv[k + i - 1];
    }
  }

  predicate IsFileAt(table: set<string>, argv: seq<string>, i: int, name: string) {
    OnItsOwn(table, argv, i) && argv[i] == name && name !in table && (name == "" || name[0] != '-')
  }

  predicate IsOptionAt(table: set<string>, argv: seq<string>, i: int, option: Argument) {
    && OnItsOwn(table, argv, i) && argv[i] == option.key
    && if argv[i] in table then option.values == [if i + 1 < |argv| then Some(argv[i + 1]) else None]
       else argv[i] != "" && argv[i][0] == '-' && option.values == []
  }

  /** How many arguments the first one takes up. */
  function Width(table: set<string>, argv: seq<string>): (k: nat)
    requires argv != []
    ensures 0 < k <= |argv|
  {
    if argv[0] in table && |argv| > 1 then 2 else 1
  }

  lemma OnItsOwnBehind(table: set<string>, argv: seq<string>, i: int)
    requires argv != []
    ensures OnItsOwn(table, argv, 0)
    ensures var k := Width(table, argv);
      OnItsOwn(table, argv, i) <==> i == 0 || (i >= k && OnItsOwn(table, argv[k..], i - k))
  {
    var k := Width(table, argv);
    if k <= i < |argv| {
      OnItsOwnLater(table, argv, k, i - k);
    }
  }

  lemma InRange(table: set<string>, argv: seq<string>, i: int)
    requires OnItsOwn(table, argv, i)
    ensures 0 <= i < |argv|
  {
  }

  lemma FileBehind(table: set<string>, argv: seq<string>, i: int, name: string)
    requires argv != []
    ensures var k := Width(table, argv);
      IsFileAt(table, argv, i, name) <==>
        (i == 0 && IsFileAt(table, argv, 0, name)) || (i >= k && IsFileAt(table, argv[k..], i - k, name))
  {
    hide OnItsOwn, Width;
    var k := Width(table, argv);
    OnItsOwnBehind(table, argv, i);
    if OnItsOwn(table, argv, i) {
      InRange(table, argv, i);
    }
    if OnItsOwn(table, argv[k..], i - k) {
      InRange(table, argv[k..], i - k);
    }
  }

  lemma FilesBehind(table: set<string>, argv: seq<string>, name: string)
    requires argv != []
    ensures (exists i :: IsFileAt(table, argv, i, name)) <==>
      IsFileAt(table, argv, 0, name) || exists i :: IsFileAt(table, argv[Width(table, argv)..], i, name)
  {
    var k := Width(table, argv);
    if i :| IsFileAt(table, argv, i, name) {
      FileBehind(table, argv, i, name);
    }
    if i :| IsFileAt(table, argv[k..], i, name) {
      FileBehind(table, argv, i + k, name);
      FileInRange(table, argv[k..], i, name);
    }
  }

  lemma OptionBehind(table: set<string>, argv: seq<string>, i: int, option: Argument)
    requires argv != []
    ensures var k := Width(table, argv);
      IsOptionAt(table, argv, i, option) <==>
        (i == 0 && IsOptionAt(table, argv, 0, option)) || (i >= k && IsOptionAt(table, argv[k..], i - k, option))
  {
    hide OnItsOwn, Width;
    var k := Width(table, argv);
    OnItsOwnBehind(table, argv, i);
    if OnItsOwn(table, argv, i) {
      InRange(table, argv, i);
    }
    if OnItsOwn(table, argv[k..], i - k) {
      InRange(table, argv[k..], i - k);
    }
  }

  lemma OptionsBehind(table: set<string>, argv: seq<string>, option: Argument)
    requires argv != []
    ensures (exists i :: IsOptionAt(table, argv, i, option)) <==>
      IsOptionAt(table, argv, 0, option) || exists i :: IsOptionAt(table, argv[Width(table, argv)..], i, option)
  {
    var k := Width(table, argv);
    if i :| IsOptionAt(table, argv, i, option) {
      OptionBehind(table, argv, i, option);
    }
    if i :| IsOptionAt(table, argv[k..], i, option) {
      OptionBehind(table, argv, i + k, option);
      OptionInRange(table, argv[k..], i, option);
    }
  }

  lemma FileInRange(table: set<string>, argv: seq<string>, i: int, name: string)
    requires IsFileAt(table, argv, i, name)
    ensures 0 <= i < |argv|
  {
  }

  lemma OptionInRange(table: set<string>, argv: seq<string>, i: int, option: Argument)
    requires IsOptionAt(table, argv, i, option)
    ensures 0 <= i < |argv|
  {
  }

  lemma ParseFirst(table: set<string>, argv: seq<string>)
    requires argv != []
    ensures var rest := Parse(table, argv[Width(table, argv)..]);
      && (forall name :: name in Parse(table, argv).filenames <==> IsFileAt(table, argv, 0, name) || name in rest.filenames)
      && (forall option :: option in Parse(table, argv).options <==>
            IsOptionAt(table, argv, 0, option) || option in rest.options)
  {
  }

  /** The filenames are the arguments on their own that neither take a value nor begin with a dash, the options the
      others on their own, with the argument behind them for those that take a value. */
  lemma {:induction false} ParsesExactly(table: set<string>, argv: seq<string>)
    ensures forall name :: name in Parse(table, argv).filenames <==> exists i :: IsFileAt(table, argv, i, name)
    ensures forall option :: option in Parse(table, argv).options <==> exists i :: IsOptionAt(table, argv, i, option)
    decreases |argv|
  {
    hide Parse, OnItsOwn, IsFileAt, IsOptionAt;
    if argv == [] {
      NothingToParse(table);
    } else {
      ParseFirst(table, argv);
      ParsesExactly(table, argv[Width(table, argv)..]);
      forall name ensures name in Parse(table, argv).filenames <==> exists i :: IsFileAt(table, argv, i, name) {
        FilesBehind(table, argv, name);
      }
      forall option ensures option in Parse(table, argv).options <==> exists i :: IsOptionAt(table, argv, i, option) {
        OptionsBehind(table, argv, option);
      }
    }
  }

  lemma NothingToParse(table: set<string>)
    ensures Parse(table, []) == Arguments([], [])
    ensures forall i, name :: !IsFileAt(table, [], i, name)
    ensures forall i, option :: !IsOptionAt(table, [], i, option)
  {
  }

  predicate HasPrefix(key: string, prefixes: seq<string>) {
    exists prefix <- prefixes :: |prefix| <= |key| && key[..|prefix|] == prefix
  }

  /** Kept are, in order, the options that are not named for removal and of which no prefix is listed. */
  lemma {:induction false} KeptExactly(options: seq<Argument>, remove: set<string>, prefixes: seq<string>,
                                       keep: Argument -> bool)
    requires forall i :: 0 <= i < |options| ==>
      (keep(options[i]) <==> options[i].key !in remove && !HasPrefix(options[i].key, prefixes))
    ensures Kept(options, remove, prefixes) == Filter(options, keep)
  {
    hide Filter, Matches, HasPrefix;
    if options == [] {
      FilterEmpty(keep);
    } else {
      var first, rest := options[0], options[1..];
      KeptExactly(rest, remove, prefixes, keep);
      MatchesExactly(first.key, prefixes);
      FilterEmpty(keep);
      assert [] + [first] == [first] && [first] + rest == options;
      FilterLast([], first, keep);
      FilterAppend([first], rest, keep);
    }
  }

  lemma MatchesExactly(key: string, prefixes: seq<string>)
    ensures Matches(key, prefixes) <==> HasPrefix(key, prefixes)
  {
  }

  // ---------------------------------------------------------------------------------------------
  // Reading a rewritten command
  // ---------------------------------------------------------------------------------------------

  /** The last argument takes a value that is not there. */
  predicate Dangles(table: set<string>, argv: seq<string>) {
    argv != [] &&
    if argv[0] in table then |argv| == 1 || Dangles(table, argv[2..]) else Dangles(table, argv[1..])
  }

  /** An option as it can be read: it has a value exactly when it takes one. */
  predicate WellFormed(table: set<string>, o: Argument) {
    if o.key in table then |o.values| == 1 else o.values == [] && IsOption(o.key)
  }

  predicate Plain(table: set<string>, name: string) {
    name !in table && !IsOption(name)
  }

  lemma {:induction false} ParsedAreWellFormed(table: set<string>, argv: seq<string>)
    ensures forall o <- Parse(table, argv).options :: WellFormed(table, o)
    ensures forall name <- Parse(table, argv).filenames :: Plain(table, name)
    decreases |argv|
  {
    hide IsOption;
    if argv != [] {
      if argv[0] in table {
        if |argv| > 1 {
          ParsedAreWellFormed(table, argv[2..]);
        }
      } else {
        ParsedAreWellFormed(table, argv[1..]);
      }
    }
  }

  /** A command dangles exactly when reading it leaves an option without its value. */
  lemma {:induction false} DanglesExactly(table: set<string>, argv: seq<string>)
    ensures Dangles(table, argv) <==> !AllHaveValues(Parse(table, argv).options)
    decreases |argv|
  {
    hide IsOption;
    if argv != [] {
      if argv[0] in table {
        if |argv| > 1 {
          DanglesExactly(table, argv[2..]);
          HasValuesAfter(Parse(table, argv).options);
        } else {
          var last := Parse(table, argv).options[0];
          assert last.values[0] == None && !HasValues(last);
        }
      } else {
        DanglesExactly(table, argv[1..]);
        if IsOption(argv[0]) {
          HasValuesAfter(Parse(table, argv).options);
        }
      }
    }
  }

  lemma HasValuesAfter(options: seq<Argument>)
    requires options != []
    ensures AllHaveValues(options) <==> HasValues(options[0]) && AllHaveValues(options[1..])
  {
    assert options == [options[0]] + options[1..];
  }

  lemma {:induction false} KeptAreOptions(options: seq<Argument>, remove: set<string>, prefixes: seq<string>)
    ensures forall o <- Kept(options, remove, prefixes) :: o in options
  {
    hide Matches;
    if options != [] {
      KeptAreOptions(options[1..], remove, prefixes);
    }
  }

  /** Written options are read back in front of whatever follows them. */
  lemma {:induction false} ParseFlattened(table: set<string>, options: seq<Argument>, rest: seq<string>)
    requires AllHaveValues(options) && forall o <- options :: WellFormed(table, o)
    ensures var more := Parse(table, rest);
      Parse(table, Flatten(options) + rest) == Arguments(options + more.options, more.filenames)
    decreases |options|
  {
    hide IsOption, Parse, WellFormed, Words;
    if options == [] {
      assert Flatten(options) + rest == rest && options + Parse(table, rest).options == Parse(table, rest).options;
    } else {
      var o := options[0];
      var more := Flatten(options[1..]) + rest;
      ParseFlattened(table, options[1..], rest);
      assert Flatten(options) + rest == [o.key] + Words(o.values) + more;
      ParseOne(table, o, more);
      assert [o] + (options[1..] + Parse(table, rest).options) == options + Parse(table, rest).options;
    }
  }

  lemma ParseOne(table: set<string>, o: Argument, rest: seq<string>)
    requires WellFormed(table, o) && HasValues(o)
    ensures var more := Parse(table, rest);
      Parse(table, [o.key] + Words(o.values) + rest) == Arguments([o] + more.options, more.filenames)
  {
    hide IsOption;
    var argv := [o.key] + Words(o.values) + rest;
    if o.key in table {
      var v := o.values[0];
      assert o.values == [v] && v in o.values;
      assert Words(o.values) == [v.value];
      assert argv[2..] == rest;
    } else {
      assert argv[1..] == rest;
    }
  }

  lemma {:induction false} ParsePlain(table: set<string>, names: seq<string>)
    requires forall name <- names :: Plain(table, name)
    ensures Parse(table, names) == Arguments([], names)
  {
    hide IsOption;
    if names != [] {
      assert names[0] in names;
      ParsePlain(table, names[1..]);
    }
  }

  /** Filenames put behind a command are read as filenames, but for the first, which a dangling option takes. */
  lemma {:induction false} ParseAppended(table: set<string>, add: seq<string>, names: seq<string>)
    requires forall name <- names :: Plain(table, name)
    ensures !Dangles(table, add) ==>
      Parse(table, add + names) == Arguments(Parse(table, add).options, Parse(table, add).filenames + names)
    ensures Dangles(table, add) && names != [] ==>
      Parse(table, add + names).filenames == Parse(table, add).filenames + names[1..]
    decreases |add|
  {
    hide IsOption;
    if add == [] {
      assert add + names == names;
      ParsePlain(table, names);
    } else if add[0] in table {
      if |add| > 1 {
        assert (add + names)[2..] == add[2..] + names;
        ParseAppended(table, add[2..], names);
      } else if names != [] {
        assert (add + names)[2..] == names[1..];
        ParsePlain(table, names[1..]);
      }
    } else {
      assert (add + names)[1..] == add[1..] + names;
      ParseAppended(table, add[1..], names);
    }
  }

  /** What reading a rewritten command should give: the options that were kept and then the added ones, the
      added filenames and then the original ones. */
  function Expected(table: set<string>, args: Arguments, remove: set<string>, prefixes: seq<string>, add: seq<string>,
                    keepFilenames: bool): Arguments {
    Arguments(Kept(args.options, remove, prefixes) + Parse(table, add).options,
              Parse(table, add).filenames + if keepFilenames then args.filenames else [])
  }

  /** Reading the rewritten command gives the expected options and filenames unless the added arguments end in
      an option without its value and there is a filename behind them, and never in that case. */
  lemma ReparsesExactly(table: set<string>, argv: seq<string>, remove: set<string>, prefixes: seq<string>, add: seq<string>,
                        keepFilenames: bool)
    requires Writable(Parse(table, argv).options, remove, prefixes)
    ensures Parse(table, Rewritten(Parse(table, argv), remove, prefixes, add, keepFilenames))
         == Expected(table, Parse(table, argv), remove, prefixes, add, keepFilenames)
        <==> !(Dangles(table, add) && keepFilenames && Parse(table, argv).filenames != [])
  {
    hide IsOption, Parse, Kept, Flatten, Dangles;
    var args := Parse(table, argv);
    var kept := Kept(args.options, remove, prefixes);
    var names := if keepFilenames then args.filenames else [];
    ParsedAreWellFormed(table, argv);
    KeptAreOptions(args.options, remove, prefixes);
    ParseFlattened(table, kept, add + names);
    ParseAppended(table, add, names);
    assert Rewritten(args, remove, prefixes, add, keepFilenames) == Flatten(kept) + (add + names);
    if names == [] {
      assert add + names == add && Parse(table, add).filenames + names == Parse(table, add).filenames;
    } else if Dangles(table, add) {
      assert |Parse(table, add + names).filenames| == |Parse(table, add).filenames| + |names| - 1;
    }
  }

  /** A command that does not dangle can be rewritten whatever is removed. */
  lemma SoundCommandsAreWritable(table: set<string>, argv: seq<string>, remove: set<string>, prefixes: seq<string>)
    requires !Dangles(table, argv)
    ensures Writable(Parse(table, argv).options, remove, prefixes)
  {
    hide IsOption, Kept, Parse, Dangles;
    DanglesExactly(table, argv);
    var kept := Kept(Parse(table, argv).options, remove, prefixes);
    KeptAreOptions(Parse(table, argv).options, remove, prefixes);
    forall i | 0 <= i < |kept| ensures HasValues(kept[i]) {
      assert kept[i] in kept;
    }
  }

  lemma {:induction false} KeepsAll(options: seq<Argument>)
    ensures Kept(options, {}, []) == options
  {
    if options != [] {
      KeepsAll(options[1..]);
    }
  }

  /** Rewriting with nothing removed or added puts a command in a normal form, options before filenames, that
      reads as the same command. */
  lemma NormalFormReadsTheSame(table: set<string>, argv: seq<string>)
    requires !Dangles(table, argv)
    ensures Writable(Parse(table, argv).options, {}, [])
    ensures Parse(table, Rewritten(Parse(table, argv), {}, [], [], true)) == Parse(table, argv)
  {
    hide IsOption, Kept, Flatten;
    SoundCommandsAreWritable(table, argv, {}, []);
    ReparsesExactly(table, argv, {}, [], [], true);
    KeepsAll(Parse(table, argv).options);
  }

  lemma OptionsInA(arg: string)
    requires arg in ONE_VALUE_A
    ensures IsOption(arg)
  {
  }

  lemma OptionsInB(arg: string)
    requires arg in ONE_VALUE_B
    ensures IsOption(arg)
  {
  }

  lemma OptionsInC(arg: string)
    requires arg in ONE_VALUE_C
    ensures IsOption(arg)
  {
  }

  lemma OptionsInD(arg: string)
    requires arg in ONE_VALUE_D
    ensures IsOption(arg)
  {
  }

  lemma OptionsInE(arg: string)
    requires arg in ONE_VALUE_E
    ensures IsOption(arg)
  {
  }

  /** Every option of the table begins like an option. */
  lemma ValueTakersAreOptions(arg: string)
    ensures arg in ONE_VALUE ==> IsOption(arg)
  {
    hide IsOption;
    if arg in ONE_VALUE_A { OptionsInA(arg); }
    if arg in ONE_VALUE_B { OptionsInB(arg); }
    if arg in ONE_VALUE_C { OptionsInC(arg); }
    if arg in ONE_VALUE_D { OptionsInD(arg); }
    if arg in ONE_VALUE_E { OptionsInE(arg); }
  }

  /** An added option without its value swallows the filename behind it. */
  lemma AddedOptionSwallowsFilename()
    ensures var args := Parse(ONE_VALUE, ["a.c"]);
      && args == Arguments([], ["a.c"]) && Dangles(ONE_VALUE, ["-o"]) && Writable(args.options, {}, [])
      && Rewritten(args, {}, [], ["-o"], true) == ["-o", "a.c"]
      && Parse(ONE_VALUE, ["-o", "a.c"]) == Arguments([Argument("-o", [Some("a.c")])], [])
      && Parse(ONE_VALUE, ["-o", "a.c"]) != Expected(ONE_VALUE, args, {}, [], ["-o"], true)
  {
    hide IsOption, Parse, Dangles;
    OutputTakesValue();
    FileIsPlain();
    OneFile(ONE_VALUE, "a.c", "-o");
  }

  lemma OutputTakesValue()
    ensures "-o" in ONE_VALUE
  {
  }

  lemma FileIsPlain()
    ensures Plain(ONE_VALUE, "a.c")
  {
    if "a.c" in ONE_VALUE {
      ValueTakersAreOptions("a.c");
    }
  }

  lemma OneFile(table: set<string>, name: string, option: string)
    requires Plain(table, name) && option in table
    ensures var args := Parse(table, [name]);
      && args == Arguments([], [name]) && Dangles(table, [option]) && Writable(args.options, {}, [])
      && Rewritten(args, {}, [], [option], true) == [option, name]
      && Parse(table, [option, name]) == Arguments([Argument(option, [Some(name)])], [])
      && Parse(table, [option, name]) != Expected(table, args, {}, [], [option], true)
  {
    hide IsOption;
    assert [name][1..] == [] && [option, name][2..] == [];
  }
}
