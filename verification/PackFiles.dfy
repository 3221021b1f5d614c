/** Packing files into one text and unpacking it: the total size, the suffixes and the sizes, a line each,
    then the contents one after another. */
module PackFiles {
  import opened Decimal
  import opened Seqs
  import opened Split

  datatype File = File(suffix: string, content: string)

  function Suffixes(files: seq<File>): (r: seq<string>)
    ensures |r| == |files| && forall i :: 0 <= i < |r| ==> r[i] == files[i].suffix
  {
    seq(|files|, i requires 0 <= i < |files| => files[i].suffix)
  }

  function Contents(files: seq<File>): (r: seq<string>)
    ensures |r| == |files| && forall i :: 0 <= i < |r| ==> r[i] == files[i].content
  {
    seq(|files|, i requires 0 <= i < |files| => files[i].content)
  }

  function HeaderLines(files: seq<File>): string {
    ToString(|Concat(Contents(files))|) + "\n"
    + Join(Suffixes(files), ",") + "\n"
    + Join(SizesOf(Contents(files)), ",") + "\n"
  }

  function Packed(files: seq<File>): string {
    if files == [] then ""
    else HeaderLines(files) + Concat(Contents(files))
  }

  method Pack(files: seq<File>) returns (result: string)
    requires |Concat(Contents(files))| < WORD
    ensures result == Packed(files)
  {
    hide ToString, Join, Suffixes, SizesOf;
    result := "";
    if files == [] {
      return;
    }
    result := FormatLines(files);
    ghost var header := result;
    for i := 0 to |files|
      invariant result + Concat(Contents(files[i..])) == header + Concat(Contents(files))
    {
      Peel(files, i);
      result := result + files[i].content;
    }
  }

  /** The running total is a machine word; no text longer than a word can count exists. */
  method FormatLines(files: seq<File>) returns (lines: string)
    requires |Concat(Contents(files))| < WORD && files != []
    ensures lines == HeaderLines(files)
  {
    hide ToString, Join, Suffixes, SizesOf, Concat, Terminated;
    var suffixLine, sizeLine, filesSize := "", "", 0;
    for i := 0 to |files|
      invariant suffixLine + Terminated(Suffixes(files[i..]), ",") == Terminated(Suffixes(files), ",")
      invariant sizeLine + Terminated(SizesOf(Contents(files[i..])), ",") == Terminated(SizesOf(Contents(files)), ",")
      invariant 0 <= filesSize && filesSize + |Concat(Contents(files[i..]))| == |Concat(Contents(files))|
    {
      Peel(files, i);
      suffixLine := suffixLine + (files[i].suffix + ",");
      sizeLine := sizeLine + (ToString(|files[i].content|) + ",");
      filesSize := (filesSize + |files[i].content|) % WORD;
    }
    NothingLeft(files);
    TerminatedIsJoin(Suffixes(files), ",");
    TerminatedIsJoin(SizesOf(Contents(files)), ",");
    assert suffixLine == Join(Suffixes(files), ",") + ",";
    assert sizeLine == Join(SizesOf(Contents(files)), ",") + ",";
    suffixLine := suffixLine[..|suffixLine| - 1] + "\n";
    sizeLine := sizeLine[..|sizeLine| - 1] + "\n";
    lines := ToString(filesSize) + "\n" + suffixLine + sizeLine;
  }

  lemma NothingLeft(files: seq<File>)
    ensures Concat(Contents(files[|files|..])) == Terminated(Suffixes(files[|files|..]), ",") == ""
    ensures Terminated(SizesOf(Contents(files[|files|..])), ",") == ""
  {
  }

  lemma Peel(files: seq<File>, i: nat)
    requires i < |files|
    ensures Concat(Contents(files[i..])) == files[i].content + Concat(Contents(files[i + 1..]))
    ensures Terminated(Suffixes(files[i..]), ",") == files[i].suffix + "," + Terminated(Suffixes(files[i + 1..]), ",")
    ensures Terminated(SizesOf(Contents(files[i..])), ",")
         == ToString(|files[i].content|) + "," + Terminated(SizesOf(Contents(files[i + 1..])), ",")
  {
    var rest := files[i..];
    assert rest[1..] == files[i + 1..];
    assert Suffixes(rest)[1..] == Suffixes(rest[1..]);
    assert Contents(rest)[1..] == Contents(rest[1..]);
    assert SizesOf(Contents(rest))[1..] == SizesOf(Contents(rest)[1..]);
  }

  // ---------------------------------------------------------------------------------------------
  // Unpacking
  // ---------------------------------------------------------------------------------------------

  datatype Unpacked = Files(files: seq<File>) | Malformed | Throws

  /** getline: the text up to the first line feed, and what follows it. */
  function FirstLine(s: string): string {
    Head(s, Find(s, "\n"))
  }

  function AfterLine(s: string): string {
    match Find(s, "\n")
    case None => ""
    case Some(p) => s[p + 1..]
  }

  datatype Header = Header(length: string, suffixes: string, sizes: string) {
    /** Every line counts its line feed, present or not. */
    function Size(): nat {
      |length| + 1 + |suffixes| + 1 + |sizes| + 1
    }
  }

  function HeaderOf(packed: string): Header {
    var rest := AfterLine(packed);
    Header(FirstLine(packed), FirstLine(rest), FirstLine(AfterLine(rest)))
  }

  /** `len` characters from `pos` on, or as many as there are. */
  function Substr(s: string, pos: nat, len: nat): string
    requires pos <= |s|
  {
    if pos + len <= |s| then s[pos..pos + len] else s[pos..]
  }

  /** The files cut out of the text from `pos` on, positions counted in machine words; none when a size cannot be
      converted or a position lies outside the text, both of which throw. */
  function Extract(packed: string, suffixes: seq<string>, sizes: seq<string>, pos: nat): Option<seq<File>>
    requires |suffixes| == |sizes|
  {
    if sizes == [] then Some([])
    else match Stoul(sizes[0])
      case Fine(len) =>
        if pos > |packed| then None
        else Prepend([File(suffixes[0], Substr(packed, pos, len))],
                     Extract(packed, suffixes[1..], sizes[1..], (pos + len) % WORD))
      case _ => None
  }

  function Unpack(packed: string): Unpacked {
    var h := HeaderOf(packed);
    match Stol(h.length)
    case Fine(total) =>
      var suffixes, sizes := Fields(h.suffixes, ",", false), Fields(h.sizes, ",", false);
      if |suffixes| != |sizes| then Malformed
      else if (|packed| - h.Size()) % WORD != total % WORD then Malformed
      else OrThrows(Extract(packed, suffixes, sizes, h.Size()))
    case _ => Throws
  }

  function OrThrows(files: Option<seq<File>>): Unpacked {
    match files
    case None => Throws
    case Some(fs) => Files(fs)
  }

  method TryUnpack(packed: string) returns (result: Unpacked)
    ensures result == Unpack(packed)
  {
    hide Extract, Fields, Stol, Stoul;
    var lengthLine := FirstLine(packed);
    var headSize := |lengthLine| + 1;
    var stream := AfterLine(packed);
    var total := Stol(lengthLine);
    if !total.Fine? {
      return Throws;
    }
    var suffixLine := FirstLine(stream);
    headSize := headSize + |suffixLine| + 1;
    stream := AfterLine(stream);
    var suffixes := SplitText(suffixLine, ",", false);
    var sizeLine := FirstLine(stream);
    headSize := headSize + |sizeLine| + 1;
    var sizes := SplitText(sizeLine, ",", false);
    if |suffixes| != |sizes| {
      return Malformed;
    }
    if (|packed| - headSize) % WORD != total.value % WORD {
      return Malformed;
    }
    var files := CutFiles(packed, suffixes, sizes, headSize);
    result := OrThrows(files);
  }

  method CutFiles(packed: string, suffixes: seq<string>, sizes: seq<string>, start: nat)
    returns (result: Option<seq<File>>)
    requires |suffixes| == |sizes|
    ensures result == Extract(packed, suffixes, sizes, start)
  {
    hide Stoul;
    var files, pos: nat := [], start;
    assert suffixes[0..] == suffixes && sizes[0..] == sizes;
    PrependMore([], File("", ""), Extract(packed, suffixes, sizes, pos));
    for i := 0 to |sizes|
      invariant Extract(packed, suffixes, sizes, start) == Prepend(files, Extract(packed, suffixes[i..], sizes[i..], pos))
    {
      assert suffixes[i..][1..] == suffixes[i + 1..] && sizes[i..][1..] == sizes[i + 1..];
      var len := Stoul(sizes[i]);
      if !len.Fine? || pos > |packed| {
        return None;
      }
      var file := File(suffixes[i], Substr(packed, pos, len.value));
      PrependMore(files, file, Extract(packed, suffixes[i + 1..], sizes[i + 1..], (pos + len.value) % WORD));
      files := files + [file];
      pos := (pos + len.value) % WORD;
    }
    assert files + [] == files;
    result := Some(files);
  }

  // ---------------------------------------------------------------------------------------------
  // Round trip
  // ---------------------------------------------------------------------------------------------

  predicate Nameable(suffix: string) {
    suffix != "" && ',' !in suffix && '\n' !in suffix
  }

  lemma LineEnds(line: string, rest: string)
    requires '\n' !in line
    ensures FirstLine(line + "\n" + rest) == line && AfterLine(line + "\n" + rest) == rest
  {
    CharacterFound(line, '\n');
    FirstCut(line, "\n", rest);
  }

  /** The fields of a joined line are the parts, when none is empty or holds the comma. */
  lemma FieldsOfJoin(parts: seq<string>)
    requires parts != [] && forall part <- parts :: part != "" && ',' !in part
    ensures Fields(Join(parts, ","), ",", false) == parts
  {
    SeparableByCharacter(parts, ',');
    CutsInvertsJoinExactly(parts, ",");
    forall i | 0 <= i < |parts| ensures NonEmpty(parts[i]) {
      assert parts[i] in parts;
    }
    FilterAll(parts, NonEmpty);
    SkippingIsFiltering(Join(parts, ","), ",");
  }

  lemma {:induction false} JoinHolds(parts: seq<string>, d: string, c: char)
    requires c !in d && forall part <- parts :: c !in part
    ensures c !in Join(parts, d)
  {
    if |parts| > 1 {
      JoinHolds(parts[1..], d, c);
    }
  }

  lemma DigitsAreClean(s: string)
    requires AllDigits(s)
    ensures ',' !in s && '\n' !in s
  {
  }

  lemma {:induction false} ExtractsContents(packed: string, files: seq<File>, pos: nat)
    requires |packed| < WORD && pos <= |packed| && packed[pos..] == Concat(Contents(files))
    ensures Extract(packed, Suffixes(files), SizesOf(Contents(files)), pos) == Some(files)
  {
    hide ToString, Stoul, Extract, Concat;
    if files == [] {
      ExtractNone(packed, pos);
    } else {
      var first, rest := files[0], files[1..];
      var len := |first.content|;
      ConversionsInvertToString(len);
      ContentsFrom(packed, files, pos);
      ExtractsContents(packed, rest, pos + len);
      ExtractOne(packed, Suffixes(files), SizesOf(Contents(files)), pos, len);
      assert Suffixes(files)[1..] == Suffixes(rest) && SizesOf(Contents(files))[1..] == SizesOf(Contents(rest));
      assert [first] + rest == files;
    }
  }

  lemma ContentsFrom(packed: string, files: seq<File>, pos: nat)
    requires files != [] && pos <= |packed| && packed[pos..] == Concat(Contents(files))
    ensures var next := pos + |files[0].content|;
      next <= |packed| && packed[pos..next] == files[0].content && packed[next..] == Concat(Contents(files[1..]))
  {
    var len := |files[0].content|;
    assert Contents(files)[1..] == Contents(files[1..]);
    assert packed[pos..pos + len] == packed[pos..][..len];
    assert packed[pos + len..] == packed[pos..][len..];
  }

  lemma ExtractNone(packed: string, pos: nat)
    ensures Extract(packed, Suffixes([]), SizesOf(Contents([])), pos) == Some([])
  {
  }

  lemma ExtractOne(packed: string, suffixes: seq<string>, sizes: seq<string>, pos: nat, len: nat)
    requires |suffixes| == |sizes| > 0 && |packed| < WORD && pos + len <= |packed| && Stoul(sizes[0]) == Fine(len)
    ensures Extract(packed, suffixes, sizes, pos)
         == Prepend([File(suffixes[0], packed[pos..pos + len])], Extract(packed, suffixes[1..], sizes[1..], pos + len))
  {
    hide Stoul;
    assert (pos + len) % WORD == pos + len;
  }

  /** The header that packing writes is the header that unpacking reads. */
  lemma HeaderRoundTrip(files: seq<File>)
    requires files != [] && forall f <- files :: Nameable(f.suffix)
    ensures var h := HeaderOf(Packed(files));
      && h == Header(ToString(|Concat(Contents(files))|), Join(Suffixes(files), ","), Join(SizesOf(Contents(files)), ","))
      && h.Size() <= |Packed(files)| && Packed(files)[h.Size()..] == Concat(Contents(files))
  {
    hide ToString, Join, Find, Concat;
    var length, suffixes := ToString(|Concat(Contents(files))|), Join(Suffixes(files), ",");
    var sizes := Join(SizesOf(Contents(files)), ",");
    DigitsAreClean(length);
    JoinHolds(Suffixes(files), ",", '\n');
    forall s <- SizesOf(Contents(files)) ensures '\n' !in s {
      DigitsAreClean(s);
    }
    JoinHolds(SizesOf(Contents(files)), ",", '\n');
    HeaderOfLines(length, suffixes, sizes, Concat(Contents(files)));
  }

  lemma HeaderOfLines(length: string, suffixes: string, sizes: string, body: string)
    requires '\n' !in length && '\n' !in suffixes && '\n' !in sizes
    ensures var text := length + "\n" + suffixes + "\n" + sizes + "\n" + body;
      && HeaderOf(text) == Header(length, suffixes, sizes)
      && HeaderOf(text).Size() == |text| - |body| && text[HeaderOf(text).Size()..] == body
  {
    hide FirstLine, AfterLine;
    var text := length + "\n" + suffixes + "\n" + sizes + "\n" + body;
    var third := sizes + "\n" + body;
    var second := suffixes + "\n" + third;
    assert text == length + "\n" + second;
    LineEnds(length, second);
    LineEnds(suffixes, third);
    LineEnds(sizes, body);
    assert |text| == |length| + 1 + |suffixes| + 1 + |sizes| + 1 + |body|;
    assert text[|text| - |body|..] == body;
  }

  lemma UnpackInvertsPack(files: seq<File>)
    requires files != [] && (forall f <- files :: Nameable(f.suffix)) && |Packed(files)| <= LONG_MAX
    ensures Unpack(Packed(files)) == Files(files)
  {
    hide Join, Concat, Packed, Fields, ToString, Stol, HeaderOf, Extract;
    var packed := Packed(files);
    HeaderRoundTrip(files);
    ConversionsInvertToString(|Concat(Contents(files))|);
    FieldsOfJoin(Suffixes(files));
    forall s <- SizesOf(Contents(files)) ensures s != "" && ',' !in s {
      DigitsAreClean(s);
    }
    FieldsOfJoin(SizesOf(Contents(files)));
    ExtractsContents(packed, files, HeaderOf(packed).Size());
  }

  /** The suffixes of an unpacked text are the fields of its second line. */
  lemma {:induction false} ExtractKeepsSuffixes(packed: string, suffixes: seq<string>, sizes: seq<string>, pos: nat)
    requires |suffixes| == |sizes| && Extract(packed, suffixes, sizes, pos).Some?
    ensures Suffixes(Extract(packed, suffixes, sizes, pos).value) == suffixes
    decreases |sizes|
  {
    if sizes != [] {
      var len := Stoul(sizes[0]).value;
      ExtractKeepsSuffixes(packed, suffixes[1..], sizes[1..], (pos + len) % WORD);
      var rest := Extract(packed, suffixes[1..], sizes[1..], (pos + len) % WORD).value;
      assert Extract(packed, suffixes, sizes, pos).value[1..] == rest;
      assert suffixes == [suffixes[0]] + suffixes[1..];
    }
  }

  lemma UnpackedAreNameable(packed: string)
    requires Unpack(packed).Files?
    ensures forall f <- Unpack(packed).files :: Nameable(f.suffix)
  {
    hide Extract, Stol, Stoul, Skipping, FirstLine, AfterLine;
    var h := HeaderOf(packed);
    var suffixes, sizes := Fields(h.suffixes, ",", false), Fields(h.sizes, ",", false);
    ExtractKeepsSuffixes(packed, suffixes, sizes, h.Size());
    var files := Unpack(packed).files;
    LineHoldsNoFeed(AfterLine(packed));
    SkippedAreProper(h.suffixes, ',');
    forall i | 0 <= i < |files| ensures Nameable(files[i].suffix) {
      assert Suffixes(files)[i] in suffixes;
    }
  }

  lemma LineHoldsNoFeed(s: string)
    ensures '\n' !in FirstLine(s)
  {
    var line := FirstLine(s);
    if '\n' in line {
      var k :| 0 <= k < |line| && line[k] == '\n';
      assert s[k..k + 1] == "\n" && At(s, "\n", k);
    }
  }

  /** Unpacking gives back what was packed exactly for a non-empty list of files whose suffixes are not empty
      and hold neither a comma nor a line feed; the contents may be anything. */
  lemma RoundTripExactly(files: seq<File>)
    requires |Packed(files)| <= LONG_MAX
    ensures Unpack(Packed(files)) == Files(files) <==> files != [] && forall f <- files :: Nameable(f.suffix)
  {
    if Unpack(Packed(files)) == Files(files) {
      UnpackedAreNameable(Packed(files));
      if files == [] {
        assert false;
      }
    } else if files != [] && forall f <- files :: Nameable(f.suffix) {
      UnpackInvertsPack(files);
    }
  }

  // ---------------------------------------------------------------------------------------------
  // Which texts are accepted, and what is made of them
  // ---------------------------------------------------------------------------------------------

  /** The sizes declared, or nothing when one of them cannot be converted. */
  function Numbers(sizes: seq<string>): Option<seq<nat>> {
    if sizes == [] then Some([])
    else
      match Stoul(sizes[0])
      case Fine(n) => Prepend([n], Numbers(sizes[1..]))
      case _ => None
  }

  /** The sizes are there exactly when each converts, and are then what each converts to. */
  lemma {:induction false} NumbersExactly(sizes: seq<string>)
    ensures Numbers(sizes).Some? <==> forall i :: 0 <= i < |sizes| ==> Stoul(sizes[i]).Fine?
    ensures Numbers(sizes).Some? ==>
      |Numbers(sizes).value| == |sizes| && forall i :: 0 <= i < |sizes| ==> Stoul(sizes[i]) == Fine(Numbers(sizes).value[i])
  {
    hide Stoul;
    if sizes != [] {
      NumbersExactly(sizes[1..]);
      assert forall i :: 0 < i < |sizes| ==> sizes[i] == sizes[1..][i - 1];
    }
  }

  /** Every piece starts inside the text, positions counted in machine words. */
  predicate Placed(ns: seq<nat>, pos: nat, bound: nat) {
    ns != [] ==> pos <= bound && Placed(ns[1..], (pos + ns[0]) % WORD, bound)
  }

  lemma {:induction false} ExtractsExactly(packed: string, suffixes: seq<string>, sizes: seq<string>, pos: nat)
    requires |suffixes| == |sizes|
    ensures Extract(packed, suffixes, sizes, pos).Some? <==>
      Numbers(sizes).Some? && Placed(Numbers(sizes).value, pos, |packed|)
    ensures Extract(packed, suffixes, sizes, pos).Some? ==> |Extract(packed, suffixes, sizes, pos).value| == |sizes|
    decreases |sizes|
  {
    hide Stoul;
    if sizes != [] {
      var len := Stoul(sizes[0]);
      if len.Fine? {
        ExtractsExactly(packed, suffixes[1..], sizes[1..], (pos + len.value) % WORD);
        if Numbers(sizes).Some? {
          assert Numbers(sizes).value[1..] == Numbers(sizes[1..]).value;
        }
      }
    }
  }

  function SuffixFields(packed: string): seq<string> {
    Fields(HeaderOf(packed).suffixes, ",", false)
  }

  function SizeFields(packed: string): seq<string> {
    Fields(HeaderOf(packed).sizes, ",", false)
  }

  /** A text is unpacked exactly when its first line gives the true, signed size of what follows the header, there
      are as many sizes as suffixes, all sizes convert, and every piece starts inside the text.  Without a
      complete header that leaves only texts without fields. */
  lemma AcceptsExactly(packed: string)
    requires |packed| <= LONG_MAX
    ensures var h := HeaderOf(packed);
      var sizes := Numbers(SizeFields(packed));
      && (Unpack(packed).Files? <==>
            && Stol(h.length) == Fine(|packed| - h.Size())
            && |SuffixFields(packed)| == |SizeFields(packed)|
            && sizes.Some? && Placed(sizes.value, h.Size(), |packed|))
      && (|packed| < h.Size() ==>
            (Unpack(packed).Files? <==>
              && Stol(h.length) == Fine(|packed| - h.Size())
              && SuffixFields(packed) == SizeFields(packed) == []))
  {
    hide Fields, FirstLine, AfterLine, Stol, Extract;
    var h := HeaderOf(packed);
    var suffixes, sizes := SuffixFields(packed), SizeFields(packed);
    HeaderIsShort(packed);
    if |suffixes| == |sizes| {
      ExtractsExactly(packed, suffixes, sizes, h.Size());
      NumbersOf(sizes);
    }
    if Stol(h.length).Fine? && (|packed| - h.Size()) % WORD == Stol(h.length).value % WORD {
      SignedDifference(|packed|, h.Size(), Stol(h.length).value);
    }
  }

  predicate Unreadable(packed: string) {
    var h := HeaderOf(packed);
    var sizes := Numbers(SizeFields(packed));
    || !Stol(h.length).Fine?
    || (Stol(h.length) == Fine(|packed| - h.Size()) && |SuffixFields(packed)| == |SizeFields(packed)|
        && !(sizes.Some? && Placed(sizes.value, h.Size(), |packed|)))
  }

  /** Unpacking throws exactly when the first line is no signed number, or everything up to the total is right and
      a size does not convert or a piece starts outside the text. */
  lemma ThrowsExactly(packed: string)
    requires |packed| <= LONG_MAX
    ensures Unpack(packed) == Throws <==> Unreadable(packed)
  {
    hide Fields, FirstLine, AfterLine, Stol, Extract;
    var h := HeaderOf(packed);
    HeaderIsShort(packed);
    if |SuffixFields(packed)| == |SizeFields(packed)| {
      ExtractsExactly(packed, SuffixFields(packed), SizeFields(packed), h.Size());
    }
    if Stol(h.length).Fine? && (|packed| - h.Size()) % WORD == Stol(h.length).value % WORD {
      SignedDifference(|packed|, h.Size(), Stol(h.length).value);
    }
  }

  /** No files are packed as the empty text, which cannot be unpacked without an exception. */
  lemma NoFilesThrow()
    ensures Packed([]) == "" && Unpack(Packed([])) == Throws
  {
    assert Find("", "\n") == None;
    assert FirstLine("") == "";
  }

  lemma NumbersOf(sizes: seq<string>)
    ensures Numbers(sizes).Some? ==> (Numbers(sizes).value == [] <==> sizes == [])
  {
  }

  /** The header as counted is at most three characters longer than the text. */
  lemma HeaderIsShort(packed: string)
    ensures HeaderOf(packed).Size() <= |packed| + 3
  {
    hide FirstLine, AfterLine;
    LineLengths(packed);
    LineLengths(AfterLine(packed));
    LineLengths(AfterLine(AfterLine(packed)));
  }

  /** The files have the declared lengths and make up the text behind the header. */
  predicate UnpacksWhole(packed: string) {
    var h := HeaderOf(packed);
    && Unpack(packed).Files? && h.Size() <= |packed|
    && Numbers(SizeFields(packed)) == Some(Lengths(Contents(Unpack(packed).files)))
    && Concat(Contents(Unpack(packed).files)) == packed[h.Size()..]
  }

  /** What the reader leaves unchecked: the files are those declared and make up the text exactly when the header
      is complete and right about the total, there are as many sizes as suffixes, and the sizes convert and add
      up to the total. */
  lemma UnpacksExactly(packed: string)
    requires |packed| <= LONG_MAX
    ensures var h := HeaderOf(packed);
      var sizes := Numbers(SizeFields(packed));
      UnpacksWhole(packed) <==>
        && h.Size() <= |packed| && Stol(h.length) == Fine(|packed| - h.Size())
        && |SuffixFields(packed)| == |SizeFields(packed)|
        && sizes.Some? && Sum(sizes.value) == |packed| - h.Size()
  {
    hide Fields, HeaderOf, Stol, Extract, Unpack, Concat, Lengths, Sum, Placed;
    var h := HeaderOf(packed);
    var suffixes, sizes := SuffixFields(packed), SizeFields(packed);
    AcceptsExactly(packed);
    if UnpacksWhole(packed) {
      SumOfLengths(Contents(Unpack(packed).files));
    }
    if h.Size() <= |packed| && Stol(h.length) == Fine(|packed| - h.Size()) && |suffixes| == |sizes| {
      UnpackIsExtract(packed);
      if Numbers(sizes).Some? && Sum(Numbers(sizes).value) == |packed| - h.Size() {
        ExtractsWhole(packed, suffixes, sizes, h.Size());
      }
    }
  }

  lemma UnpackIsExtract(packed: string)
    requires |packed| <= LONG_MAX
    ensures var h := HeaderOf(packed);
      h.Size() <= |packed| && Stol(h.length) == Fine(|packed| - h.Size()) && |SuffixFields(packed)| == |SizeFields(packed)|
      ==> Unpack(packed) == OrThrows(Extract(packed, SuffixFields(packed), SizeFields(packed), h.Size()))
  {
    hide Fields, HeaderOf, Stol, Extract;
  }

  lemma {:induction false} ExtractsWhole(packed: string, suffixes: seq<string>, sizes: seq<string>, pos: nat)
    requires |suffixes| == |sizes| && pos <= |packed| < WORD
    requires Numbers(sizes).Some? && Sum(Numbers(sizes).value) == |packed| - pos
    ensures var r := Extract(packed, suffixes, sizes, pos);
      r.Some? && Lengths(Contents(r.value)) == Numbers(sizes).value && Concat(Contents(r.value)) == packed[pos..]
    decreases |sizes|
  {
    hide Stoul, Extract, Concat, Lengths, Contents;
    if sizes == [] {
      NothingInside();
      ExtractNothing(packed, suffixes, sizes, pos);
    } else {
      var len, rest := Stoul(sizes[0]).value, Numbers(sizes[1..]).value;
      assert Numbers(sizes).value[1..] == rest;
      ExtractsWhole(packed, suffixes[1..], sizes[1..], pos + len);
      ExtractOne(packed, suffixes, sizes, pos, len);
      OneMoreFile(File(suffixes[0], packed[pos..pos + len]), Extract(packed, suffixes[1..], sizes[1..], pos + len).value);
      assert packed[pos..] == packed[pos..pos + len] + packed[pos + len..];
    }
  }

  lemma NothingInside()
    ensures Lengths(Contents([])) == [] && Concat(Contents([])) == ""
  {
  }

  lemma OneMoreFile(file: File, rest: seq<File>)
    ensures Lengths(Contents([file] + rest)) == [|file.content|] + Lengths(Contents(rest))
    ensures Concat(Contents([file] + rest)) == file.content + Concat(Contents(rest))
  {
    hide Lengths, Concat;
    assert Contents([file] + rest) == [file.content] + Contents(rest);
    PeelPart(file.content, Contents(rest));
  }

  lemma ExtractNothing(packed: string, suffixes: seq<string>, sizes: seq<string>, pos: nat)
    requires suffixes == sizes == []
    ensures Extract(packed, suffixes, sizes, pos) == Some([])
  {
  }

  /** A wrapped difference equal to a wrapped signed number is that number. */
  lemma SignedDifference(size: nat, head: nat, total: int)
    requires size <= LONG_MAX && head <= size + 3 && -LONG_MAX - 1 <= total <= LONG_MAX
    requires (size - head) % WORD == total % WORD
    ensures size - head == total
  {
  }

  lemma LineLengths(s: string)
    ensures |FirstLine(s)| + 1 + |AfterLine(s)| <= |s| + 1
  {
  }

  /** A text without a header can pass the size check with a negative size, and holds no file. */
  lemma HeaderlessTextAccepted()
    ensures Unpack("-3") == Files([])
  {
    var s := "-3";
    assert Find(s, "\n") == None by {
      CharacterFound(s, '\n');
    }
    assert Find("", "\n") == None;
    assert SkipSpace(s) == s && s[1..] == "3";
    assert Accumulate("3", 0) == 3;
    assert Stol(s) == Fine(-3);
  }

  /** A size larger than what is left is accepted, and the piece is shorter than declared. */
  lemma LongSizeIsCut()
    ensures Unpack("1\na\n5\nX") == Files([File("a", "X")])
    ensures !UnpacksWhole("1\na\n5\nX")
  {
    hide Skipping, Find, Stol, Stoul, HeaderOf;
    var text := "1" + "\n" + "a" + "\n" + "5" + "\n" + "X";
    assert text == "1\na\n5\nX";
    HeaderOfLines("1", "a", "5", "X");
    OneField("a");
    OneField("5");
    OneDigit(1);
    OneDigit(5);
    assert DigitOf(1) == '1' && DigitOf(5) == '5';
    assert ["5"][1..] == [] && ["a"][1..] == [];
    var sizes := ["5"];
    assert Stoul(sizes[0]) == Fine(5) && Numbers(sizes[1..]) == Some([]);
    assert Numbers(sizes).value[0] == 5;
    assert text[6..] == "X" == Substr(text, 6, 5);
    ExtractNothing(text, [], [], 11);
    assert [File("a", "X")] + [] == [File("a", "X")];
    assert Extract(text, ["a"], ["5"], 6) == Some([File("a", "X")]);
  }

  lemma OneField(field: string)
    requires field != "" && ',' !in field
    ensures Fields(field, ",", false) == [field]
  {
    hide Fields;
    FieldsOfJoin([field]);
  }

  lemma OneDigit(n: nat)
    requires n < 10
    ensures ToString(n) == [DigitOf(n)] && Stol([DigitOf(n)]) == Stoul([DigitOf(n)]) == Fine(n)
  {
    ConversionsInvertToString(n);
  }

  /** A size just below the machine word moves the position back: the second piece overlaps the first one and
      takes a character of the header. */
  lemma HugeSizeMovesBack()
    ensures Unpack("2\na,b\n" + ToString(WORD - 1) + ",2\nXY") == Files([File("a", "XY"), File("b", "\nX")])
  {
    hide Skipping, Find, Stol, HeaderOf, ToString, Stoul, Join;
    var huge := ToString(WORD - 1);
    var sizes := huge + ",2";
    var text := "2" + "\n" + "a,b" + "\n" + sizes + "\n" + "XY";
    assert text == "2\na,b\n" + huge + ",2\nXY";
    DigitsAreClean(huge);
    ToStringIsShort(WORD - 1);
    assert DigitOf(2) == '2';
    HeaderOfLines("2", "a,b", sizes, "XY");
    TwoFields("a", "b");
    TwoFields(huge, "2");
    OneDigit(2);
    ConversionsInvertToString(WORD - 1);
    assert "a" + "," + "b" == "a,b" && huge + "," + "2" == sizes;
    var head := |text| - 2;
    assert text[head - 1] == '\n' && text[head] == 'X' && text[head + 1] == 'Y';
    SecondPieceOverlaps(text, huge, head);
  }

  lemma TwoFields(a: string, b: string)
    requires a != "" && b != "" && ',' !in a && ',' !in b
    ensures Fields(a + "," + b, ",", false) == [a, b]
  {
    hide Fields;
    FieldsOfJoin([a, b]);
    assert [a, b][1..] == [b];
    assert Join([a, b], ",") == a + "," + b;
  }

  lemma SecondPieceOverlaps(text: string, huge: string, head: nat)
    requires 0 < head == |text| - 2 < LONG_MAX && Stoul(huge) == Fine(WORD - 1) && Stoul("2") == Fine(2)
    requires text[head - 1] == '\n' && text[head] == 'X' && text[head + 1] == 'Y'
    ensures Extract(text, ["a", "b"], [huge, "2"], head) == Some([File("a", "XY"), File("b", "\nX")])
  {
    hide Stoul;
    assert (head + (WORD - 1)) % WORD == head - 1;
    assert Substr(text, head, WORD - 1) == "XY" && Substr(text, head - 1, 2) == "\nX";
    assert ["a", "b"][1..] == ["b"] && [huge, "2"][1..] == ["2"];
    ExtractNothing(text, [], [], head + 1);
    assert [File("b", "\nX")] + [] == [File("b", "\nX")];
    assert Extract(text, ["b"], ["2"], head - 1) == Some([File("b", "\nX")]);
    assert [File("a", "XY")] + [File("b", "\nX")] == [File("a", "XY"), File("b", "\nX")];
  }
}
