/** Splitting text at a delimiter, and joining it again. */
module Split {
  import opened Seqs

  /** `d` stands in `s` at position `i`. */
  predicate At(s: string, d: string, i: nat) {
    i + |d| <= |s| && s[i..i + |d|] == d
  }

  /** The leftmost place where `d` stands in `s`. */
  function Find(s: string, d: string): (r: Option<nat>)
    ensures r.Some? ==> At(s, d, r.value) && forall i: nat :: i < r.value ==> !At(s, d, i)
    ensures r.None? ==> forall i: nat :: !At(s, d, i)
  {
    FindFrom(s, d, 0)
  }

  function FindFrom(s: string, d: string, from: nat): (r: Option<nat>)
    requires from <= |s|
    ensures r.Some? ==> from <= r.value <= |s| && At(s, d, r.value) && forall i: nat :: from <= i < r.value ==> !At(s, d, i)
    ensures r.None? ==> forall i: nat :: from <= i ==> !At(s, d, i)
    decreases |s| - from
  {
    if At(s, d, from) then Some(from)
    else if from == |s| then None
    else FindFrom(s, d, from + 1)
  }

  /** Everything between the delimiters, empty pieces included. */
  function Cuts(s: string, d: string): (pieces: seq<string>)
    requires d != ""
    ensures pieces != []
    decreases |s|
  {
    match Find(s, d)
    case None => [s]
    case Some(p) => [s[..p]] + Cuts(s[p + |d|..], d)
  }

  function Join(parts: seq<string>, d: string): string {
    if parts == [] then "" else if |parts| == 1 then parts[0] else parts[0] + d + Join(parts[1..], d)
  }

  /** Every part followed by the delimiter, as a loop that appends both leaves them. */
  function Terminated(parts: seq<string>, d: string): (r: string)
    ensures |parts| * |d| <= |r|
  {
    if parts == [] then "" else parts[0] + d + Terminated(parts[1..], d)
  }

  lemma {:induction false} TerminatedIsJoin(parts: seq<string>, d: string)
    requires parts != []
    ensures Terminated(parts, d) == Join(parts, d) + d
  {
    if |parts| > 1 {
      TerminatedIsJoin(parts[1..], d);
    }
  }

  predicate NonEmpty(piece: string) {
    piece != ""
  }

  /** Cutting that passes over a delimiter met at once, and ends where the text ends. */
  function Skipping(s: string, d: string): (pieces: seq<string>)
    requires s != "" ==> d != ""
    decreases |s|
  {
    if s == "" then []
    else
      match Find(s, d)
      case None => [s]
      case Some(p) => (if p == 0 then [] else [s[..p]]) + Skipping(s[p + |d|..], d)
  }

  function Fields(s: string, d: string, keepEmpty: bool): seq<string>
    requires s != "" ==> d != ""
  {
    if s == "" then [] else if keepEmpty then Cuts(s, d) else Skipping(s, d)
  }

  /** An empty delimiter would never get past the first character, so the text must then be empty too. */
  method SplitText(s: string, delim: string, keepEmpty: bool) returns (pieces: seq<string>)
    requires s != "" ==> delim != ""
    ensures pieces == Fields(s, delim, keepEmpty)
  {
    hide Find, Cuts, Skipping;
    pieces := [];
    if s == "" {
      return;
    }
    var cur := s;
    while true
      invariant cur != "" && pieces + Fields(cur, delim, keepEmpty) == Fields(s, delim, keepEmpty)
      decreases |cur|
    {
      var pos := Find(cur, delim);
      Unfold(cur, delim, keepEmpty);
      if pos != Some(0) || keepEmpty {
        pieces := pieces + [Head(cur, pos)];
      }
      if pos == None {
        break;
      }
      cur := cur[pos.value + |delim|..];
      if cur == "" {
        if keepEmpty {
          pieces := pieces + [""];
        }
        break;
      }
    }
  }

  /** The text before the delimiter, or all of it. */
  function Head(s: string, pos: Option<nat>): string
    requires pos.Some? ==> pos.value <= |s|
  {
    if pos.Some? then s[..pos.value] else s
  }

  /** One round of splitting: the first piece if it is wanted, then the rest. */
  lemma Unfold(s: string, d: string, keepEmpty: bool)
    requires s != "" && d != ""
    ensures var pos := Find(s, d);
      && (pos.Some? ==> pos.value + |d| <= |s|)
      && Fields(s, d, keepEmpty) == (if pos != Some(0) || keepEmpty then [Head(s, pos)] else []) +
         if pos == None then []
         else if pos.value + |d| == |s| then (if keepEmpty then [""] else [])
         else Fields(s[pos.value + |d|..], d, keepEmpty)
  {
    hide Find;
    var pos := Find(s, d);
    if pos.Some? {
      var rest := s[pos.value + |d|..];
      assert Cuts(s, d) == [s[..pos.value]] + Cuts(rest, d);
      assert Skipping(s, d) == (if pos.value == 0 then [] else [s[..pos.value]]) + Skipping(rest, d);
      if rest == "" {
        CutsOfNothing(d);
      }
    }
  }

  lemma CutsOfNothing(d: string)
    requires d != ""
    ensures Cuts("", d) == [""]
  {
  }

  lemma FilterOne(piece: string)
    ensures Filter([piece], NonEmpty) == if piece == "" then [] else [piece]
  {
    assert [piece][..0] == [];
  }

  /** Passing over empty pieces while cutting gives what cutting first and dropping them afterwards gives. */
  lemma {:induction false} SkippingIsFiltering(s: string, d: string)
    requires d != ""
    ensures Skipping(s, d) == Filter(Cuts(s, d), NonEmpty)
    ensures Fields(s, d, false) == Filter(Fields(s, d, true), NonEmpty)
    decreases |s|
  {
    hide Find, Filter;
    FilterEmpty(NonEmpty);
    if s == "" {
      CutsOfNothing(d);
      FilterOne("");
    } else {
      match Find(s, d)
      case None => FilterOne(s);
      case Some(p) =>
        var rest := s[p + |d|..];
        SkippingIsFiltering(rest, d);
        FilterAppend([s[..p]], Cuts(rest, d), NonEmpty);
        FilterOne(s[..p]);
    }
  }

  /** Nothing is lost by cutting: joining the pieces gives the text back. */
  lemma {:induction false} JoinInvertsCuts(s: string, d: string)
    requires d != ""
    ensures Join(Cuts(s, d), d) == s
    decreases |s|
  {
    match Find(s, d)
    case None =>
    case Some(p) =>
      JoinInvertsCuts(s[p + |d|..], d);
      assert Cuts(s, d)[1..] == Cuts(s[p + |d|..], d);
      assert s == s[..p] + d + s[p + |d|..];
  }

  /** The delimiter is met at the end of the piece and not before, even across the border. */
  predicate Clean(piece: string, d: string) {
    Find(piece + d, d) == Some(|piece|)
  }

  predicate Separable(parts: seq<string>, d: string) {
    && parts != []
    && (forall i :: 0 <= i < |parts| - 1 ==> Clean(parts[i], d))
    && Find(parts[|parts| - 1], d) == None
  }

  lemma FirstCut(piece: string, d: string, rest: string)
    requires d != ""
    ensures Find(piece + d + rest, d).Some? && Find(piece + d + rest, d).value <= |piece|
    ensures Find(piece + d + rest, d) == Some(|piece|) <==> Clean(piece, d)
  {
    var t := piece + d + rest;
    assert t[|piece|..|piece| + |d|] == d && At(t, d, |piece|);
    assert At(piece + d, d, |piece|);
    forall i: nat | i <= |piece| ensures At(t, d, i) == At(piece + d, d, i) {
      assert t[i..i + |d|] == (piece + d)[i..i + |d|];
    }
  }

  /** The first cut takes a clean piece off whole, and something shorter off any other. */
  lemma CutsOf(piece: string, d: string, rest: string)
    requires d != ""
    ensures Clean(piece, d) ==> Cuts(piece + d + rest, d) == [piece] + Cuts(rest, d)
    ensures !Clean(piece, d) ==> |Cuts(piece + d + rest, d)[0]| < |piece|
  {
    hide Find, Clean, At, Cuts;
    var s := piece + d + rest;
    FirstCut(piece, d, rest);
    var p := Find(s, d).value;
    CutsStep(s, d, p);
    if Clean(piece, d) {
      assert s[..p] == piece && s[p + |d|..] == rest;
    }
  }

  lemma CutsStep(s: string, d: string, p: nat)
    requires d != "" && Find(s, d) == Some(p)
    ensures p + |d| <= |s| && Cuts(s, d) == [s[..p]] + Cuts(s[p + |d|..], d)
  {
    hide Find, FindFrom;
  }

  lemma SeparableStep(parts: seq<string>, d: string)
    requires |parts| > 1
    ensures Separable(parts, d) <==> Clean(parts[0], d) && Separable(parts[1..], d)
  {
    hide Clean, Find;
    assert parts == [parts[0]] + parts[1..];
  }

  lemma OnePart(part: string, d: string)
    requires d != ""
    ensures Cuts(part, d) == [part] <==> Separable([part], d)
  {
    var pos := Find(part, d);
    if pos.Some? {
      assert Cuts(part, d)[0] == part[..pos.value];
    }
  }

  /** Cutting takes joined parts apart again exactly when they are separable. */
  lemma {:induction false} CutsInvertsJoinExactly(parts: seq<string>, d: string)
    requires d != ""
    ensures Cuts(Join(parts, d), d) == parts <==> Separable(parts, d)
  {
    hide Clean, Find, Cuts;
    if |parts| == 1 {
      OnePart(parts[0], d);
      assert parts == [parts[0]];
    } else if parts != [] {
      var rest := Join(parts[1..], d);
      CutsInvertsJoinExactly(parts[1..], d);
      CutsOf(parts[0], d, rest);
      SeparableStep(parts, d);
      if Clean(parts[0], d) {
        assert Cuts(Join(parts, d), d)[1..] == Cuts(rest, d);
      }
    }
  }

  /** For a single character the condition is that no part holds it. */
  lemma SeparableByCharacter(parts: seq<string>, c: char)
    ensures Separable(parts, [c]) <==> parts != [] && forall part <- parts :: c !in part
  {
    forall part <- parts ensures Clean(part, [c]) <==> c !in part
                         ensures Find(part, [c]) == None <==> c !in part {
      CharacterFound(part, c);
    }
  }

  lemma CharacterFound(s: string, c: char)
    ensures Clean(s, [c]) <==> c !in s
    ensures Find(s, [c]) == None <==> c !in s
  {
    var t := s + [c];
    forall i: nat ensures At(s, [c], i) <==> i < |s| && s[i] == c
                  ensures At(t, [c], i) <==> i < |t| && t[i] == c {
      if i < |s| { assert s[i..i + 1] == [s[i]]; }
      if i < |t| { assert t[i..i + 1] == [t[i]]; }
    }
    if c in s {
      var k :| 0 <= k < |s| && s[k] == c;
      assert At(s, [c], k) && At(t, [c], k);
    }
    assert At(t, [c], |s|);
  }

  /** No field is empty or holds the delimiter when empty ones are passed over. */
  lemma SkippedAreProper(s: string, c: char)
    ensures forall piece <- Skipping(s, [c]) :: piece != "" && c !in piece && forall x <- piece :: x in s
  {
    hide Skipping, Cuts;
    SkippingIsFiltering(s, [c]);
    CutsHoldNoCharacter(s, c);
  }

  lemma {:induction false} CutsHoldNoCharacter(s: string, c: char)
    ensures forall piece <- Cuts(s, [c]) :: c !in piece && forall x <- piece :: x in s
    decreases |s|
  {
    match Find(s, [c])
    case None => CharacterFound(s, c);
    case Some(p) =>
      CutsHoldNoCharacter(s[p + 1..], c);
      assert c !in s[..p] by {
        if c in s[..p] {
          var k :| 0 <= k < p && s[k] == c;
          assert s[k..k + 1] == [c];
          assert At(s, [c], k);
        }
      }
  }
}
