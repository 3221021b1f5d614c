/** Finding the places in a compiled file where the paths of the working directory stand, so that another
    machine can put its own paths there. */
module PathScan {
  import opened Seqs
  import opened Split

  const PATH_MAX: nat := 4096
  const NUL: char := '\0'

  datatype Location = Location(position: nat, length: nat, suffix: nat)

  /** `end` is the first NUL at or after `pos`. */
  predicate EndsAt(file: string, pos: nat, end: nat) {
    pos <= end < |file| && file[end] == NUL && forall k :: pos <= k < end ==> file[k] != NUL
  }

  /** No NUL between `p` and `q`: both lie in the same segment of the file. */
  predicate SameSegment(file: string, p: nat, q: nat)
    requires q <= |file|
  {
    forall k :: p <= k < q ==> file[k] != NUL
  }

  /** The prefix stands at `pos`, for the first time in its segment; a NUL at `end` closes the segment, and not
      too far away. */
  predicate Listed(file: string, prefix: string, pos: nat, end: nat) {
    && At(file, prefix, pos)
    && EndsAt(file, pos, end)
    && pos + |prefix| <= end <= pos + PATH_MAX
    && forall q: nat :: q < pos && At(file, prefix, q) ==> !SameSegment(file, q, pos)
  }

  /** A prefix without a NUL lies before the NUL that closes its segment. */
  lemma PrefixFits(file: string, prefix: string, pos: nat, end: nat)
    requires NUL !in prefix && At(file, prefix, pos) && EndsAt(file, pos, end)
    ensures pos + |prefix| <= end
  {
    forall k | pos <= k < pos + |prefix| ensures file[k] != NUL {
      assert file[pos..pos + |prefix|][k - pos] == prefix[k - pos] && prefix[k - pos] in prefix;
    }
  }

  predicate Ascending(found: seq<Location>) {
    forall i, j :: 0 <= i < j < |found| ==> found[i].position + found[i].length < found[j].position
  }

  /** Everything found is listed, with the right length and suffix, and ends no later than `start`. */
  predicate Sound(file: string, prefix: string, found: seq<Location>, start: nat) {
    forall i :: 0 <= i < |found| ==>
      && found[i].position + found[i].length <= start
      && found[i].length == |prefix| + found[i].suffix
      && Listed(file, prefix, found[i].position, found[i].position + found[i].length)
  }

  /** Everything listed before `start` is found. */
  ghost predicate Complete(file: string, prefix: string, found: seq<Location>, start: nat) {
    forall pos: nat, end: nat ::
      Listed(file, prefix, pos, end) && pos < start ==> Location(pos, end - pos, end - pos - |prefix|) in found
  }

  lemma FindEnd(file: string, pos: nat)
    requires pos <= |file|
    ensures forall end: nat :: EndsAt(file, pos, end) <==> FindFrom(file, [NUL], pos) == Some(end)
  {
    forall i: nat ensures At(file, [NUL], i) <==> i < |file| && file[i] == NUL {
      if i < |file| {
        assert file[i..i + 1] == [file[i]];
      }
    }
  }

  /** The scan stands at the start of the file, at a NUL, or at the end. */
  predicate AtBoundary(file: string, start: nat) {
    start <= |file| && (start == 0 || start == |file| || file[start] == NUL)
  }

  /** The locations, in ascending order and apart from each other, are exactly the first places of the prefix in
      the closed segments whose rest is not too long. */
  method FindPathLocations(file: string, prefix: string) returns (locations: seq<Location>)
    requires prefix != "" && NUL !in prefix
    ensures Ascending(locations) && Sound(file, prefix, locations, |file|) && Complete(file, prefix, locations, |file|)
  {
    hide At, EndsAt, Listed, Sound, Complete, Ascending;
    locations := [];
    NoneBefore(file, prefix);
    var start := 0;
    while true
      invariant AtBoundary(file, start) && Ascending(locations)
      invariant Sound(file, prefix, locations, start) && Complete(file, prefix, locations, start)
      decreases |file| - start
    {
      var pos := FindFrom(file, prefix, start);
      if pos == None {
        NoMore(file, prefix, locations, start);
        break;
      }
      var end := FindFrom(file, [NUL], pos.value);
      Forward(file, prefix, start, pos.value, end);
      if end == None || end.value - pos.value > PATH_MAX {
        Skipped(file, prefix, locations, start, pos.value, end);
        start := if end == None then |file| else end.value;
        continue;
      }
      Found(file, prefix, locations, start, pos.value, end.value);
      locations := locations + [Location(pos.value, end.value - pos.value, end.value - pos.value - |prefix|)];
      start := end.value;
    }
  }

  lemma NoneBefore(file: string, prefix: string)
    ensures Ascending([]) && Sound(file, prefix, [], 0) && Complete(file, prefix, [], 0)
  {
  }

  lemma NoMore(file: string, prefix: string, found: seq<Location>, start: nat)
    requires start <= |file| && FindFrom(file, prefix, start) == None
    requires Sound(file, prefix, found, start) && Complete(file, prefix, found, start)
    ensures Sound(file, prefix, found, |file|) && Complete(file, prefix, found, |file|)
  {
  }

  /** The scan moves on, to a NUL behind the prefix or to the end of the file. */
  lemma Forward(file: string, prefix: string, start: nat, pos: nat, end: Option<nat>)
    requires prefix != "" && NUL !in prefix && AtBoundary(file, start)
    requires FindFrom(file, prefix, start) == Some(pos) && FindFrom(file, [NUL], pos) == end
    ensures start < |file|
    ensures end.Some? ==> start <= pos && pos + |prefix| <= end.value < |file| && file[end.value] == NUL
  {
    FindEnd(file, pos);
    if end.Some? {
      assert EndsAt(file, pos, end.value);
      PrefixFits(file, prefix, pos, end.value);
    }
  }

  /** Until the segment closes, no place but the one just found can be listed. */
  lemma OnlyTheFirst(file: string, prefix: string, start: nat, pos: nat, next: nat)
    requires start <= |file| && FindFrom(file, prefix, start) == Some(pos)
    requires next <= |file| && SameSegment(file, pos, next)
    ensures forall p: nat, e: nat :: Listed(file, prefix, p, e) && start <= p < next ==> p == pos
  {
    hide EndsAt;
    assert forall p: nat :: pos <= p <= next ==> SameSegment(file, pos, p);
  }

  /** A place just found is the first in its segment. */
  lemma FirstInSegment(file: string, prefix: string, start: nat, pos: nat, q: nat)
    requires prefix != "" && NUL !in prefix && AtBoundary(file, start)
    requires FindFrom(file, prefix, start) == Some(pos) && q < pos && At(file, prefix, q)
    ensures !SameSegment(file, q, pos)
  {
    assert q < start && file[start] == NUL;
    assert file[pos] == file[pos..pos + |prefix|][0] == prefix[0];
    assert start < pos;
  }

  lemma Skipped(file: string, prefix: string, found: seq<Location>, start: nat, pos: nat, end: Option<nat>)
    requires prefix != "" && start <= |file| && Sound(file, prefix, found, start) && Complete(file, prefix, found, start)
    requires FindFrom(file, prefix, start) == Some(pos) && FindFrom(file, [NUL], pos) == end
    requires end.Some? ==> end.value - pos > PATH_MAX
    ensures var next := if end.Some? then end.value else |file|;
      Sound(file, prefix, found, next) && Complete(file, prefix, found, next)
  {
    FindEnd(file, pos);
    NoEarlierEnd(file, pos, end);
    var next := if end.Some? then end.value else |file|;
    OnlyTheFirst(file, prefix, start, pos, next);
    assert forall e: nat :: Listed(file, prefix, pos, e) ==> EndsAt(file, pos, e);
  }

  lemma NoEarlierEnd(file: string, pos: nat, end: Option<nat>)
    requires pos <= |file| && FindFrom(file, [NUL], pos) == end
    ensures SameSegment(file, pos, if end.Some? then end.value else |file|)
  {
    forall k | pos <= k < (if end.Some? then end.value else |file|) ensures file[k] != NUL {
      assert file[k..k + 1] == [file[k]];
      assert !At(file, [NUL], k);
    }
  }

  lemma Found(file: string, prefix: string, found: seq<Location>, start: nat, pos: nat, end: nat)
    requires prefix != "" && NUL !in prefix && AtBoundary(file, start)
    requires Ascending(found) && Sound(file, prefix, found, start) && Complete(file, prefix, found, start)
    requires FindFrom(file, prefix, start) == Some(pos) && FindFrom(file, [NUL], pos) == Some(end)
    requires pos + |prefix| <= end <= pos + PATH_MAX && start < pos + |prefix|
    ensures var longer := found + [Location(pos, end - pos, end - pos - |prefix|)];
      Ascending(longer) && Sound(file, prefix, longer, end) && Complete(file, prefix, longer, end)
  {
    hide At, Listed, Complete;
    NewIsListed(file, prefix, start, pos, end);
    StartsLater(file, prefix, start, pos);
    NewIsAll(file, prefix, found, start, pos, end);
  }

  lemma NewIsAll(file: string, prefix: string, found: seq<Location>, start: nat, pos: nat, end: nat)
    requires start <= |file| && Complete(file, prefix, found, start)
    requires FindFrom(file, prefix, start) == Some(pos) && FindFrom(file, [NUL], pos) == Some(end)
    requires pos + |prefix| <= end
    ensures Complete(file, prefix, found + [Location(pos, end - pos, end - pos - |prefix|)], end)
  {
    hide At, EndsAt;
    NoEarlierEnd(file, pos, Some(end));
    OnlyTheFirst(file, prefix, start, pos, end);
    var longer := found + [Location(pos, end - pos, end - pos - |prefix|)];
    assert longer[|found|] in longer;
    forall p: nat, e: nat | Listed(file, prefix, p, e) && p < end
      ensures Location(p, e - p, e - p - |prefix|) in longer
    {
      if p >= start {
        ListedEnd(file, prefix, pos, e, end);
      }
    }
  }

  lemma ListedEnd(file: string, prefix: string, pos: nat, e: nat, end: nat)
    requires Listed(file, prefix, pos, e) && FindFrom(file, [NUL], pos) == Some(end)
    ensures e == end
  {
    FindEnd(file, pos);
    assert EndsAt(file, pos, e);
  }

  /** A place found is behind the NUL at which the last one ended. */
  lemma StartsLater(file: string, prefix: string, start: nat, pos: nat)
    requires prefix != "" && NUL !in prefix && AtBoundary(file, start)
    requires FindFrom(file, prefix, start) == Some(pos)
    ensures start == 0 || start < pos
  {
    assert file[pos] == file[pos..pos + |prefix|][0] == prefix[0];
  }

  lemma NewIsListed(file: string, prefix: string, start: nat, pos: nat, end: nat)
    requires prefix != "" && NUL !in prefix && AtBoundary(file, start)
    requires FindFrom(file, prefix, start) == Some(pos) && FindFrom(file, [NUL], pos) == Some(end)
    requires pos + |prefix| <= end <= pos + PATH_MAX
    ensures Listed(file, prefix, pos, end)
  {
    FindEnd(file, pos);
    forall q: nat | q < pos && At(file, prefix, q) ensures !SameSegment(file, q, pos) {
      FirstInSegment(file, prefix, start, pos, q);
    }
  }

  /** There is only one list of this description, so it is what the scan computes. */
  lemma LocationsAreUnique(file: string, prefix: string, xs: seq<Location>, ys: seq<Location>, n: nat)
    requires prefix != ""
    requires Ascending(xs) && Sound(file, prefix, xs, n) && Complete(file, prefix, xs, n)
    requires Ascending(ys) && Sound(file, prefix, ys, n) && Complete(file, prefix, ys, n)
    ensures xs == ys
  {
    SameMembers(file, prefix, xs, ys, n);
    SameMembers(file, prefix, ys, xs, n);
    SameOrder(xs, ys);
  }

  predicate Among(xs: seq<Location>, ys: seq<Location>) {
    forall i :: 0 <= i < |xs| ==> xs[i] in ys && xs[i].length > 0
  }

  lemma SameMembers(file: string, prefix: string, xs: seq<Location>, ys: seq<Location>, n: nat)
    requires prefix != "" && Sound(file, prefix, xs, n) && Complete(file, prefix, ys, n)
    ensures Among(xs, ys)
  {
    hide Listed;
    forall i | 0 <= i < |xs| ensures xs[i] in ys && xs[i].length > 0 {
      var x := xs[i];
      assert Location(x.position, x.length, x.length - |prefix|) == x;
      assert Listed(file, prefix, x.position, x.position + x.length);
    }
  }

  lemma {:induction false} SameOrder(xs: seq<Location>, ys: seq<Location>)
    requires Ascending(xs) && Ascending(ys) && Among(xs, ys) && Among(ys, xs)
    ensures xs == ys
  {
    hide Ascending, Among;
    EmptyTogether(xs, ys);
    EmptyTogether(ys, xs);
    if xs != [] {
      SameFirst(xs, ys);
      TailMembers(xs, ys);
      TailMembers(ys, xs);
      SameOrder(xs[1..], ys[1..]);
      assert xs == [xs[0]] + xs[1..] && ys == [ys[0]] + ys[1..];
    }
  }

  lemma EmptyTogether(xs: seq<Location>, ys: seq<Location>)
    requires Among(xs, ys)
    ensures ys == [] ==> xs == []
  {
    if xs != [] {
      assert xs[0] in ys;
    }
  }

  lemma SameFirst(xs: seq<Location>, ys: seq<Location>)
    requires Ascending(xs) && Ascending(ys) && Among(xs, ys) && Among(ys, xs) && xs != [] && ys != []
    ensures xs[0] == ys[0]
  {
    assert xs[0] in ys && ys[0] in xs;
  }

  lemma TailMembers(xs: seq<Location>, ys: seq<Location>)
    requires Ascending(xs) && xs != [] && ys != [] && xs[0] == ys[0] && Among(xs, ys)
    ensures Ascending(xs[1..]) && Among(xs[1..], ys[1..])
  {
    forall i | 1 <= i < |xs| ensures xs[i] in ys[1..] {
      var j :| 0 <= j < |ys| && ys[j] == xs[i];
      assert xs[0].position < xs[i].position;
      assert ys[1..][j - 1] == xs[i];
    }
  }
}
