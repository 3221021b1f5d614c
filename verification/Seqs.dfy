/** Sequence and set helpers shared by the models. */
module Seqs {

  datatype Option<+T> = None | Some(value: T)

  predicate Distinct<T(==)>(xs: seq<T>) {
    forall i, j :: 0 <= i < j < |xs| ==> xs[i] != xs[j]
  }

  /** The elements of `xs` that satisfy `p`, in order; unrolls at the end, as an appending loop does. */
  function Filter<T>(xs: seq<T>, p: T -> bool): (ys: seq<T>)
    ensures |ys| <= |xs|
    ensures forall y <- ys :: p(y) && y in xs
    ensures forall x <- xs :: p(x) ==> x in ys
  {
    if xs == [] then []
    else
      var last := |xs| - 1;
      Filter(xs[..last], p) + if p(xs[last]) then [xs[last]] else []
  }

  lemma {:induction false} FilterDistinct<T>(xs: seq<T>, p: T -> bool)
    requires Distinct(xs)
    ensures Distinct(Filter(xs, p))
  {
    if xs != [] {
      FilterDistinct(xs[..|xs| - 1], p);
    }
  }

  lemma FilterLast<T>(xs: seq<T>, last: T, p: T -> bool)
    ensures Filter(xs + [last], p) == Filter(xs, p) + if p(last) then [last] else []
  {
    assert (xs + [last])[..|xs|] == xs;
  }

  lemma {:induction false} FilterAppend<T>(xs: seq<T>, ys: seq<T>, p: T -> bool)
    ensures Filter(xs + ys, p) == Filter(xs, p) + Filter(ys, p)
  {
    hide Filter;
    if ys == [] {
      FilterEmpty(p);
      assert xs + ys == xs;
    } else {
      var front, last := ys[..|ys| - 1], ys[|ys| - 1];
      assert ys == front + [last] && xs + ys == xs + front + [last];
      FilterAppend(xs, front, p);
      FilterLast(front, last, p);
      FilterLast(xs + front, last, p);
    }
  }

  lemma FilterEmpty<T>(p: T -> bool)
    ensures Filter([], p) == []
  {
  }

  lemma {:induction false} FilterAll<T>(xs: seq<T>, p: T -> bool)
    requires forall i :: 0 <= i < |xs| ==> p(xs[i])
    ensures Filter(xs, p) == xs
  {
    hide Filter;
    if xs == [] {
      FilterEmpty(p);
    } else {
      var front, last := xs[..|xs| - 1], xs[|xs| - 1];
      FilterAll(front, p);
      FilterLast(front, last, p);
      assert xs == front + [last];
    }
  }

  lemma {:induction false} FilterNone<T>(xs: seq<T>, p: T -> bool)
    requires forall i :: 0 <= i < |xs| ==> !p(xs[i])
    ensures Filter(xs, p) == []
  {
    hide Filter;
    if xs == [] {
      FilterEmpty(p);
    } else {
      var front, last := xs[..|xs| - 1], xs[|xs| - 1];
      FilterNone(front, p);
      FilterLast(front, last, p);
      assert xs == front + [last];
    }
  }

  lemma {:induction false} FilterTwice<T>(xs: seq<T>, p: T -> bool, q: T -> bool, both: T -> bool)
    requires forall i :: 0 <= i < |xs| ==> both(xs[i]) == (p(xs[i]) && q(xs[i]))
    ensures Filter(Filter(xs, p), q) == Filter(xs, both)
  {
    hide Filter;
    if xs == [] {
      FilterEmpty(p);
      FilterEmpty(q);
      FilterEmpty(both);
    } else {
      var front, last := xs[..|xs| - 1], xs[|xs| - 1];
      assert xs == front + [last];
      FilterTwice(front, p, q, both);
      FilterLast(front, last, p);
      FilterLast(front, last, both);
      FilterLast(Filter(front, p), last, q);
      assert Filter(front, p) + [] == Filter(front, p);
    }
  }

  /** Where an element of the filtered list comes from: what stands before it there was filtered from before it. */
  lemma {:induction false} FilterAt<T>(xs: seq<T>, p: T -> bool, k: nat) returns (i: nat)
    requires k < |Filter(xs, p)|
    ensures i < |xs| && xs[i] == Filter(xs, p)[k] && Filter(xs[..i], p) == Filter(xs, p)[..k]
  {
    hide Filter;
    if xs == [] {
      FilterEmpty(p);
    } else {
      var front, last := xs[..|xs| - 1], xs[|xs| - 1];
      assert xs == front + [last];
      FilterLast(front, last, p);
      if k < |Filter(front, p)| {
        i := FilterAt(front, p, k);
        assert front[..i] == xs[..i];
      } else {
        i := |front|;
      }
    }
  }

  /** The first of the filtered elements that passes `q` is the first element that passes both. */
  lemma FirstOfFilter<T>(xs: seq<T>, p: T -> bool, q: T -> bool) returns (i: nat)
    requires FirstIndex(Filter(xs, p), q) < |Filter(xs, p)|
    ensures i < |xs| && xs[i] == Filter(xs, p)[FirstIndex(Filter(xs, p), q)] && p(xs[i]) && q(xs[i])
    ensures forall j :: 0 <= j < i ==> !(p(xs[j]) && q(xs[j]))
  {
    hide Filter, FirstIndex;
    var ys := Filter(xs, p);
    var k := FirstIndex(ys, q);
    i := FilterAt(xs, p, k);
    forall j | 0 <= j < i && p(xs[j]) ensures !q(xs[j]) {
      assert xs[..i][j] in Filter(xs[..i], p);
      var m :| 0 <= m < k && ys[..k][m] == xs[j];
      assert ys[m] == xs[j];
    }
    assert ys[k] in ys;
  }

  lemma FilterAround<T>(before: seq<T>, x: T, after: seq<T>, p: T -> bool)
    requires forall i :: 0 <= i < |before| ==> p(before[i])
    requires forall i :: 0 <= i < |after| ==> p(after[i])
    requires !p(x)
    ensures Filter(before + [x] + after, p) == before + after
  {
    hide Filter;
    FilterAppend(before + [x], after, p);
    FilterLast(before, x, p);
    FilterAll(before, p);
    FilterAll(after, p);
    assert before + [] == before;
  }

  /** The position of the first element satisfying `p`, or `|xs|` when there is none. */
  function FirstIndex<T>(xs: seq<T>, p: T -> bool): (k: nat)
    ensures k <= |xs|
    ensures forall i :: 0 <= i < k ==> !p(xs[i])
    ensures k < |xs| ==> p(xs[k])
  {
    if xs == [] then 0
    else if p(xs[0]) then 0
    else 1 + FirstIndex(xs[1..], p)
  }

  function Sum(ns: seq<nat>): nat {
    if ns == [] then 0 else ns[0] + Sum(ns[1..])
  }

  lemma {:induction false} SumSnoc(ns: seq<nat>, n: nat)
    ensures Sum(ns + [n]) == Sum(ns) + n
  {
    if ns != [] {
      assert (ns + [n])[1..] == ns[1..] + [n];
      SumSnoc(ns[1..], n);
    }
  }

  lemma AnElement<T>(s: set<T>) returns (x: T)
    requires |s| > 0
    ensures x in s
  {
    x :| x in s;
  }

  lemma SubsetCard<T>(a: set<T>, b: set<T>)
    requires a <= b
    ensures |a| <= |b|
    ensures |b - a| == |b| - |a|
    ensures |a| == |b| ==> a == b
  {
    assert b == a + (b - a);
  }

  /** `xs` in front of what follows, if anything does. */
  function Prepend<T>(xs: seq<T>, rest: Option<seq<T>>): Option<seq<T>> {
    match rest
    case None => None
    case Some(ys) => Some(xs + ys)
  }

  lemma PrependMore<T>(xs: seq<T>, x: T, rest: Option<seq<T>>)
    ensures Prepend(xs, Prepend([x], rest)) == Prepend(xs + [x], rest)
    ensures Prepend([], rest) == rest
  {
    if rest.Some? {
      assert xs + ([x] + rest.value) == xs + [x] + rest.value;
      assert [] + rest.value == rest.value;
    }
  }

  function Concat(parts: seq<string>): string {
    if parts == [] then "" else parts[0] + Concat(parts[1..])
  }

  function Lengths(parts: seq<string>): (ns: seq<nat>)
    ensures |ns| == |parts| && forall i :: 0 <= i < |ns| ==> ns[i] == |parts[i]|
  {
    seq(|parts|, i requires 0 <= i < |parts| => |parts[i]|)
  }

  lemma PeelPart(part: string, rest: seq<string>)
    ensures Concat([part] + rest) == part + Concat(rest)
    ensures Lengths([part] + rest) == [|part|] + Lengths(rest)
  {
    assert ([part] + rest)[1..] == rest;
  }

  lemma {:induction false} SumOfLengths(parts: seq<string>)
    ensures Sum(Lengths(parts)) == |Concat(parts)|
  {
    if parts != [] {
      assert Lengths(parts)[1..] == Lengths(parts[1..]);
      SumOfLengths(parts[1..]);
    }
  }
}
