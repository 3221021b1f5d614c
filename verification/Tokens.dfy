/** The window of daemon tokens: about to lapse, in use, being rolled out.  `draw(i)` stands for the i-th
    random token drawn; the draws are taken to be distinct. */
module Tokens {

  type Source = nat -> string

  ghost predicate Injective(draw: Source) {
    forall i: nat, j: nat :: draw(i) == draw(j) ==> i == j
  }

  /** How many rotations have happened, and when the next one is due. */
  datatype Window = Window(rotations: nat, next: int)

  function Published(draw: Source, rotations: nat): seq<string> {
    [draw(rotations), draw(rotations + 1), draw(rotations + 2)]
  }

  function Serving(draw: Source, rotations: nat): string {
    Published(draw, rotations)[1]
  }

  function Advance(w: Window, now: int, interval: nat): Window {
    if w.next < now then Window(w.rotations + 1, now + interval) else w
  }

  function After(w: Window, calls: seq<int>, interval: nat): Window {
    if calls == [] then w
    else Advance(After(w, calls[..|calls| - 1], interval), calls[|calls| - 1], interval)
  }

  class TokenWindow {
    const draw: Source
    const interval: nat
    var drawn: nat
    var tokens: seq<string>
    var next: int

    ghost predicate Valid()
      reads this
    {
      drawn >= 3 && tokens == Published(draw, drawn - 3)
    }

    ghost function View(): Window
      requires Valid()
      reads this
    {
      Window(drawn - 3, next)
    }

    constructor (draw: Source, now: int, interval: nat)
      ensures Valid() && View() == Window(0, now + interval)
      ensures this.draw == draw && this.interval == interval
    {
      this.draw, this.interval := draw, interval;
      tokens := [draw(0), draw(1), draw(2)];
      drawn := 3;
      next := now + interval;
    }

    /** When the rollout is overdue, however long it is, the oldest token goes and one new draw comes, and the next
        rollout is due an interval from now; otherwise nothing changes.  The answer is always three consecutive
        draws. */
    method ActiveDaemonTokens(now: int) returns (result: seq<string>)
      requires Valid()
      modifies this
      ensures Valid()
      ensures View() == Advance(old(View()), now, interval)
      ensures result == tokens == Published(draw, View().rotations)
      ensures old(next) < now ==>
        tokens == old(tokens)[1..] + [draw(old(drawn))] && drawn == old(drawn) + 1 && next == now + interval
      ensures old(next) >= now ==> tokens == old(tokens) && drawn == old(drawn) && next == old(next)
    {
      if next < now {
        next := now + interval;
        tokens := tokens[1..];
        tokens := tokens + [draw(drawn)];
        drawn := drawn + 1;
      }
      result := tokens;
    }

    /** The token a client is given to work with. */
    method GetConfig(now: int) returns (token: string)
      requires Valid()
      modifies this
      ensures Valid()
      ensures View() == Advance(old(View()), now, interval)
      ensures token == tokens[1] == Serving(draw, View().rotations)
      ensures old(next) < now ==>
        tokens == old(tokens)[1..] + [draw(old(drawn))] && drawn == old(drawn) + 1 && next == now + interval
      ensures old(next) >= now ==> tokens == old(tokens) && drawn == old(drawn) && next == old(next)
    {
      var active := ActiveDaemonTokens(now);
      token := active[1];
    }
  }

  /** The token served after k rotations is accepted after j rotations exactly when they are at most one apart. */
  lemma OverlapExactly(draw: Source, j: nat, k: nat)
    requires Injective(draw)
    ensures Serving(draw, k) in Published(draw, j) <==> -1 <= j - k <= 1
  {
    if Serving(draw, k) in Published(draw, j) {
      var i :| 0 <= i < 3 && Published(draw, j)[i] == draw(k + 1);
      assert draw(j + i) == draw(k + 1);
    } else {
      assert Published(draw, j)[0] == draw(j) && Published(draw, j)[1] == draw(j + 1) && Published(draw, j)[2] == draw(j + 2);
    }
  }

  ghost predicate Ordered(calls: seq<int>) {
    forall i, j :: 0 <= i <= j < |calls| ==> calls[i] <= calls[j]
  }

  lemma {:induction false} NotDue(w: Window, calls: seq<int>, interval: nat)
    requires forall i :: 0 <= i < |calls| ==> calls[i] <= w.next
    ensures After(w, calls, interval) == w
  {
    if calls != [] {
      NotDue(w, calls[..|calls| - 1], interval);
    }
  }

  /** Calls that lie within one interval rotate at most once. */
  lemma {:induction false} AtMostOneRotation(w: Window, calls: seq<int>, start: int, interval: nat)
    requires Ordered(calls) && forall i :: 0 <= i < |calls| ==> start <= calls[i] <= start + interval
    ensures var r := After(w, calls, interval);
      (r.rotations == w.rotations + 1 && r.next >= start + interval) || r == w
  {
    if calls != [] {
      AtMostOneRotation(w, calls[..|calls| - 1], start, interval);
    }
  }

  /** Each call comes later than the rollout due before it: the first after the one due at the start, every other more
      than an interval after the call before it. */
  ghost predicate Spaced(w: Window, calls: seq<int>, interval: nat) {
    && (calls != [] ==> calls[0] > w.next)
    && forall i :: 0 < i < |calls| ==> calls[i] > calls[i - 1] + interval
  }

  /** Calls more than an interval apart rotate once each. */
  lemma {:induction false} SpacedCallsRotate(w: Window, calls: seq<int>, interval: nat)
    requires Spaced(w, calls, interval)
    ensures var r := After(w, calls, interval);
      r.rotations == w.rotations + |calls| && r.next == if calls == [] then w.next else calls[|calls| - 1] + interval
  {
    if calls != [] {
      SpacedCallsRotate(w, calls[..|calls| - 1], interval);
    }
  }

  /** After one such call the token served before is still published, after two or more it is not any more. */
  lemma ServedTokenLapses(draw: Source, w: Window, calls: seq<int>, interval: nat)
    requires Injective(draw) && Spaced(w, calls, interval)
    ensures Serving(draw, w.rotations) in Published(draw, After(w, calls, interval).rotations) <==> |calls| <= 1
  {
    hide After, Published, Serving, Injective;
    SpacedCallsRotate(w, calls, interval);
    OverlapExactly(draw, w.rotations + |calls|, w.rotations);
  }

  lemma {:induction false} AfterAppend(w: Window, a: seq<int>, b: seq<int>, interval: nat)
    ensures After(w, a + b, interval) == After(After(w, a, interval), b, interval)
  {
    if b == [] {
      assert a + b == a;
    } else {
      assert (a + b)[..|a + b| - 1] == a + b[..|b| - 1];
      AfterAppend(w, a, b[..|b| - 1], interval);
    }
  }

  /** Whatever calls are made and however the clock advances, a token served at one call is in the set
      published at any other call, earlier or later, no more than one interval away. */
  lemma ServedTokenAccepted(draw: Source, w: Window, calls: seq<int>, interval: nat, i: nat, j: nat)
    requires Injective(draw) && Ordered(calls) && i < |calls| && j < |calls|
    requires calls[i] - calls[j] <= interval && calls[j] - calls[i] <= interval
    ensures Serving(draw, After(w, calls[..i + 1], interval).rotations)
         in Published(draw, After(w, calls[..j + 1], interval).rotations)
  {
    hide After, Advance, Published, Serving, Injective;
    var a, b := if i <= j then i else j, if i <= j then j else i;
    assert calls[..b + 1] == calls[..a + 1] + calls[a + 1..b + 1];
    AfterAppend(w, calls[..a + 1], calls[a + 1..b + 1], interval);
    AtMostOneRotation(After(w, calls[..a + 1], interval), calls[a + 1..b + 1], calls[a], interval);
    OverlapExactly(draw, After(w, calls[..j + 1], interval).rotations, After(w, calls[..i + 1], interval).rotations);
  }
}
