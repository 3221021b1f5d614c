/** The client's queue of grants for one compiler environment: fetched in the background, handed out first
    in first out, dropped when they lapse.  Threads that find it empty block until one arrives. */
module GrantKeeper {
  import opened Seqs

  datatype GrantDesc = GrantDesc(expires: int, id: nat, location: string)

  datatype Fate = Lapsed | Handed(thread: nat)

  /** `fetched` and `gone` are history: every grant pushed, and every grant taken off with what became of it. */
  datatype State = State(
    lease: nat,
    clock: int,
    remaining: seq<GrantDesc>,
    waiters: nat,
    blocked: set<nat>,
    fetched: seq<GrantDesc>,
    gone: seq<(GrantDesc, Fate)>)

  datatype Event =
    | Push(now: int, id: nat, location: string)
    | Get(thread: nat, now: int)
    | Wake(thread: nat, now: int)
    | GiveUp(thread: nat)

  function Init(lease: nat, now: int): State {
    State(lease, now, [], 0, {}, [], [])
  }

  function Live(remaining: seq<GrantDesc>, now: int): (k: nat)
    ensures k <= |remaining|
    ensures forall i :: 0 <= i < k ==> remaining[i].expires < now
    ensures k < |remaining| ==> remaining[k].expires >= now
  {
    FirstIndex(remaining, (g: GrantDesc) => g.expires >= now)
  }

  function Lapse(gs: seq<GrantDesc>): (r: seq<(GrantDesc, Fate)>)
    ensures |r| == |gs| && forall i :: 0 <= i < |gs| ==> r[i] == (gs[i], Lapsed)
  {
    seq(|gs|, i requires 0 <= i < |gs| => (gs[i], Lapsed))
  }

  /** The lapsed grants at the front of the queue are thrown away. */
  function Discard(s: State, now: int): State {
    var k := Live(s.remaining, now);
    s.(remaining := s.remaining[k..], gone := s.gone + Lapse(s.remaining[..k]))
  }

  function Hand(s: State, thread: nat): State
    requires s.remaining != []
  {
    s.(remaining := s.remaining[1..], gone := s.gone + [(s.remaining[0], Handed(thread))])
  }

  function Block(s: State, thread: nat): State {
    s.(waiters := s.waiters + 1, blocked := s.blocked + {thread})
  }

  predicate Enabled(s: State, e: Event) {
    match e
    case Push(now, _, _) => now >= s.clock
    case Get(thread, now) => now >= s.clock && thread !in s.blocked
    case Wake(thread, now) => now >= s.clock && thread in s.blocked && s.remaining != []
    case GiveUp(thread) => thread in s.blocked && s.remaining == []
  }

  function Unblock(s: State, thread: nat): State
    requires s.waiters > 0
  {
    s.(waiters := s.waiters - 1, blocked := s.blocked - {thread})
  }

  function Step(s: State, e: Event): State
    requires s.waiters == |s.blocked|
  {
    if !Enabled(s, e) then s else
    match e
    case Push(now, id, location) =>
      var g := GrantDesc(now + s.lease, id, location);
      s.(clock := now, remaining := s.remaining + [g], fetched := s.fetched + [g])
    case Get(thread, now) =>
      var t := Discard(s.(clock := now), now);
      if t.remaining != [] then Hand(t, thread) else Block(t, thread)
    case Wake(thread, now) => Unblock(Hand(s.(clock := now), thread), thread)
    case GiveUp(thread) => Unblock(s, thread)
  }

  // ---------------------------------------------------------------------------------------------
  // Conservation
  // ---------------------------------------------------------------------------------------------

  function Grants(gone: seq<(GrantDesc, Fate)>): (gs: seq<GrantDesc>)
    ensures |gs| == |gone| && forall i :: 0 <= i < |gone| ==> gs[i] == gone[i].0
  {
    seq(|gone|, i requires 0 <= i < |gone| => gone[i].0)
  }

  ghost predicate Sorted(gs: seq<GrantDesc>) {
    forall i, j :: 0 <= i <= j < |gs| ==> gs[i].expires <= gs[j].expires
  }

  /** Grants leave in the order they came, so what has left and what remains is what was fetched; the queue
      is sorted by expiry; `waiters` counts the blocked threads. */
  ghost predicate Inv(s: State) {
    && Grants(s.gone) + s.remaining == s.fetched
    && Sorted(s.remaining)
    && (forall i :: 0 <= i < |s.remaining| ==> s.remaining[i].expires <= s.clock + s.lease)
    && s.waiters == |s.blocked|
  }

  /** A lapsed grant at the front is the first to be discarded. */
  lemma DiscardOne(s: State, now: int)
    requires s.remaining != [] && s.remaining[0].expires < now
    ensures Discard(s, now)
         == Discard(s.(remaining := s.remaining[1..], gone := s.gone + [(s.remaining[0], Lapsed)]), now)
  {
    var gs, rest := s.remaining, s.remaining[1..];
    var k := Live(gs, now);
    assert Live(rest, now) == k - 1;
    assert gs[..k] == [gs[0]] + rest[..k - 1] && gs[k..] == rest[k - 1..];
    assert s.gone + Lapse(gs[..k]) == s.gone + [(gs[0], Lapsed)] + Lapse(rest[..k - 1]);
  }

  lemma DiscardNone(s: State, now: int)
    requires s.remaining == [] || s.remaining[0].expires >= now
    ensures Discard(s, now) == s
  {
    assert s.gone + Lapse([]) == s.gone;
  }

  lemma DiscardKeepsInv(s: State, now: int)
    requires Inv(s) && now >= s.clock
    ensures Inv(Discard(s.(clock := now), now))
  {
    hide Live, Lapse, Grants;
    var k := Live(s.remaining, now);
    var t := Discard(s.(clock := now), now);
    var lapsed := s.remaining[..k];
    GrantsOfLapsed(s.gone, lapsed);
    assert s.remaining == lapsed + t.remaining;
    assert Grants(s.gone) + (lapsed + t.remaining) == Grants(s.gone) + lapsed + t.remaining;
  }

  lemma GrantsOfLapsed(gone: seq<(GrantDesc, Fate)>, gs: seq<GrantDesc>)
    ensures Grants(gone + Lapse(gs)) == Grants(gone) + gs
  {
  }

  lemma HandKeepsInv(s: State, thread: nat)
    requires Inv(s) && s.remaining != []
    ensures Inv(Hand(s, thread))
  {
    assert Grants(Hand(s, thread).gone) == Grants(s.gone) + [s.remaining[0]];
    assert s.remaining == [s.remaining[0]] + s.remaining[1..];
  }

  lemma StepKeepsInv(s: State, e: Event)
    requires Inv(s)
    ensures Inv(Step(s, e))
  {
    hide Grants, Sorted, Discard;
    if Enabled(s, e) {
      match e
      case Push(now, id, location) => PushKeepsInv(s, now, id, location);
      case Get(thread, now) =>
        DiscardKeepsInv(s, now);
        DiscardKeepsBlocked(s.(clock := now), now);
        var t := Discard(s.(clock := now), now);
        if t.remaining != [] { HandKeepsInv(t, thread); }
      case Wake(thread, now) => HandKeepsInv(s.(clock := now), thread);
      case GiveUp(_) =>
    }
  }

  lemma PushKeepsInv(s: State, now: int, id: nat, location: string)
    requires Inv(s) && now >= s.clock
    ensures Inv(Step(s, Push(now, id, location)))
  {
    hide Grants;
    var g := GrantDesc(now + s.lease, id, location);
    assert Grants(s.gone) + (s.remaining + [g]) == Grants(s.gone) + s.remaining + [g];
  }

  function Run(s: State, es: seq<Event>): (t: State)
    requires Inv(s)
    ensures Inv(t)
  {
    if es == [] then s
    else
      StepKeepsInv(Run(s, es[..|es| - 1]), es[|es| - 1]);
      Step(Run(s, es[..|es| - 1]), es[|es| - 1])
  }

  lemma RunOne(s: State, e: Event)
    requires Inv(s)
    ensures Run(s, [e]) == Step(s, e)
  {
    hide Step, Inv;
    assert [e][..0] == [];
  }

  lemma {:induction false} RunAppend(s: State, es: seq<Event>, fs: seq<Event>)
    requires Inv(s)
    ensures Run(s, es + fs) == Run(Run(s, es), fs)
  {
    hide Step, Inv;
    if fs == [] {
      assert es + fs == es;
    } else {
      var n := |fs| - 1;
      assert (es + fs)[..|es| + n] == es + fs[..n];
      RunAppend(s, es, fs[..n]);
    }
  }

  lemma StartsSound(lease: nat, now: int)
    ensures Inv(Init(lease, now))
  {
  }

  /** Every grant ever fetched is, at its own place in the order of fetching, either still queued or gone
      with one fate: lapsed, or handed to one thread. */
  lemma EveryGrantAccountedFor(lease: nat, now: int, es: seq<Event>, i: nat)
    ensures var s := Run(Init(lease, now), es);
      i < |s.fetched| ==>
        if i < |s.gone| then s.gone[i].0 == s.fetched[i]
        else i - |s.gone| < |s.remaining| && s.remaining[i - |s.gone|] == s.fetched[i]
  {
    var s := Run(Init(lease, now), es);
    assert s.fetched == Grants(s.gone) + s.remaining;
  }

  /** How many grants `thread` has been handed. */
  function HandedTo(gone: seq<(GrantDesc, Fate)>, thread: nat): nat {
    if gone == [] then 0
    else HandedTo(gone[..|gone| - 1], thread) + if gone[|gone| - 1].1 == Handed(thread) then 1 else 0
  }

  lemma {:induction false} HandedAppend(a: seq<(GrantDesc, Fate)>, b: seq<(GrantDesc, Fate)>, thread: nat)
    ensures HandedTo(a + b, thread) == HandedTo(a, thread) + HandedTo(b, thread)
  {
    if b == [] {
      assert a + b == a;
    } else {
      assert (a + b)[..|a + b| - 1] == a + b[..|b| - 1];
      HandedAppend(a, b[..|b| - 1], thread);
    }
  }

  lemma {:induction false} NoneHanded(b: seq<(GrantDesc, Fate)>, thread: nat)
    requires forall i :: 0 <= i < |b| ==> b[i].1 != Handed(thread)
    ensures HandedTo(b, thread) == 0
  {
    if b != [] {
      NoneHanded(b[..|b| - 1], thread);
    }
  }

  predicate ByOther(e: Event, thread: nat) {
    e.Push? || e.thread != thread
  }

  lemma DiscardHandsNone(s: State, now: int, thread: nat)
    ensures var t := Discard(s, now);
      s.gone <= t.gone && HandedTo(t.gone, thread) == HandedTo(s.gone, thread)
  {
    var lapsed := Lapse(s.remaining[..Live(s.remaining, now)]);
    HandedAppend(s.gone, lapsed, thread);
    NoneHanded(lapsed, thread);
  }

  lemma HandHandsOne(s: State, to: nat, thread: nat)
    requires s.remaining != []
    ensures var t := Hand(s, to);
      s.gone <= t.gone && HandedTo(t.gone, thread) == HandedTo(s.gone, thread) + if to == thread then 1 else 0
  {
    assert Hand(s, to).gone[..|s.gone|] == s.gone;
  }

  lemma StepByOther(s: State, e: Event, thread: nat)
    requires Inv(s) && ByOther(e, thread)
    ensures var t := Step(s, e);
      && s.gone <= t.gone && HandedTo(t.gone, thread) == HandedTo(s.gone, thread)
      && (thread in t.blocked <==> thread in s.blocked)
  {
    hide HandedTo, Discard;
    if Enabled(s, e) {
      match e
      case Push(_, _, _) =>
      case Get(other, now) =>
        var t := Discard(s.(clock := now), now);
        DiscardHandsNone(s.(clock := now), now, thread);
        DiscardKeepsBlocked(s.(clock := now), now);
        if t.remaining != [] { HandHandsOne(t, other, thread); }
      case Wake(other, now) => HandHandsOne(s.(clock := now), other, thread);
      case GiveUp(_) =>
    }
  }

  lemma DiscardKeepsBlocked(s: State, now: int)
    ensures Discard(s, now).blocked == s.blocked
  {
  }

  /** While others go on, a thread is handed nothing, and no grant that has gone comes back. */
  lemma {:induction false} RunByOthers(s: State, es: seq<Event>, thread: nat)
    requires Inv(s) && forall i :: 0 <= i < |es| ==> ByOther(es[i], thread)
    ensures var t := Run(s, es);
      && s.gone <= t.gone && HandedTo(t.gone, thread) == HandedTo(s.gone, thread)
      && (thread in t.blocked <==> thread in s.blocked)
  {
    hide Step, Inv, HandedTo;
    if es != [] {
      RunByOthers(s, es[..|es| - 1], thread);
      StepByOther(Run(s, es[..|es| - 1]), es[|es| - 1], thread);
    }
  }

  lemma LiveSuffix(gs: seq<GrantDesc>, now: int)
    requires Sorted(gs)
    ensures forall i :: Live(gs, now) <= i < |gs| ==> gs[i].expires >= now
  {
    var k := Live(gs, now);
    assert forall i :: k <= i < |gs| ==> gs[k].expires <= gs[i].expires;
  }

  /** Dropping the lapsed prefix of the queue drops every lapsed grant in it. */
  lemma DiscardIsFilter(gs: seq<GrantDesc>, now: int)
    requires Sorted(gs)
    ensures gs[Live(gs, now)..] == Filter(gs, (g: GrantDesc) => g.expires >= now)
  {
    hide Filter, Sorted;
    var live := (g: GrantDesc) => g.expires >= now;
    var k := Live(gs, now);
    LiveSuffix(gs, now);
    FilterNone(gs[..k], live);
    FilterAll(gs[k..], live);
    FilterAppend(gs[..k], gs[k..], live);
    assert gs == gs[..k] + gs[k..];
  }

  lemma DiscardedIsFilter(s: State, now: int)
    requires Inv(s)
    ensures Discard(s.(clock := now), now).remaining == Filter(s.remaining, (g: GrantDesc) => g.expires >= now)
  {
    DiscardIsFilter(s.remaining, now);
  }

  /** A thread that finds the queue non-empty is handed the oldest grant that has not lapsed; one that finds
      nothing live is blocked and takes nothing. */
  lemma GetTakesOldestLive(s: State, thread: nat, now: int)
    requires Inv(s) && Enabled(s, Get(thread, now))
    ensures var t := Step(s, Get(thread, now));
      var live := Filter(s.remaining, (g: GrantDesc) => g.expires >= now);
      if live == [] then t.remaining == [] && thread in t.blocked && t.waiters == s.waiters + 1
      else t.remaining == live[1..] && t.gone[|t.gone| - 1] == (live[0], Handed(thread)) && t.blocked == s.blocked
  {
    DiscardIsFilter(s.remaining, now);
  }

  /** The step hands out a grant that has lapsed by then. */
  predicate HandsLapsed(s: State, e: Event)
    requires s.waiters == |s.blocked|
  {
    && (e.Get? || e.Wake?)
    && var gone := Step(s, e).gone;
      |gone| > |s.gone| && gone[|gone| - 1].1 == Handed(e.thread) && gone[|gone| - 1].0.expires < e.now
  }

  /** Lapsed grants are dropped before the wait and not after it: one is handed out exactly when a blocked thread goes
      on and the grant at the front has lapsed meanwhile. */
  lemma HandsLapsedExactly(s: State, e: Event)
    requires Inv(s) && Enabled(s, e)
    ensures HandsLapsed(s, e) <==> e.Wake? && s.remaining[0].expires < e.now
  {
    hide Lapse;
    if e.Get? {
      var k := Live(s.remaining, e.now);
      LapsedAreLapsed(s.remaining[..k]);
    }
  }

  lemma LapsedAreLapsed(gs: seq<GrantDesc>)
    ensures forall i :: 0 <= i < |gs| ==> Lapse(gs)[i].1 == Lapsed
    ensures |Lapse(gs)| == |gs|
  {
  }

  /** A thread blocks, a grant arrives, and the thread goes on only when its lease is over: it gets it all the same. */
  lemma WokenGetsLapsed(lease: nat, now: int)
    ensures var s := Run(Init(lease, now), [Get(1, now), Push(now, 7, "")]);
      && Enabled(s, Wake(1, now + lease + 1)) && HandsLapsed(s, Wake(1, now + lease + 1))
  {
    hide Discard, Inv;
    StartsSound(lease, now);
    var s0 := Init(lease, now);
    var first := Block(s0, 1);
    var second := first.(remaining := [GrantDesc(now + lease, 7, "")], fetched := [GrantDesc(now + lease, 7, "")]);
    FirstBlocks(lease, now);
    RunOne(s0, Get(1, now));
    StepKeepsInv(s0, Get(1, now));
    RunOne(first, Push(now, 7, ""));
    StepKeepsInv(first, Push(now, 7, ""));
    assert Step(first, Push(now, 7, "")) == second;
    assert [Get(1, now), Push(now, 7, "")] == [Get(1, now)] + [Push(now, 7, "")];
    RunAppend(s0, [Get(1, now)], [Push(now, 7, "")]);
    HandsLapsedExactly(second, Wake(1, now + lease + 1));
  }

  lemma FirstBlocks(lease: nat, now: int)
    ensures Step(Init(lease, now), Get(1, now)) == Block(Init(lease, now), 1)
  {
    hide Discard, Hand;
    DiscardNone(Init(lease, now), now);
  }

  /** The program checks that the waiter count is zero when a blocked thread leaves; that holds exactly when
      no other thread is blocked. */
  lemma LoneWaiterExactly(s: State, e: Event)
    requires Inv(s) && Enabled(s, e) && (e.Wake? || e.GiveUp?)
    ensures Step(s, e).waiters == 0 <==> s.blocked == {e.thread}
  {
    assert |s.blocked - {e.thread}| == 0 <==> s.blocked - {e.thread} == {};
    assert s.blocked - {e.thread} == {} <==> s.blocked == {e.thread};
  }

  /** Two threads block and one gives up: the other is still counted, and the check fails. */
  lemma TwoWaitersFailTheCheck(lease: nat, now: int)
    ensures var s := Run(Init(lease, now), [Get(1, now), Get(2, now)]);
      && s.blocked == {1, 2} && Enabled(s, GiveUp(1))
      && Step(s, GiveUp(1)).waiters == 1
  {
    hide Discard, Inv;
    var s0 := Init(lease, now);
    var first := Block(s0, 1);
    StartsSound(lease, now);
    FirstBlocks(lease, now);
    RunOne(s0, Get(1, now));
    StepKeepsInv(s0, Get(1, now));
    SecondBlocks(lease, now);
    RunOne(first, Get(2, now));
    assert [Get(1, now), Get(2, now)] == [Get(1, now)] + [Get(2, now)];
    RunAppend(s0, [Get(1, now)], [Get(2, now)]);
    assert first.blocked + {2} == {1, 2};
  }

  lemma SecondBlocks(lease: nat, now: int)
    ensures var first := Block(Init(lease, now), 1);
      first.waiters == |first.blocked| && Step(first, Get(2, now)) == Block(first, 2)
  {
    hide Discard, Hand;
    DiscardNone(Block(Init(lease, now), 1), now);
  }

  // ---------------------------------------------------------------------------------------------
  // The keeper
  // ---------------------------------------------------------------------------------------------

  class EnvGrantKeeper {
    const lease: nat
    var remaining: seq<GrantDesc>
    var waiters: nat
    ghost var clock: int
    ghost var blocked: set<nat>
    ghost var fetched: seq<GrantDesc>
    ghost var gone: seq<(GrantDesc, Fate)>

    ghost function View(): State
      reads this
    {
      State(lease, clock, remaining, waiters, blocked, fetched, gone)
    }

    constructor (lease: nat, now: int)
      ensures View() == Init(lease, now)
    {
      this.lease := lease;
      remaining, waiters, clock, blocked, fetched, gone := [], 0, now, {}, [], [];
    }

    /** What the fetcher does with each grant of an answer. */
    method Store(now: int, id: nat, location: string)
      requires Inv(View()) && now >= clock
      modifies this
      ensures Inv(View())
      ensures View() == Step(old(View()), Push(now, id, location))
      ensures remaining == old(remaining) + [GrantDesc(now + lease, id, location)] && clock == now
    {
      StepKeepsInv(View(), Push(now, id, location));
      var g := GrantDesc(now + lease, id, location);
      remaining := remaining + [g];
      clock, fetched := now, fetched + [g];
    }

    method DiscardLapsed(now: int)
      requires Inv(View()) && now >= clock
      modifies this`remaining, this`clock, this`gone
      ensures Inv(View())
      ensures View() == Discard(old(View()).(clock := now), now)
      ensures remaining == Filter(old(remaining), (g: GrantDesc) => g.expires >= now)
    {
      hide Inv, Discard;
      DiscardKeepsInv(View(), now);
      DiscardedIsFilter(View(), now);
      clock := now;
      while remaining != [] && remaining[0].expires < now
        invariant Discard(View(), now) == Discard(old(View()).(clock := now), now)
        decreases |remaining|
      {
        DiscardOne(View(), now);
        gone := gone + [(remaining[0], Lapsed)];
        remaining := remaining[1..];
      }
      DiscardNone(View(), now);
    }

    method Pop(ghost thread: nat) returns (g: GrantDesc)
      requires remaining != []
      modifies this`remaining, this`gone
      ensures View() == Hand(old(View()), thread) && g == old(remaining[0])
    {
      g := remaining[0];
      gone := gone + [(g, Handed(thread))];
      remaining := remaining[1..];
    }

    /** The condition wait gives the lock up: anything but this thread may go on. */
    method AwaitAvailable(ghost thread: nat) returns (ghost meanwhile: seq<Event>, ghost now: int)
      requires Inv(View()) && thread in blocked
      modifies this
      ensures Inv(View()) && View() == Run(old(View()), meanwhile)
      ensures forall i :: 0 <= i < |meanwhile| ==> ByOther(meanwhile[i], thread)
      ensures now >= clock
    {
      meanwhile, now := [], clock;
    }

    /** Takes a live grant, or blocks for one; whatever others do meanwhile, it pops from a non-empty queue
        and ends as one run of events.  The grant it returns is a new entry of what has gone, handed to this
        thread, and the only one handed to it meanwhile. */
    method Take(ghost thread: nat, now: int) returns (result: Option<GrantDesc>, ghost events: seq<Event>)
      requires Inv(View()) && now >= clock && thread !in blocked
      modifies this
      ensures Inv(View()) && View() == Run(old(View()), events)
      ensures thread !in blocked && old(gone) <= gone
      ensures HandedTo(gone, thread) == old(HandedTo(gone, thread)) + if result.Some? then 1 else 0
      ensures result.Some? ==> |gone| > |old(gone)| && gone[|gone| - 1] == (result.value, Handed(thread))
      ensures result.None? ==> remaining == []
    {
      hide Inv, Run, HandedTo, Filter, Discard;
      ghost var start := View();
      StepKeepsInv(start, Get(thread, now));
      events := [Get(thread, now)];
      RunOne(start, Get(thread, now));
      DiscardHandsNone(start.(clock := now), now, thread);
      DiscardLapsed(now);
      if remaining != [] {
        HandHandsOne(View(), thread, thread);
        var g := Pop(thread);
        result := Some(g);
      } else {
        waiters := waiters + 1;
        blocked := blocked + {thread};
        assert View() == Run(start, events);
        ghost var blockedState := View();
        ghost var meanwhile, woken := AwaitAvailable(thread);
        RunByOthers(blockedState, meanwhile, thread);
        ghost var last;
        result, last := Leave(thread, woken);
        RunAppend(start, events, meanwhile);
        RunAppend(start, events + meanwhile, [last]);
        events := events + meanwhile + [last];
      }
    }

    /** A blocked thread goes on: with a grant if there is one, without when its wait timed out. */
    method Leave(ghost thread: nat, ghost now: int) returns (result: Option<GrantDesc>, ghost last: Event)
      requires Inv(View()) && thread in blocked && now >= clock
      modifies this
      ensures Inv(View()) && View() == Run(old(View()), [last])
      ensures thread !in blocked && old(gone) <= gone
      ensures HandedTo(gone, thread) == old(HandedTo(gone, thread)) + if result.Some? then 1 else 0
      ensures result.Some? ==> |gone| > |old(gone)| && gone[|gone| - 1] == (result.value, Handed(thread))
      ensures result.None? <==> old(remaining) == []
      ensures if result.Some? then [result.value] + remaining == old(remaining) else remaining == []
      ensures waiters == old(waiters) - 1
    {
      hide Run, HandedTo;
      SomeWaiter(View(), thread);
      last := if remaining == [] then GiveUp(thread) else Wake(thread, now);
      RunOne(View(), last);
      StepKeepsInv(View(), last);
      if remaining == [] {
        result := None;
      } else {
        clock := now;
        HandHandsOne(View(), thread, thread);
        var g := Pop(thread);
        result := Some(g);
      }
      waiters := waiters - 1;
      blocked := blocked - {thread};
    }
  }

  lemma SomeWaiter(s: State, thread: nat)
    requires Inv(s) && thread in s.blocked
    ensures s.waiters > 0
  {
  }
}
