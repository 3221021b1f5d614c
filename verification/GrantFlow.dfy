/** The client daemon together with its grant keepers, one for each compiler environment.  The thread performing
    task `id` is thread `id` of the keeper for the task's environment, and writes down what it is handed in the same
    step.  The scheduler never issues an id twice, so a fetched grant is a new one. */
module GrantFlow {
  import opened Seqs
  import D = LocalSpec
  import LocalProperties
  import K = GrantKeeper

  /** `issued` is history: the environment for which each grant was fetched. */
  datatype State = State(lease: nat, daemon: D.State, keepers: map<string, K.State>, issued: map<nat, string>)

  /** `Local` is any step of the daemon that does not concern a request for a grant. */
  datatype Event =
    | Local(e: D.Event)
    | Fetch(env: string, now: int, grant: nat, location: string)
    | Ask(id: nat, now: int)
    | Woken(id: nat, now: int)
    | TimedOut(id: nat)

  function Init(lease: nat): State {
    State(lease, D.Init(), map[], map[])
  }

  predicate Asking(s: State, id: nat) {
    id in s.daemon.descs && s.daemon.descs[id].phase.GrantWait?
  }

  /** The keeper of an environment, made when first asked. */
  function Keeper(s: State, env: string, now: int): K.State {
    if env in s.keepers then s.keepers[env] else K.Init(s.lease, now)
  }

  predicate Counted(s: State) {
    forall env <- s.keepers :: s.keepers[env].waiters == |s.keepers[env].blocked|
  }

  function LastId(gone: seq<(K.GrantDesc, K.Fate)>): nat {
    if gone == [] then 0 else gone[|gone| - 1].0.id
  }

  /** The keeper has moved on; the thread takes its grant, unless it is blocked now. */
  function Settle(s: State, env: string, k: K.State, id: nat, now: int): State {
    s.(keepers := s.keepers[env := k],
       daemon := if id in k.blocked then s.daemon else D.Step(s.daemon, D.GrantTaken(id, LastId(k.gone), now)))
  }

  function Step(s: State, e: Event, env: nat -> string): State
    requires Counted(s)
  {
    match e
    case Local(l) => if l.GrantNone? || l.GrantTaken? then s else s.(daemon := D.Step(s.daemon, l))
    case Fetch(at, now, grant, location) =>
      if at in s.keepers && grant !in s.issued && K.Enabled(s.keepers[at], K.Push(now, grant, location)) then
        s.(keepers := s.keepers[at := K.Step(s.keepers[at], K.Push(now, grant, location))], issued := s.issued[grant := at])
      else s
    case Ask(id, now) =>
      var k := Keeper(s, env(id), now);
      if Asking(s, id) && K.Enabled(k, K.Get(id, now)) then Settle(s, env(id), K.Step(k, K.Get(id, now)), id, now) else s
    case Woken(id, now) =>
      var k := Keeper(s, env(id), now);
      if Asking(s, id) && K.Enabled(k, K.Wake(id, now)) then Settle(s, env(id), K.Step(k, K.Wake(id, now)), id, now) else s
    case TimedOut(id) =>
      var k := Keeper(s, env(id), 0);
      if Asking(s, id) && K.Enabled(k, K.GiveUp(id)) then
        s.(keepers := s.keepers[env(id) := K.Step(k, K.GiveUp(id))], daemon := D.Step(s.daemon, D.GrantNone(id)))
      else s
  }

  // ---------------------------------------------------------------------------------------------
  // What a keeper's step does to what has gone
  // ---------------------------------------------------------------------------------------------

  /** The grants handed to `thread`, in order. */
  function HandedIds(gone: seq<(K.GrantDesc, K.Fate)>, thread: nat): seq<nat> {
    if gone == [] then []
    else
      var last := gone[|gone| - 1];
      HandedIds(gone[..|gone| - 1], thread) + if last.1 == K.Handed(thread) then [last.0.id] else []
  }

  lemma HandedIdsOn(gone: seq<(K.GrantDesc, K.Fate)>, last: (K.GrantDesc, K.Fate), thread: nat)
    ensures HandedIds(gone + [last], thread) ==
      HandedIds(gone, thread) + if last.1 == K.Handed(thread) then [last.0.id] else []
  {
    assert (gone + [last])[..|gone|] == gone;
  }

  lemma {:induction false} LapsedHandNothing(gone: seq<(K.GrantDesc, K.Fate)>, gs: seq<K.GrantDesc>, thread: nat)
    ensures HandedIds(gone + K.Lapse(gs), thread) == HandedIds(gone, thread)
  {
    hide HandedIds;
    if gs == [] {
      assert gone + K.Lapse(gs) == gone;
    } else {
      var front, last := gs[..|gs| - 1], gs[|gs| - 1];
      LapsedHandNothing(gone, front, thread);
      assert gone + K.Lapse(gs) == gone + K.Lapse(front) + [(last, K.Lapsed)];
      HandedIdsOn(gone + K.Lapse(front), (last, K.Lapsed), thread);
    }
  }

  lemma {:induction false} HandedAt(gone: seq<(K.GrantDesc, K.Fate)>, thread: nat, g: nat)
    ensures g in HandedIds(gone, thread) <==> exists i :: 0 <= i < |gone| && HandsOver(gone[i], thread, g)
  {
    if gone != [] {
      var front := gone[..|gone| - 1];
      HandedAt(front, thread, g);
      if i :| 0 <= i < |gone| && HandsOver(gone[i], thread, g) {
        assert i < |front| ==> HandsOver(front[i], thread, g);
      }
      if i :| 0 <= i < |front| && HandsOver(front[i], thread, g) {
        assert HandsOver(gone[i], thread, g);
      }
      assert HandsOver(gone[|gone| - 1], thread, g) ==> g in HandedIds(gone, thread);
    }
  }

  predicate HandsOver(entry: (K.GrantDesc, K.Fate), thread: nat, g: nat) {
    entry == (entry.0, K.Handed(thread)) && entry.0.id == g
  }

  /** In its step a thread of the keeper is handed one grant, or blocked; the others get nothing. */
  lemma KeeperHands(k: K.State, e: K.Event, thread: nat)
    requires K.Inv(k) && K.Enabled(k, e) && (e.Get? || e.Wake?)
    ensures var t := K.Step(k, e);
      && t.fetched == k.fetched && k.gone <= t.gone
      && HandedIds(t.gone, thread) == HandedIds(k.gone, thread) +
           (if thread == e.thread && thread !in t.blocked then [LastId(t.gone)] else [])
      && (forall i :: |k.gone| <= i < |t.gone| ==> t.gone[i].1 in {K.Lapsed, K.Handed(e.thread)})
      && t.blocked == if e.thread in t.blocked then k.blocked + {e.thread} else k.blocked - {e.thread}
  {
    hide HandedIds, K.Live, K.Lapse, K.Inv;
    var now := e.now;
    var s := k.(clock := now);
    if e.Get? {
      var d := K.Discard(s, now);
      var lapsed := s.remaining[..K.Live(s.remaining, now)];
      LapsedHandNothing(k.gone, lapsed, thread);
      K.LapsedAreLapsed(lapsed);
      if d.remaining != [] {
        HandedIdsOn(d.gone, (d.remaining[0], K.Handed(e.thread)), thread);
      }
    } else {
      HandedIdsOn(s.gone, (s.remaining[0], K.Handed(e.thread)), thread);
    }
  }

  // ---------------------------------------------------------------------------------------------
  // The two sides agree
  // ---------------------------------------------------------------------------------------------

  function GoneOf(s: State, at: string): seq<(K.GrantDesc, K.Fate)> {
    if at in s.keepers then s.keepers[at].gone else []
  }

  ghost predicate KeepersSound(s: State) {
    forall at <- s.keepers :: K.Inv(s.keepers[at])
  }

  /** Every fetched grant has an id of its own. */
  ghost predicate IssuedOnce(s: State) {
    && (forall at <- s.keepers, i :: 0 <= i < |s.keepers[at].fetched| ==>
          Issued(s, s.keepers[at].fetched[i].id, at))
    && (forall at <- s.keepers, i, j :: 0 <= i < j < |s.keepers[at].fetched| ==>
          s.keepers[at].fetched[i].id != s.keepers[at].fetched[j].id)
  }

  predicate Issued(s: State, g: nat, at: string) {
    g in s.issued && s.issued[g] == at
  }

  /** Keepers hand grants to tasks of their own environment. */
  ghost predicate HandedHome(s: State, env: nat -> string) {
    forall at <- s.keepers, i :: 0 <= i < |s.keepers[at].gone| ==>
      s.keepers[at].gone[i].1.Handed? ==> Home(s, env, at, s.keepers[at].gone[i].1.thread)
  }

  predicate Home(s: State, env: nat -> string, at: string, id: nat) {
    id in s.daemon.descs && env(id) == at
  }

  /** A blocked thread is one that asks for a grant. */
  ghost predicate BlockedAsk(s: State, env: nat -> string) {
    forall at <- s.keepers, id <- s.keepers[at].blocked :: Asking(s, id) && env(id) == at
  }

  /** What a task has written down as granted is what its keeper handed it. */
  ghost predicate Booked(s: State, env: nat -> string) {
    forall id <- s.daemon.descs :: s.daemon.descs[id].granted == HandedIds(GoneOf(s, env(id)), id)
  }

  ghost predicate Inv(s: State, env: nat -> string) {
    && LocalProperties.Inv(s.daemon) && KeepersSound(s)
    && IssuedOnce(s) && HandedHome(s, env) && BlockedAsk(s, env) && Booked(s, env)
  }

  lemma StartsSound(lease: nat, env: nat -> string)
    ensures Inv(Init(lease), env)
  {
  }

  lemma SoundAreCounted(s: State)
    requires KeepersSound(s)
    ensures Counted(s)
  {
  }

  lemma SoundIsCounted(k: K.State)
    requires K.Inv(k)
    ensures k.waiters == |k.blocked|
  {
  }

  // The daemon's own steps

  lemma PerformKeepsGranted(d: D.Desc, e: D.Event)
    requires D.OfPerformer(e) && !e.GrantNone? && !e.GrantTaken?
    ensures D.Perform(d, e).granted == d.granted
    ensures d.phase.GrantWait? ==> D.Perform(d, e) == d
  {
  }

  lemma LocalKeepsGranted(s: D.State, e: D.Event, id: nat)
    requires LocalProperties.Inv(s) && id in s.descs && !e.GrantNone? && !e.GrantTaken?
    ensures var t := D.Step(s, e);
      && id in t.descs && t.descs[id].granted == s.descs[id].granted
      && (s.descs[id].phase.GrantWait? ==> t.descs[id].phase.GrantWait?)
  {
    hide D.Perform, LocalProperties.Inv, D.Step;
    if D.OfPerformer(e) && e.id == id {
      D.PerformStep(s, e);
      PerformKeepsGranted(s.descs[id], e);
    } else {
      LocalProperties.OthersKeepBooks(s, e, id);
    }
  }

  lemma NewHasNoGrant(s: D.State, e: D.Event, id: nat)
    requires id !in s.descs && id in D.Step(s, e).descs
    ensures D.Step(s, e).descs[id].granted == []
  {
    hide D.Perform, D.Timed, D.Clearable;
  }

  lemma {:induction false} NothingHanded(gone: seq<(K.GrantDesc, K.Fate)>, thread: nat)
    requires forall i :: 0 <= i < |gone| ==> gone[i].1 != K.Handed(thread)
    ensures HandedIds(gone, thread) == []
  {
    if gone != [] {
      NothingHanded(gone[..|gone| - 1], thread);
    }
  }

  lemma NotHome(s: State, env: nat -> string, at: string, id: nat)
    requires HandedHome(s, env) && !Home(s, env, at, id)
    ensures HandedIds(GoneOf(s, at), id) == []
  {
    var gone := GoneOf(s, at);
    forall i | 0 <= i < |gone| ensures gone[i].1 != K.Handed(id) {
      assert gone[i].1.Handed? ==> Home(s, env, at, gone[i].1.thread);
    }
    NothingHanded(gone, id);
  }

  lemma LocalKeepsInv(s: State, e: D.Event, env: nat -> string)
    requires Inv(s, env) && !e.GrantNone? && !e.GrantTaken?
    ensures Inv(s.(daemon := D.Step(s.daemon, e)), env)
  {
    hide D.Step, LocalProperties.Inv, HandedIds, K.Inv;
    var t := s.(daemon := D.Step(s.daemon, e));
    LocalProperties.StepKeepsInv(s.daemon, e);
    forall id <- s.daemon.descs ensures id in t.daemon.descs && t.daemon.descs[id].granted == s.daemon.descs[id].granted
      && (Asking(s, id) ==> Asking(t, id))
    {
      LocalKeepsGranted(s.daemon, e, id);
    }
    forall id <- t.daemon.descs
      ensures t.daemon.descs[id].granted == HandedIds(GoneOf(t, env(id)), id)
    {
      if id !in s.daemon.descs {
        NewHasNoGrant(s.daemon, e, id);
        NotHome(s, env, env(id), id);
      }
    }
    IssuedStays(s, t);
    HomeStays(s, t, env);
  }

  lemma IssuedStays(s: State, t: State)
    requires IssuedOnce(s) && t.keepers == s.keepers && t.issued == s.issued
    ensures IssuedOnce(t)
  {
  }

  /** Nothing has gone or been blocked meanwhile. */
  lemma HomeStays(s: State, t: State, env: nat -> string)
    requires HandedHome(s, env) && BlockedAsk(s, env) && t.keepers.Keys == s.keepers.Keys
    requires forall at <- s.keepers ::
      t.keepers[at].gone == s.keepers[at].gone && t.keepers[at].blocked == s.keepers[at].blocked
    requires forall id <- s.daemon.descs :: id in t.daemon.descs && (Asking(s, id) ==> Asking(t, id))
    ensures HandedHome(t, env) && BlockedAsk(t, env)
  {
    forall at <- t.keepers, i | 0 <= i < |t.keepers[at].gone| && t.keepers[at].gone[i].1.Handed?
      ensures Home(t, env, at, t.keepers[at].gone[i].1.thread)
    {
      assert Home(s, env, at, s.keepers[at].gone[i].1.thread);
    }
    forall at <- t.keepers, id <- t.keepers[at].blocked ensures Asking(t, id) && env(id) == at {
      assert Asking(s, id);
    }
  }

  // Requests for grants

  /** Thread `id` has moved on in its keeper, now `k`, and has written down `taken`. */
  ghost predicate Moved(s: State, t: State, env: nat -> string, id: nat, k: K.State, taken: seq<nat>) {
    && t.keepers == s.keepers[env(id) := k] && t.issued == s.issued
    && KeeperMoved(s, env(id), id, k, taken)
    && LocalProperties.Inv(t.daemon) && t.daemon.descs.Keys == s.daemon.descs.Keys && id in s.daemon.descs
    && (forall other <- s.daemon.descs :: other != id ==> t.daemon.descs[other] == s.daemon.descs[other])
    && t.daemon.descs[id].granted == s.daemon.descs[id].granted + taken
    && (id in k.blocked ==> Asking(t, id))
  }

  ghost predicate KeeperMoved(s: State, at: string, id: nat, k: K.State, taken: seq<nat>) {
    && K.Inv(k) && k.fetched == (if at in s.keepers then s.keepers[at].fetched else [])
    && GoneOf(s, at) <= k.gone
    && (forall i :: |GoneOf(s, at)| <= i < |k.gone| ==> k.gone[i].1 in {K.Lapsed, K.Handed(id)})
    && (forall x <- k.blocked :: x == id || (at in s.keepers && x in s.keepers[at].blocked))
    && (forall thread :: HandedIds(k.gone, thread) == HandedIds(GoneOf(s, at), thread) + if thread == id then taken else [])
  }

  lemma MovedKeepsIssued(s: State, t: State, env: nat -> string, id: nat, k: K.State, taken: seq<nat>)
    requires Moved(s, t, env, id, k, taken) && IssuedOnce(s)
    ensures IssuedOnce(t)
  {
    hide HandedIds, LocalProperties.Inv, K.Inv;
  }

  lemma MovedKeepsHome(s: State, t: State, env: nat -> string, id: nat, k: K.State, taken: seq<nat>)
    requires Moved(s, t, env, id, k, taken) && HandedHome(s, env)
    ensures HandedHome(t, env)
  {
    hide HandedIds, LocalProperties.Inv, K.Inv;
    forall at <- t.keepers, i | 0 <= i < |t.keepers[at].gone| && t.keepers[at].gone[i].1.Handed?
      ensures Home(t, env, at, t.keepers[at].gone[i].1.thread)
    {
      if at == env(id) && i >= |GoneOf(s, at)| {
        assert k.gone[i].1 == K.Handed(id);
      } else {
        assert t.keepers[at].gone[i] == GoneOf(s, at)[i];
        assert Home(s, env, at, s.keepers[at].gone[i].1.thread);
      }
    }
  }

  lemma MovedKeepsAsking(s: State, t: State, env: nat -> string, id: nat, k: K.State, taken: seq<nat>)
    requires Moved(s, t, env, id, k, taken) && BlockedAsk(s, env)
    ensures BlockedAsk(t, env)
  {
    hide HandedIds, LocalProperties.Inv, K.Inv;
    forall at <- t.keepers, x <- t.keepers[at].blocked ensures Asking(t, x) && env(x) == at {
      if x != id {
        assert at in s.keepers && x in s.keepers[at].blocked;
        assert Asking(s, x);
      }
    }
  }

  lemma MovedKeepsBooked(s: State, t: State, env: nat -> string, id: nat, k: K.State, taken: seq<nat>)
    requires Moved(s, t, env, id, k, taken) && Booked(s, env)
    ensures Booked(t, env)
  {
    hide HandedIds, LocalProperties.Inv, K.Inv;
    forall x <- t.daemon.descs ensures t.daemon.descs[x].granted == HandedIds(GoneOf(t, env(x)), x) {
      assert s.daemon.descs[x].granted == HandedIds(GoneOf(s, env(x)), x);
    }
  }

  lemma MovedKeepsInv(s: State, t: State, env: nat -> string, id: nat, k: K.State, taken: seq<nat>)
    requires Moved(s, t, env, id, k, taken) && Inv(s, env)
    ensures Inv(t, env)
  {
    hide HandedIds, LocalProperties.Inv, K.Inv, IssuedOnce, HandedHome, BlockedAsk, Booked;
    MovedKeepsIssued(s, t, env, id, k, taken);
    MovedKeepsHome(s, t, env, id, k, taken);
    MovedKeepsAsking(s, t, env, id, k, taken);
    MovedKeepsBooked(s, t, env, id, k, taken);
  }

  lemma KeeperIsSound(s: State, at: string, now: int)
    requires KeepersSound(s)
    ensures var k := Keeper(s, at, now);
      && K.Inv(k) && k.gone == GoneOf(s, at)
      && k.fetched == (if at in s.keepers then s.keepers[at].fetched else [])
      && k.blocked == (if at in s.keepers then s.keepers[at].blocked else {})
  {
    hide K.Inv;
    K.StartsSound(s.lease, now);
  }

  /** What the threads of a keeper are handed in a step of thread `id`. */
  lemma KeeperMoves(s: State, at: string, e: K.Event, now: int)
    requires KeepersSound(s) && (e.Get? || e.Wake?) && K.Enabled(Keeper(s, at, now), e)
    ensures K.Inv(Keeper(s, at, now))
    ensures var k := K.Step(Keeper(s, at, now), e);
      KeeperMoved(s, at, e.thread, k, if e.thread in k.blocked then [] else [LastId(k.gone)])
  {
    hide HandedIds, K.Inv, K.Step, K.Enabled, Keeper;
    KeeperIsSound(s, at, now);
    var k := Keeper(s, at, now);
    SoundIsCounted(k);
    K.StepKeepsInv(k, e);
    forall thread: nat ensures HandedIds(K.Step(k, e).gone, thread) == HandedIds(k.gone, thread) +
      if thread == e.thread && thread !in K.Step(k, e).blocked then [LastId(K.Step(k, e).gone)] else []
    {
      KeeperHands(k, e, thread);
    }
    KeeperHands(k, e, e.thread);
  }

  lemma TakenStep(s: D.State, id: nat, g: nat, now: int)
    requires id in s.descs && s.descs[id].phase.GrantWait?
    ensures var t := D.Step(s, D.GrantTaken(id, g, now));
      && t.descs.Keys == s.descs.Keys && t.descs[id].granted == s.descs[id].granted + [g]
      && (forall other <- s.descs :: other != id ==> t.descs[other] == s.descs[other])
  {
    hide D.OnCaller, D.OnTimer, D.DoClear;
  }

  lemma SettleKeepsInv(s: State, e: K.Event, now: int, env: nat -> string)
    requires Inv(s, env) && (e.Get? || e.Wake?) && Asking(s, e.thread)
    requires K.Enabled(Keeper(s, env(e.thread), now), e)
    ensures K.Inv(Keeper(s, env(e.thread), now))
    ensures Inv(Settle(s, env(e.thread), K.Step(Keeper(s, env(e.thread), now), e), e.thread, now), env)
  {
    hide Inv, D.Step, LocalProperties.Inv, K.Inv, K.Step, K.Enabled, Keeper, KeeperMoved, HandedIds;
    var id := e.thread;
    Parts(s, env);
    KeeperMoves(s, env(id), e, now);
    SoundIsCounted(Keeper(s, env(id), now));
    var k := K.Step(Keeper(s, env(id), now), e);
    var t := Settle(s, env(id), k, id, now);
    var taken := if id in k.blocked then [] else [LastId(k.gone)];
    if id !in k.blocked {
      TakenStep(s.daemon, id, LastId(k.gone), now);
      LocalProperties.StepKeepsInv(s.daemon, D.GrantTaken(id, LastId(k.gone), now));
    }
    assert s.daemon.descs[id].granted + [] == s.daemon.descs[id].granted;
    MovedKeepsInv(s, t, env, id, k, taken);
  }

  lemma Parts(s: State, env: nat -> string)
    requires Inv(s, env)
    ensures KeepersSound(s) && LocalProperties.Inv(s.daemon)
  {
    hide LocalProperties.Inv, K.Inv;
  }

  lemma TimeoutKeepsInv(s: State, id: nat, env: nat -> string)
    requires Inv(s, env) && Counted(s)
    ensures Inv(Step(s, TimedOut(id), env), env)
  {
    hide Inv, D.Step, LocalProperties.Inv, K.Inv, HandedIds;
    var k := Keeper(s, env(id), 0);
    if Asking(s, id) && K.Enabled(k, K.GiveUp(id)) {
      Parts(s, env);
      KeeperIsSound(s, env(id), 0);
      K.StepKeepsInv(k, K.GiveUp(id));
      NoneStep(s.daemon, id);
      LocalProperties.StepKeepsInv(s.daemon, D.GrantNone(id));
      assert s.daemon.descs[id].granted + [] == s.daemon.descs[id].granted;
      NothingAdded(k.gone);
      MovedKeepsInv(s, Step(s, TimedOut(id), env), env, id, K.Step(k, K.GiveUp(id)), []);
    }
  }

  lemma NothingAdded(gone: seq<(K.GrantDesc, K.Fate)>)
    ensures forall thread: nat :: HandedIds(gone, thread) == HandedIds(gone, thread) + []
  {
    hide HandedIds;
  }

  lemma NoneStep(s: D.State, id: nat)
    requires id in s.descs && s.descs[id].phase.GrantWait?
    ensures var t := D.Step(s, D.GrantNone(id));
      && t.descs.Keys == s.descs.Keys && t.descs[id].granted == s.descs[id].granted
      && (forall other <- s.descs :: other != id ==> t.descs[other] == s.descs[other])
  {
    hide D.OnCaller, D.OnTimer, D.DoClear;
  }

  // Fetching

  lemma FetchKeepsInv(s: State, e: Event, env: nat -> string)
    requires Inv(s, env) && Counted(s) && e.Fetch?
    ensures Inv(Step(s, e, env), env)
  {
    hide LocalProperties.Inv, K.Inv, HandedIds, IssuedOnce, HandedHome, BlockedAsk;
    var push := K.Push(e.now, e.grant, e.location);
    if e.env in s.keepers && e.grant !in s.issued && K.Enabled(s.keepers[e.env], push) {
      K.StepKeepsInv(s.keepers[e.env], push);
      FetchedOnce(s, e, env);
      HomeStays(s, Step(s, e, env), env);
    }
  }

  lemma FetchedOnce(s: State, e: Event, env: nat -> string)
    requires IssuedOnce(s) && Counted(s) && e.Fetch? && e.env in s.keepers && e.grant !in s.issued
    requires K.Enabled(s.keepers[e.env], K.Push(e.now, e.grant, e.location))
    ensures IssuedOnce(Step(s, e, env))
  {
    var t := Step(s, e, env);
    forall at <- t.keepers, i | 0 <= i < |t.keepers[at].fetched| ensures Issued(t, t.keepers[at].fetched[i].id, at) {
      assert i < |s.keepers[at].fetched| ==> Issued(s, s.keepers[at].fetched[i].id, at);
    }
    forall at <- t.keepers, i, j | 0 <= i < j < |t.keepers[at].fetched|
      ensures t.keepers[at].fetched[i].id != t.keepers[at].fetched[j].id
    {
      assert Issued(s, s.keepers[at].fetched[i].id, at);
    }
  }

  lemma StepKeepsInv(s: State, e: Event, env: nat -> string)
    requires Inv(s, env)
    ensures Counted(s) && Inv(Step(s, e, env), env)
  {
    hide Inv, K.Inv, K.Step, K.Enabled, Keeper, Settle, D.Step;
    Parts(s, env);
    SoundAreCounted(s);
    match e
    case Local(l) => if !l.GrantNone? && !l.GrantTaken? { LocalKeepsInv(s, l, env); }
    case Fetch(_, _, _, _) => FetchKeepsInv(s, e, env);
    case Ask(id, now) =>
      if Asking(s, id) && K.Enabled(Keeper(s, env(id), now), K.Get(id, now)) {
        SettleKeepsInv(s, K.Get(id, now), now, env);
      }
    case Woken(id, now) =>
      if Asking(s, id) && K.Enabled(Keeper(s, env(id), now), K.Wake(id, now)) {
        SettleKeepsInv(s, K.Wake(id, now), now, env);
      }
    case TimedOut(id) => TimeoutKeepsInv(s, id, env);
  }

  function Run(s: State, es: seq<Event>, env: nat -> string): (t: State)
    requires Inv(s, env)
    ensures Inv(t, env)
  {
    if es == [] then s
    else
      var front := Run(s, es[..|es| - 1], env);
      StepKeepsInv(front, es[|es| - 1], env);
      Step(front, es[|es| - 1], env)
  }

  /** A task writes down only grants that its keeper handed to it. */
  lemma GrantedWereHanded(s: State, env: nat -> string, id: nat, g: nat)
    requires Inv(s, env) && id in s.daemon.descs && g in s.daemon.descs[id].granted
    ensures var gone := GoneOf(s, env(id));
      exists i :: 0 <= i < |gone| && HandsOver(gone[i], id, g)
  {
    hide LocalProperties.Inv, K.Inv, HandedIds, IssuedOnce, HandedHome;
    HandedAt(GoneOf(s, env(id)), id, g);
  }

  /** What has gone from the keepers is part of what was fetched, and so each id has gone from one place only. */
  lemma GoneOnce(s: State, env: nat -> string, at: string, i: nat, other: string, j: nat)
    requires Inv(s, env) && i < |GoneOf(s, at)| && j < |GoneOf(s, other)|
    requires GoneOf(s, at)[i].0.id == GoneOf(s, other)[j].0.id
    ensures at == other && i == j
  {
    hide LocalProperties.Inv, HandedHome, BlockedAsk, Booked, K.Sorted;
    FetchedAt(s.keepers[at], i);
    FetchedAt(s.keepers[other], j);
    assert Issued(s, s.keepers[at].fetched[i].id, at) && Issued(s, s.keepers[other].fetched[j].id, other);
  }

  lemma FetchedAt(k: K.State, i: nat)
    requires K.Inv(k) && i < |k.gone|
    ensures i < |k.fetched| && k.fetched[i] == k.gone[i].0
  {
    hide K.Sorted;
    assert K.Grants(k.gone)[i] == k.gone[i].0;
  }

  /** Over every run of daemon and keepers: a grant handed to a thread is the one grant of that thread's task, of no
      other task, and is released at most once, by that task; once the task is done it has been released exactly
      when its wait did not throw. */
  lemma EachGrantToOneTask(lease: nat, es: seq<Event>, env: nat -> string, at: string, i: nat)
    requires i < |GoneOf(Run(Init(lease), es, env), at)|
    requires GoneOf(Run(Init(lease), es, env), at)[i].1.Handed?
    ensures var s := Run(Init(lease), es, env);
      var g, id := GoneOf(s, at)[i].0.id, GoneOf(s, at)[i].1.thread;
      && Home(s, env, at, id) && s.daemon.descs[id].granted == [g]
      && (forall other <- s.daemon.descs :: other != id ==>
            g !in s.daemon.descs[other].granted && g !in s.daemon.descs[other].released)
      && (s.daemon.descs[id].released == [] || s.daemon.descs[id].released == [g])
      && (s.daemon.descs[id].status == D.Done ==> (s.daemon.descs[id].released == [g] <==> !s.daemon.descs[id].threw))
  {
    hide Run, HandedIds, LocalProperties.Inv, LocalProperties.Coherent, K.Inv, Inv;
    StartsSound(lease, env);
    var s := Run(Init(lease), es, env);
    var g, id := GoneOf(s, at)[i].0.id, GoneOf(s, at)[i].1.thread;
    TakenByItsTask(s, env, at, i);
    forall other <- s.daemon.descs | other != id
      ensures g !in s.daemon.descs[other].granted && g !in s.daemon.descs[other].released
    {
      NotTakenByOthers(s, env, at, i, other);
    }
  }

  lemma TakenByItsTask(s: State, env: nat -> string, at: string, i: nat)
    requires Inv(s, env) && i < |GoneOf(s, at)| && GoneOf(s, at)[i].1.Handed?
    ensures var g, id := GoneOf(s, at)[i].0.id, GoneOf(s, at)[i].1.thread;
      && Home(s, env, at, id) && s.daemon.descs[id].granted == [g]
      && (s.daemon.descs[id].released == [] || s.daemon.descs[id].released == [g])
      && (s.daemon.descs[id].status == D.Done ==> (s.daemon.descs[id].released == [g] <==> !s.daemon.descs[id].threw))
  {
    hide HandedIds, LocalProperties.Inv, LocalProperties.Coherent, K.Inv, IssuedOnce, BlockedAsk;
    var g, id := GoneOf(s, at)[i].0.id, GoneOf(s, at)[i].1.thread;
    assert Home(s, env, at, id);
    assert HandsOver(GoneOf(s, at)[i], id, g);
    HandedAt(GoneOf(s, at), id, g);
    LocalProperties.CoherentAt(s.daemon, id);
    ReleasedOfGranted(s.daemon.descs[id], g);
  }

  lemma ReleasedOfGranted(d: D.Desc, g: nat)
    requires LocalProperties.Coherent(d)
    ensures g in d.released ==> g in d.granted
    ensures g in d.granted ==>
      && d.granted == [g]
      && (d.released == [] || d.released == [g])
      && (d.status == D.Done ==> (d.released == [g] <==> !d.threw))
  {
  }

  lemma NotTakenByOthers(s: State, env: nat -> string, at: string, i: nat, other: nat)
    requires Inv(s, env) && i < |GoneOf(s, at)| && GoneOf(s, at)[i].1.Handed?
    requires other in s.daemon.descs && other != GoneOf(s, at)[i].1.thread
    ensures var g := GoneOf(s, at)[i].0.id;
      g !in s.daemon.descs[other].granted && g !in s.daemon.descs[other].released
  {
    hide HandedIds, LocalProperties.Inv, LocalProperties.Coherent, K.Inv, IssuedOnce, HandedHome, BlockedAsk, Booked;
    var g := GoneOf(s, at)[i].0.id;
    LocalProperties.CoherentAt(s.daemon, other);
    ReleasedOfGranted(s.daemon.descs[other], g);
    if g in s.daemon.descs[other].granted {
      GrantedWereHanded(s, env, other, g);
      var gone := GoneOf(s, env(other));
      var j :| 0 <= j < |gone| && HandsOver(gone[j], other, g);
      GoneOnce(s, env, at, i, env(other), j);
    }
  }
}
