/** What the scheduler promises its callers: admission, grants that stay dead, slots held by zombies,
    and the reconciliation of a servant's heartbeat. */
module SchedulerProperties {
  import opened Seqs
  import opened SchedulerTypes
  import opened SchedulerSpec
  import opened SchedulerInvariant

  // ---------------------------------------------------------------------------------------------
  // Admission
  // ---------------------------------------------------------------------------------------------

  /** Because the subtractions wrap, a machine whose load exceeds its cores by more than the tasks it
      runs counts as free again. */
  lemma FreeExactly(s: Slot, minMemory: uint64)
    ensures IsFree(s, minMemory) <==>
      && !ShortOfMemory(s.info, minMemory)
      && s.running < s.info.concurrency
      && (s.info.load < s.info.cores || s.info.load > s.info.cores + s.running)
  {
  }

  /** When the wrapping formula agrees with the saturating one it stands for.  Counters so large that adding
      the cores would wrap are excluded; `NeverOverCommitted` keeps them below 2^32. */
  lemma SaturatesExactly(info: ServantInfo, running: uint64, minMemory: uint64)
    requires running + info.cores < TWO_64
    ensures AvailableTasks(info, running, minMemory) == SaturatingTasks(info, running, minMemory) <==>
      || ShortOfMemory(info, minMemory)
      || running <= info.load <= running + info.cores
      || (info.load < running && info.concurrency <= info.cores)
      || (info.load > running + info.cores && info.concurrency == 0)
  {
  }

  /** The formula does not saturate: an idle servant reporting load 9 on 4 cores offers all 8 slots, not none. */
  lemma OverloadedLooksFree()
    ensures var info := ServantInfo(1, "h:1", "h:1", 4, 9, 0, 0, 8, User, []);
      AvailableTasks(info, 0, 0) == 8 && SaturatingTasks(info, 0, 0) == 0
  {
  }

  /** Whom a grant goes to: never a memory-short servant, never one with all its slots taken.  With no
      eligible servant the answer is NoEnv, with eligible but none free it is Busy; then nothing changes. */
  lemma GrantedExactly(s: State, task: TaskInfo, expires: int, prefetch: bool)
    requires Inv(s)
    ensures var (t, reply) := DoStart(s, task, expires, prefetch);
      && (reply == NoEnv <==> forall p <- s.servants :: !CanServe(p, task))
      && (reply.Granted? <==> exists p :: p in s.servants && CanServe(p, task) && IsFree(p, s.minMemory))
      && (reply.NoEnv? || reply.Busy? || reply.Granted?)
      && (!reply.Granted? ==> t == s)
      && (reply.Granted? ==>
        && reply.id == s.nextId && reply.id !in s.tasks && reply.id in t.tasks
        && exists p :: p in s.servants && p.info.observed == reply.location && p.sid == t.tasks[reply.id].sid
             && CanServe(p, task) && !ShortOfMemory(p.info, s.minMemory) && p.running < p.info.concurrency)
  {
    hide Eligible, Free, Pick, IsFree, CanServe, ShortOfMemory;
    AnyEligible(s.servants, task);
    AnyFree(s.servants, task, s.minMemory);
    if Free(Eligible(s.servants, task), s.minMemory) != [] {
      PickedIsFree(s, task);
      FreeHasRoom(Pick(Free(Eligible(s.servants, task), s.minMemory), task.requesterIp), s.minMemory);
    }
  }

  lemma AnyEligible(servants: seq<Slot>, task: TaskInfo)
    ensures Eligible(servants, task) == [] <==> forall p <- servants :: !CanServe(p, task)
  {
    hide CanServe;
    var eligible := Eligible(servants, task);
    if eligible != [] {
      assert eligible[0] in servants;
    }
    if p :| p in servants && CanServe(p, task) {
      assert p in eligible;
    }
  }

  lemma AnyFree(servants: seq<Slot>, task: TaskInfo, minMemory: uint64)
    ensures Free(Eligible(servants, task), minMemory) != []
      <==> exists p :: p in servants && CanServe(p, task) && IsFree(p, minMemory)
  {
    hide CanServe, IsFree;
    var free := Free(Eligible(servants, task), minMemory);
    if free != [] {
      assert free[0] in servants && CanServe(free[0], task);
    }
    if p :| p in servants && CanServe(p, task) && IsFree(p, minMemory) {
      assert p in free;
    }
  }

  /** The largest concurrency that the servant at `location` has advertised. */
  function MaxAdvertised(es: seq<Event>, location: string): nat {
    if es == [] then 0
    else
      var before := MaxAdvertised(es[..|es| - 1], location);
      match es[|es| - 1]
      case KeepServant(info, _) =>
        if info.observed == location && info.concurrency > before then info.concurrency else before
      case _ => before
  }

  ghost predicate Within(s: Slot, es: seq<Event>) {
    && s.running <= MaxAdvertised(es, s.info.observed)
    && s.info.concurrency <= MaxAdvertised(es, s.info.observed)
  }

  /** Where a slot after a step comes from. */
  ghost predicate Follows(a: Slot, b: Slot, e: Event) {
    && a.sid == b.sid && a.info.observed == b.info.observed
    && (b.info == a.info || (e.KeepServant? && b.info == e.info))
    && (b.running <= a.running || (b.running == a.running + 1 && a.running < a.info.concurrency))
  }

  ghost predicate Fresh(b: Slot, e: Event) {
    e.KeepServant? && b.info == e.info && b.running == 0
  }

  lemma PlaceFollows(s: State, g: Grant, k: nat, i: nat, e: Event)
    requires DistinctServants(s.servants) && i < |s.servants| && k < |s.servants|
    requires s.servants[k].sid == g.sid && s.servants[k].running < s.servants[k].info.concurrency
    ensures |Place(s, g).servants| == |s.servants| && Follows(s.servants[i], Place(s, g).servants[i], e)
  {
  }

  lemma StartFollows(s: State, e: Event, i: nat)
    requires Inv(s) && e.Start? && i < |Step(s, e).0.servants|
    ensures i < |s.servants| && Follows(s.servants[i], Step(s, e).0.servants[i], e)
  {
    hide Pick, Free, Eligible, Place, IsFree, CanServe, ShortOfMemory;
    var free := Free(Eligible(s.servants, e.task), s.minMemory);
    if free != [] {
      PickedIsFree(s, e.task);
      var p := Pick(free, e.task.requesterIp);
      FreeHasRoom(p, s.minMemory);
      var k :| 0 <= k < |s.servants| && s.servants[k] == p;
      PlaceKeepsLength(s, Grant(p.sid, e.task, e.expires, e.prefetch, false));
      PlaceFollows(s, Grant(p.sid, e.task, e.expires, e.prefetch, false), k, i, e);
    }
  }

  lemma PlaceKeepsLength(s: State, g: Grant)
    ensures |Place(s, g).servants| == |s.servants|
  {
  }

  lemma FreedFollows(s: State, dead: set<nat>, i: nat, e: Event)
    requires Inv(s) && i < |s.servants|
    ensures |Without(s, dead).servants| == |s.servants| && Follows(s.servants[i], Without(s, dead).servants[i], e)
  {
    WithoutConserves(s, dead);
    WithoutAt(s, dead, i);
  }

  lemma FreeFollows(s: State, e: Event, i: nat)
    requires Inv(s) && e.FreeTask? && i < |Step(s, e).0.servants|
    ensures i < |s.servants| && Follows(s.servants[i], Step(s, e).0.servants[i], e)
  {
    hide Without, FreeBatch, Inv;
    FreeOne(s, e.id);
    if i < |s.servants| {
      WithoutAt(s, {e.id}, i);
      FreedFollows(s, {e.id}, i, e);
    } else if s.servants != [] {
      WithoutAt(s, {e.id}, 0);
    } else {
      FreedNobody(s, {e.id});
    }
  }

  lemma FreedNobody(s: State, dead: set<nat>)
    requires s.servants == []
    ensures Without(s, dead).servants == []
  {
  }

  lemma NotifyFollows(s: State, e: Event, i: nat)
    requires Inv(s) && e.Notify? && i < |Step(s, e).0.servants|
    ensures i < |s.servants| && Follows(s.servants[i], Step(s, e).0.servants[i], e)
  {
    hide Without, Inv, Accepted, Rejected, GrantIds, GoneZombies;
    var k := IndexOf(s.servants, e.location);
    if k < |s.servants| {
      var gone := GoneZombies(s.tasks, s.servants[k].sid, GrantIds(e.reported));
      WithoutAt(s, gone, k);
      FreedFollows(s, gone, i, e);
    }
  }

  lemma TickFollows(s: State, e: Event, i: nat)
    requires e.Tick? && i < |Step(s, e).0.servants|
    ensures exists j :: 0 <= j < |s.servants| && Follows(s.servants[j], Step(s, e).0.servants[i], e)
  {
    var b := Step(s, e).0.servants[i];
    assert b in s.servants;
    var j :| 0 <= j < |s.servants| && s.servants[j] == b;
    assert Follows(s.servants[j], b, e);
  }

  lemma RegisteredFollows(s: State, e: Event, i: nat)
    requires (e.KeepTask? || e.KeepServant?) && i < |Step(s, e).0.servants|
    ensures Fresh(Step(s, e).0.servants[i], e) || (i < |s.servants| && Follows(s.servants[i], Step(s, e).0.servants[i], e))
  {
  }

  lemma StepFollows(s: State, e: Event, i: nat)
    requires Inv(s)
    requires i < |Step(s, e).0.servants|
    ensures var b := Step(s, e).0.servants[i];
      Fresh(b, e) || exists j :: 0 <= j < |s.servants| && Follows(s.servants[j], b, e)
  {
    hide Step, Inv, Follows, Fresh;
    match e
    case Start(_, _, _) => StartFollows(s, e, i);
    case FreeTask(_) => FreeFollows(s, e, i);
    case Notify(_, _) => NotifyFollows(s, e, i);
    case Tick(_) => TickFollows(s, e, i);
    case _ => RegisteredFollows(s, e, i);
  }

  /** Over any run a servant never runs more tasks than the most it has ever advertised. */
  lemma {:induction false} NeverOverCommitted(minMemory: uint64, es: seq<Event>)
    ensures forall s <- Run(Init(minMemory), es).servants :: Within(s, es)
  {
    if es != [] {
      var front, e := es[..|es| - 1], es[|es| - 1];
      NeverOverCommitted(minMemory, front);
      SlotConservation(minMemory, front);
      var s := Run(Init(minMemory), front);
      forall b <- Run(Init(minMemory), es).servants ensures Within(b, es) {
        var i :| 0 <= i < |Step(s, e).0.servants| && Step(s, e).0.servants[i] == b;
        StepFollows(s, e, i);
        if !Fresh(b, e) {
          var j :| 0 <= j < |s.servants| && Follows(s.servants[j], b, e);
          assert Within(s.servants[j], front);
        }
      }
    }
  }

  // ---------------------------------------------------------------------------------------------
  // Grants that have died
  // ---------------------------------------------------------------------------------------------

  /** Issued, and since then turned into a zombie or gone from the table. */
  ghost predicate Dead(s: State, id: nat) {
    id < s.nextId && (id in s.tasks ==> s.tasks[id].zombie)
  }

  ghost predicate Lists(reply: Reply, reported: seq<RunningTask>, id: nat) {
    reply.Expired? && multiset(reply.ids)[id] == multiset(GrantIds(reported))[id]
  }

  lemma {:induction false} RejectedListsAll(reported: seq<RunningTask>, tasks: map<nat, Grant>, sid: nat, id: nat)
    ensures multiset(GrantIds(Rejected(reported, tasks, sid)))[id] ==
      if Permitted(tasks, sid, id) then 0 else multiset(GrantIds(reported))[id]
  {
    if reported == [] {
      assert GrantIds(Rejected(reported, tasks, sid)) == [];
    } else {
      var front, last := reported[..|reported| - 1], reported[|reported| - 1];
      RejectedListsAll(front, tasks, sid, id);
      assert GrantIds(reported) == GrantIds(front) + [last.grantId];
      var rest := Rejected(front, tasks, sid);
      assert GrantIds(rest + [last]) == GrantIds(rest) + [last.grantId];
      assert Rejected(reported, tasks, sid) == if Permitted(tasks, sid, last.grantId) then rest else rest + [last];
    }
  }

  lemma DeadStep(s: State, e: Event, id: nat)
    requires Inv(s) && Dead(s, id)
    ensures var (t, reply) := Step(s, e);
      && Dead(t, id)
      && (e.KeepTask? && e.id == id ==> reply == Alive(false))
      && (reply.Granted? ==> reply.id != id)
      && (e.Notify? ==> Lists(reply, e.reported, id))
  {
    hide DoNotify, Lists;
    match e
    case Start(task, expires, prefetch) =>
    case KeepTask(_, _) =>
    case FreeTask(other) => FreeOne(s, other);
    case KeepServant(_, _) =>
    case Notify(location, reported) => DeadNotify(s, location, reported, id);
    case Tick(_) =>
  }

  lemma DeadNotify(s: State, location: string, reported: seq<RunningTask>, id: nat)
    requires Inv(s) && Dead(s, id)
    ensures var (t, reply) := DoNotify(s, location, reported);
      Dead(t, id) && reply.Expired? && Lists(reply, reported, id)
  {
    var k := IndexOf(s.servants, location);
    if k < |s.servants| {
      var sid := s.servants[k].sid;
      RejectedListsAll(reported, Without(s, GoneZombies(s.tasks, sid, GrantIds(reported))).tasks, sid, id);
    }
  }

  /** Dead stays dead: whatever happens after, keeping the grant alive fails, its id is not issued again,
      and a heartbeat listing it has it returned as expired as often as it was listed. */
  lemma {:induction false} DeadStaysDead(s: State, es: seq<Event>, e: Event, id: nat)
    requires Inv(s) && Dead(s, id)
    ensures var t := Run(s, es);
      && Dead(t, id)
      && (e.KeepTask? && e.id == id ==> Step(t, e).1 == Alive(false))
      && (Step(t, e).1.Granted? ==> Step(t, e).1.id != id)
      && (e.Notify? ==> Lists(Step(t, e).1, e.reported, id))
    decreases |es|
  {
    RunKeepsInv(s, es);
    if es != [] {
      var front := es[..|es| - 1];
      RunKeepsInv(s, front);
      DeadStaysDead(s, front, es[|es| - 1], id);
      DeadStep(Run(s, front), es[|es| - 1], id);
    }
    DeadStep(Run(s, es), e, id);
  }

  // ---------------------------------------------------------------------------------------------
  // How a grant leaves the table
  // ---------------------------------------------------------------------------------------------

  ghost predicate ServantExpires(s: State, sid: nat, now: int) {
    exists i :: 0 <= i < |s.servants| && s.servants[i].sid == sid && s.servants[i].expires < now
  }

  ghost predicate HeartbeatOf(s: State, sid: nat, location: string) {
    exists i :: 0 <= i < |s.servants| && s.servants[i].sid == sid && s.servants[i].info.observed == location
  }

  lemma LivingExactly(s: State, sid: nat, now: int)
    requires DistinctServants(s.servants) && sid in Sids(s.servants)
    ensures sid in Sids(Living(s.servants, now)) <==> !ServantExpires(s, sid, now)
  {
    var living := Living(s.servants, now);
    var k :| 0 <= k < |s.servants| && s.servants[k].sid == sid;
    forall x | x in living && x.sid == sid ensures x == s.servants[k] {
      var j :| 0 <= j < |s.servants| && s.servants[j] == x;
      assert j == k;
    }
    assert s.servants[k] in s.servants;
  }

  /** The only three ways out of the table: freed by name, its servant expiring, or a zombie that its own
      servant's heartbeat does not list.  A zombie that is still listed keeps its slot. */
  lemma LeavesExactly(s: State, e: Event, id: nat)
    requires Inv(s) && id in s.tasks
    ensures id !in Step(s, e).0.tasks <==>
      || e == FreeTask(id)
      || (e.Tick? && ServantExpires(s, s.tasks[id].sid, e.now))
      || (e.Notify? && HeartbeatOf(s, s.tasks[id].sid, e.location)
          && s.tasks[id].zombie && id !in GrantIds(e.reported))
  {
    hide Pick, Eligible, Free, Inv, DoNotify, DoTick;
    match e
    case Start(task, expires, prefetch) =>
    case KeepTask(_, _) =>
    case FreeTask(other) => FreeOne(s, other);
    case KeepServant(_, _) =>
    case Notify(location, reported) => NotifyLeaves(s, location, reported, id);
    case Tick(now) => TickLeaves(s, now, id);
  }

  lemma NotifyLeaves(s: State, location: string, reported: seq<RunningTask>, id: nat)
    requires Inv(s) && id in s.tasks
    ensures id !in DoNotify(s, location, reported).0.tasks <==>
      HeartbeatOf(s, s.tasks[id].sid, location) && s.tasks[id].zombie && id !in GrantIds(reported)
  {
    hide GrantIds, Accepted, Rejected;
    var k := IndexOf(s.servants, location);
    if k < |s.servants| {
      assert HeartbeatOf(s, s.servants[k].sid, location);
      if HeartbeatOf(s, s.tasks[id].sid, location) {
        var i :| 0 <= i < |s.servants| && s.servants[i].sid == s.tasks[id].sid && s.servants[i].info.observed == location;
        assert i == k;
      }
    }
  }

  lemma TickLeaves(s: State, now: int, id: nat)
    requires Inv(s) && id in s.tasks
    ensures id !in DoTick(s, now).tasks <==> ServantExpires(s, s.tasks[id].sid, now)
  {
    LivingExactly(s, s.tasks[id].sid, now);
  }

  lemma GrantStays(s: State, e: Event, id: nat)
    requires Inv(s) && id < s.nextId
    ensures var t := Step(s, e).0;
      id < t.nextId && (id in t.tasks ==> id in s.tasks && t.tasks[id].sid == s.tasks[id].sid)
  {
    hide Inv, FreeBatch, Pick, Eligible, Free;
    match e
    case FreeTask(other) => FreeOne(s, other);
    case _ =>
  }

  /** Over any run an issued id never comes back into the table, and a grant never moves to another servant. */
  lemma {:induction false} GrantStaysOverRun(s: State, es: seq<Event>, id: nat)
    requires Inv(s) && id < s.nextId
    ensures var t := Run(s, es);
      id < t.nextId && (id in t.tasks ==> id in s.tasks && t.tasks[id].sid == s.tasks[id].sid)
  {
    hide Inv, Step;
    if es != [] {
      var front := es[..|es| - 1];
      RunKeepsInv(s, front);
      GrantStaysOverRun(s, front, id);
      GrantStays(Run(s, front), es[|es| - 1], id);
    }
  }

  /** Lease expiry, then any run that leaves the grant in the table, then a heartbeat of its servant that omits
      it: the grant is gone, and the servant's counter falls by exactly the zombies omitted. */
  lemma OmittedZombieGivesSlotBack(s: State, now: int, es: seq<Event>, reported: seq<RunningTask>, id: nat, j: nat)
    requires Inv(s) && id in s.tasks && s.tasks[id].expires < now
    requires var t := Run(DoTick(s, now), es);
      id in t.tasks && j < |t.servants| && t.servants[j].sid == t.tasks[id].sid
    requires id !in GrantIds(reported)
    ensures var t := Run(DoTick(s, now), es);
      var u := DoNotify(t, t.servants[j].info.observed, reported).0;
      var gone := GoneZombies(t.tasks, t.servants[j].sid, GrantIds(reported));
      && t.tasks[id].sid == s.tasks[id].sid && t.tasks[id].zombie && id in gone
      && u.tasks == t.tasks - gone
      && |u.servants| == |t.servants| && u.servants[j].sid == t.servants[j].sid
      && u.servants[j].running == t.servants[j].running - |gone|
  {
    hide Inv, Run, Step, DoTick, DoNotify;
    var ticked := DoTick(s, now);
    TickKeepsInv(s, now);
    TickKills(s, now, id);
    RunKeepsInv(ticked, es);
    GrantStaysOverRun(ticked, es, id);
    DeadStaysDead(ticked, es, Tick(now), id);
    NotifyFreesGone(Run(ticked, es), j, reported);
  }

  lemma TickKills(s: State, now: int, id: nat)
    requires Inv(s) && id in s.tasks && s.tasks[id].expires < now
    ensures var t := DoTick(s, now);
      Dead(t, id) && (id in t.tasks ==> t.tasks[id].sid == s.tasks[id].sid)
  {
  }

  lemma NotifyFreesGone(t: State, j: nat, reported: seq<RunningTask>)
    requires Inv(t) && j < |t.servants|
    ensures var u := DoNotify(t, t.servants[j].info.observed, reported).0;
      var gone := GoneZombies(t.tasks, t.servants[j].sid, GrantIds(reported));
      && u.tasks == t.tasks - gone
      && |u.servants| == |t.servants| && u.servants[j].sid == t.servants[j].sid
      && u.servants[j].running == t.servants[j].running - |gone|
  {
    assert IndexOf(t.servants, t.servants[j].info.observed) == j;
    var gone := GoneZombies(t.tasks, t.servants[j].sid, GrantIds(reported));
    WithoutConserves(t, gone);
    WithoutAt(t, gone, j);
    assert Owned(t.tasks, t.servants[j].sid) * gone == gone;
  }

  // ---------------------------------------------------------------------------------------------
  // Heartbeats
  // ---------------------------------------------------------------------------------------------

  /** With the servant registered, a heartbeat splits the reported tasks: those with a live grant on this
      servant go to the book, the others are returned, both in the order and as often as reported. */
  lemma HeartbeatReconciles(s: State, location: string, reported: seq<RunningTask>, sid: nat)
    requires Inv(s) && HeartbeatOf(s, sid, location)
    ensures var (t, reply) := Step(s, Notify(location, reported));
      && t.book == s.book[location := Filter(reported, (r: RunningTask) => Permitted(s.tasks, sid, r.grantId))]
      && reply == Expired(GrantIds(Filter(reported, (r: RunningTask) => !Permitted(s.tasks, sid, r.grantId))))
      && (forall id :: id in reply.ids <==>
            id in GrantIds(reported) && !(id in s.tasks && s.tasks[id].sid == sid && !s.tasks[id].zombie))
      && (forall id :: Permitted(t.tasks, sid, id) <==> Permitted(s.tasks, sid, id))
  {
    hide Inv, DoNotify, Without, Permitted, HeartbeatOf;
    var cleared := Without(s, GoneZombies(s.tasks, sid, GrantIds(reported)));
    NotifyAt(s, location, reported, sid);
    ClearingKeepsPermits(s, sid, GrantIds(reported));
    SamePermits(reported, cleared.tasks, s.tasks, sid);
    assert Rejected(reported, s.tasks, sid) == Filter(reported, (r: RunningTask) => !Permitted(s.tasks, sid, r.grantId));
    RejectsExactly(reported, s.tasks, sid);
  }

  lemma RejectsExactly(reported: seq<RunningTask>, tasks: map<nat, Grant>, sid: nat)
    ensures forall id :: id in GrantIds(Rejected(reported, tasks, sid)) <==>
      id in GrantIds(reported) && !(id in tasks && tasks[id].sid == sid && !tasks[id].zombie)
  {
    hide Rejected, GrantIds;
    var rejected, ids := GrantIds(Rejected(reported, tasks, sid)), GrantIds(reported);
    forall id: nat ensures id in rejected <==> id in ids && !Permitted(tasks, sid, id) {
      RejectedListsAll(reported, tasks, sid, id);
      assert (id in multiset(rejected) <==> id in rejected) && (id in multiset(ids) <==> id in ids);
    }
  }

  lemma NotifyAt(s: State, location: string, reported: seq<RunningTask>, sid: nat)
    requires Inv(s) && HeartbeatOf(s, sid, location)
    ensures var cleared := Without(s, GoneZombies(s.tasks, sid, GrantIds(reported)));
      DoNotify(s, location, reported) ==
        (cleared.(book := s.book[location := Accepted(reported, cleared.tasks, sid)]),
         Expired(GrantIds(Rejected(reported, cleared.tasks, sid))))
  {
    hide Without, GoneZombies, Accepted, Rejected;
    var k := IndexOf(s.servants, location);
    var i :| 0 <= i < |s.servants| && s.servants[i].sid == sid && s.servants[i].info.observed == location;
    assert i == k;
  }

  lemma ClearingKeepsPermits(s: State, sid: nat, listed: seq<nat>)
    ensures var cleared := Without(s, GoneZombies(s.tasks, sid, listed));
      forall id :: Permitted(cleared.tasks, sid, id) <==> Permitted(s.tasks, sid, id)
  {
  }

  lemma {:induction false} SamePermits(reported: seq<RunningTask>, a: map<nat, Grant>, b: map<nat, Grant>, sid: nat)
    requires forall id :: Permitted(a, sid, id) <==> Permitted(b, sid, id)
    ensures Rejected(reported, a, sid) == Rejected(reported, b, sid)
    ensures Accepted(reported, a, sid) == Accepted(reported, b, sid)
  {
    if reported != [] {
      SamePermits(reported[..|reported| - 1], a, b, sid);
    }
  }

  /** The heartbeat request: register under the observed address, then reconcile under the reported one. */
  function HeartBeat(s: State, info: ServantInfo, expires: int, reported: seq<RunningTask>): (State, Reply) {
    Step(Step(s, KeepServant(info, expires)).0, Notify(info.reported, reported))
  }

  /** A servant that reports the address it is seen at is always found, so its live grants are never
      returned as expired.  Behind address translation, unless another servant is registered at the address
      it reports, everything it runs is returned as expired. */
  lemma HeartBeatFindsServant(s: State, info: ServantInfo, expires: int, reported: seq<RunningTask>)
    requires Inv(s)
    ensures var t := Step(s, KeepServant(info, expires)).0;
      && Inv(t)
      && (info.observed == info.reported ==> exists sid :: HeartbeatOf(t, sid, info.reported))
      && ((forall sid :: !HeartbeatOf(t, sid, info.reported)) ==>
            HeartBeat(s, info, expires, reported) == (t, Expired(GrantIds(reported))))
  {
    KeepServantKeepsInv(s, info, expires);
    var t := DoKeepServant(s, info, expires);
    var k := IndexOf(s.servants, info.observed);
    assert HeartbeatOf(t, t.servants[k].sid, info.observed);
    var i := IndexOf(t.servants, info.reported);
    if i < |t.servants| {
      assert HeartbeatOf(t, t.servants[i].sid, info.reported);
    }
  }
  /** With some servant registered at the reported address, its own or another's, exactly that servant's
      unreported zombies go and exactly its book entry is rewritten.  When the reporting servant is seen at
      another address, its own grants and its own entry are left alone. */
  lemma HeartBeatExactly(s: State, info: ServantInfo, expires: int, reported: seq<RunningTask>, sid: nat)
    requires Inv(s) && HeartbeatOf(Step(s, KeepServant(info, expires)).0, sid, info.reported)
    ensures var t := Step(s, KeepServant(info, expires)).0;
      var (u, reply) := HeartBeat(s, info, expires, reported);
      && u.tasks == t.tasks - GoneZombies(t.tasks, sid, GrantIds(reported))
      && u.book == t.book[info.reported := Filter(reported, (r: RunningTask) => Permitted(t.tasks, sid, r.grantId))]
      && reply == Expired(GrantIds(Filter(reported, (r: RunningTask) => !Permitted(t.tasks, sid, r.grantId))))
      && (info.observed != info.reported ==> forall own :: HeartbeatOf(t, own, info.observed) ==>
           && own != sid
           && (forall id <- t.tasks :: t.tasks[id].sid == own ==> id in u.tasks && u.tasks[id] == t.tasks[id])
           && (info.observed in t.book ==> info.observed in u.book && u.book[info.observed] == t.book[info.observed]))
  {
    hide Inv, DoNotify, DoKeepServant, Permitted;
    var t := Step(s, KeepServant(info, expires)).0;
    KeepServantKeepsInv(s, info, expires);
    HeartbeatReconciles(t, info.reported, reported, sid);
    NotifyAt(t, info.reported, reported, sid);
    if info.observed != info.reported {
      forall own | HeartbeatOf(t, own, info.observed) ensures own != sid {
        OneAddress(t, own, sid, info.observed, info.reported);
      }
    }
  }

  lemma OneAddress(t: State, a: nat, b: nat, here: string, there: string)
    requires Inv(t) && HeartbeatOf(t, a, here) && HeartbeatOf(t, b, there) && here != there
    ensures a != b
  {
  }
}
