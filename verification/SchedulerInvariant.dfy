/** What every operation of the scheduler keeps, and what that gives over whole runs. */
module SchedulerInvariant {
  import opened Seqs
  import opened SchedulerTypes
  import opened SchedulerSpec

  // ---------------------------------------------------------------------------------------------
  // Freeing
  // ---------------------------------------------------------------------------------------------

  lemma OwnedWithout(tasks: map<nat, Grant>, dead: set<nat>, sid: nat)
    ensures Owned(tasks - dead, sid) == Owned(tasks, sid) - dead
    ensures |Owned(tasks - dead, sid)| == |Owned(tasks, sid)| - |Owned(tasks, sid) * dead|
  {
    var o := Owned(tasks, sid);
    assert o - dead == o - (o * dead);
    SubsetCard(o * dead, o);
  }

  lemma OwnedErased(tasks: map<nat, Grant>, id: nat, sid: nat)
    requires id in tasks
    ensures |Owned(tasks - {id}, sid)| == |Owned(tasks, sid)| - if tasks[id].sid == sid then 1 else 0
  {
    assert Owned(tasks, sid) * {id} == if tasks[id].sid == sid then {id} else {};
    OwnedWithout(tasks, {id}, sid);
  }

  lemma OwnedNone(tasks: map<nat, Grant>, sid: nat)
    requires forall id <- tasks :: tasks[id].sid != sid
    ensures |Owned(tasks, sid)| == 0
  {
  }

  lemma OwnedRewritten(a: map<nat, Grant>, b: map<nat, Grant>)
    requires a.Keys == b.Keys && forall id <- a :: a[id].sid == b[id].sid
    ensures forall sid :: Owned(a, sid) == Owned(b, sid)
  {
  }

  /** Removing any set of grants gives back exactly their slots, and no counter passes below zero. */
  lemma WithoutConserves(s: State, dead: set<nat>)
    requires SlotsConserved(s)
    ensures SlotsConserved(Without(s, dead))
    ensures forall i :: 0 <= i < |s.servants| ==>
      s.servants[i].running >= |Owned(s.tasks, s.servants[i].sid) * dead|
      && Without(s, dead).servants[i].running == s.servants[i].running - |Owned(s.tasks, s.servants[i].sid) * dead|
  {
    var r := Without(s, dead);
    forall i | 0 <= i < |s.servants|
      ensures r.servants[i].running == |Owned(r.tasks, r.servants[i].sid)|
      ensures s.servants[i].running >= |Owned(s.tasks, s.servants[i].sid) * dead|
    {
      OwnedWithout(s.tasks, dead, s.servants[i].sid);
    }
  }

  lemma WithoutKeepsInv(s: State, dead: set<nat>)
    requires Inv(s)
    ensures Inv(Without(s, dead))
  {
    WithoutConserves(s, dead);
    SameServants(s.servants, Without(s, dead).servants);
  }

  /** Replacing counters only changes neither the identities nor the locations. */
  lemma SameServants(a: seq<Slot>, b: seq<Slot>)
    requires |a| == |b|
    requires forall i :: 0 <= i < |a| ==> a[i].sid == b[i].sid && a[i].info.observed == b[i].info.observed
    ensures Sids(a) == Sids(b) && Locations(a) == Locations(b)
  {
    forall sid ensures sid in Sids(a) <==> sid in Sids(b) {
      if sid in Sids(a) { var i :| 0 <= i < |a| && a[i].sid == sid; assert b[i] in b; }
      if sid in Sids(b) { var i :| 0 <= i < |b| && b[i].sid == sid; assert a[i] in a; }
    }
    forall l ensures l in Locations(a) <==> l in Locations(b) {
      if l in Locations(a) { var i :| 0 <= i < |a| && a[i].info.observed == l; assert b[i] in b; }
      if l in Locations(b) { var i :| 0 <= i < |b| && b[i].info.observed == l; assert a[i] in a; }
    }
  }

  lemma DropIsWithout(s: State, id: nat)
    requires id in s.tasks
    ensures Drop(s, id) == Without(s, {id})
  {
    hide Owned;
    forall i | 0 <= i < |s.servants|
      ensures Drop(s, id).servants[i] == Without(s, {id}).servants[i]
    {
      OwnedMeetsOne(s.tasks, s.servants[i].sid, id);
    }
    assert Drop(s, id).servants == Without(s, {id}).servants;
  }

  lemma OwnedMeetsOne(tasks: map<nat, Grant>, sid: nat, id: nat)
    requires id in tasks
    ensures |Owned(tasks, sid) * {id}| == if tasks[id].sid == sid then 1 else 0
  {
    assert Owned(tasks, sid) * {id} == if tasks[id].sid == sid then {id} else {};
  }

  lemma TakenTwice(o: set<nat>, a: set<nat>, b: set<nat>)
    requires a !! b
    ensures |o * (a + b)| == |o * a| + |(o - a) * b|
  {
    assert o * (a + b) == (o * a) + (o - a) * b;
    assert (o * a) !! ((o - a) * b);
  }

  lemma MinusTwice(tasks: map<nat, Grant>, a: set<nat>, b: set<nat>)
    ensures (tasks - a) - b == tasks - (a + b)
  {
  }

  lemma CountWithoutTwice(tasks: map<nat, Grant>, sid: nat, a: set<nat>, b: set<nat>, running: uint64)
    requires a !! b && running == |Owned(tasks, sid)|
    ensures Wrap64(Wrap64(running - |Owned(tasks, sid) * a|) - |Owned(tasks - a, sid) * b|)
         == Wrap64(running - |Owned(tasks, sid) * (a + b)|)
  {
    var o := Owned(tasks, sid);
    OwnedWithout(tasks, a, sid);
    TakenTwice(o, a, b);
    SubsetCard(o * (a + b), o);
  }

  lemma WithoutAt(s: State, dead: set<nat>, i: nat)
    requires i < |s.servants|
    ensures |Without(s, dead).servants| == |s.servants| && Without(s, dead).tasks == s.tasks - dead
    ensures Without(s, dead).servants[i] ==
      s.servants[i].(running := Wrap64(s.servants[i].running - |Owned(s.tasks, s.servants[i].sid) * dead|))
  {
  }

  lemma SlotWithoutTwice(s: State, a: set<nat>, b: set<nat>, i: nat)
    requires a !! b && i < |s.servants|
    requires s.servants[i].running == |Owned(s.tasks, s.servants[i].sid)|
    ensures i < |Without(Without(s, a), b).servants| && i < |Without(s, a + b).servants|
    ensures Without(Without(s, a), b).servants[i] == Without(s, a + b).servants[i]
  {
    CountWithoutTwice(s.tasks, s.servants[i].sid, a, b, s.servants[i].running);
    WithoutAt(s, a, i);
    WithoutAt(s, a + b, i);
    WithoutAt(Without(s, a), b, i);
  }

  /** Freeing two disjoint sets one after the other is freeing them together. */
  lemma WithoutTwice(s: State, a: set<nat>, b: set<nat>)
    requires SlotsConserved(s) && a !! b
    ensures Without(Without(s, a), b) == Without(s, a + b)
  {
    forall i | 0 <= i < |s.servants|
      ensures Without(Without(s, a), b).servants[i] == Without(s, a + b).servants[i]
    {
      SlotWithoutTwice(s, a, b, i);
    }
    MinusTwice(s.tasks, a, b);
    assert Without(Without(s, a), b).servants == Without(s, a + b).servants;
  }

  function Ids(ids: seq<nat>): set<nat> {
    set id <- ids
  }

  lemma HeadAndRest(ids: seq<nat>)
    requires ids != [] && Distinct(ids)
    ensures Ids(ids) == {ids[0]} + Ids(ids[1..]) && ids[0] !in Ids(ids[1..])
    ensures Distinct(ids[1..]) && forall id <- ids[1..] :: id in ids && id != ids[0]
  {
    assert ids == [ids[0]] + ids[1..];
  }

  /** A batch of distinct ids that are all in the table is freed to its end: the early return is not met. */
  lemma {:induction false} BatchIsWholeSet(s: State, ids: seq<nat>)
    requires SlotsConserved(s)
    requires Distinct(ids) && forall id <- ids :: id in s.tasks
    ensures FreeBatch(s, ids) == Without(s, Ids(ids))
    decreases |ids|
  {
    if ids == [] {
      assert forall i :: 0 <= i < |s.servants| ==> Owned(s.tasks, s.servants[i].sid) * Ids([]) == {};
      assert s.tasks - Ids([]) == s.tasks;
      assert Without(s, Ids([])).servants == s.servants;
    } else {
      DropIsWithout(s, ids[0]);
      WithoutConserves(s, {ids[0]});
      HeadAndRest(ids);
      BatchIsWholeSet(Drop(s, ids[0]), ids[1..]);
      WithoutTwice(s, {ids[0]}, Ids(ids[1..]));
    }
  }

  /** A single free is the removal of that id, and changes nothing when the id is unknown. */
  lemma FreeOne(s: State, id: nat)
    requires Inv(s)
    ensures Inv(FreeBatch(s, [id]))
    ensures FreeBatch(s, [id]) == if id in s.tasks then Without(s, {id}) else s
  {
    if id in s.tasks {
      BatchIsWholeSet(s, [id]);
      assert Ids([id]) == {id};
      WithoutKeepsInv(s, {id});
    }
  }

  // ---------------------------------------------------------------------------------------------
  // Each operation
  // ---------------------------------------------------------------------------------------------

  /** The servant a grant is given to: registered, with the compiler, with a slot to spare. */
  lemma PickedIsFree(s: State, task: TaskInfo)
    requires Free(Eligible(s.servants, task), s.minMemory) != []
    ensures var p := Pick(Free(Eligible(s.servants, task), s.minMemory), task.requesterIp);
      p in s.servants && CanServe(p, task) && IsFree(p, s.minMemory)
  {
  }

  lemma FreeHasRoom(s: Slot, minMemory: uint64)
    requires IsFree(s, minMemory)
    ensures s.running < s.info.concurrency && !ShortOfMemory(s.info, minMemory)
  {
  }

  lemma OwnedPlaced(tasks: map<nat, Grant>, id: nat, g: Grant, sid: nat)
    requires id !in tasks
    ensures |Owned(tasks[id := g], sid)| == |Owned(tasks, sid)| + if g.sid == sid then 1 else 0
  {
    var o := Owned(tasks, sid);
    assert Owned(tasks[id := g], sid) == if g.sid == sid then o + {id} else o;
  }

  lemma PlaceKeepsInv(s: State, g: Grant, k: nat)
    requires Inv(s)
    requires k < |s.servants| && s.servants[k].sid == g.sid && s.servants[k].running < TWO_64 - 1
    ensures Inv(Place(s, g))
  {
    hide Owned, SlotsConserved;
    PlaceKeepsSlots(s, g, k);
    SameServants(s.servants, Place(s, g).servants);
    assert g.sid in Sids(s.servants) by { assert s.servants[k] in s.servants; }
  }

  lemma PlaceKeepsSlots(s: State, g: Grant, k: nat)
    requires SlotsConserved(s) && s.nextId !in s.tasks
    requires k < |s.servants| && s.servants[k].sid == g.sid && s.servants[k].running < TWO_64 - 1
    ensures SlotsConserved(Place(s, g))
  {
    hide Owned;
    var r := Place(s, g);
    forall i | 0 <= i < |s.servants|
      ensures r.servants[i].running == |Owned(r.tasks, r.servants[i].sid)|
    {
      OwnedPlaced(s.tasks, s.nextId, g, s.servants[i].sid);
    }
  }

  lemma StartKeepsInv(s: State, task: TaskInfo, expires: int, prefetch: bool)
    requires Inv(s)
    ensures Inv(DoStart(s, task, expires, prefetch).0)
  {
    var free := Free(Eligible(s.servants, task), s.minMemory);
    if free != [] {
      PickedIsFree(s, task);
      var p := Pick(free, task.requesterIp);
      FreeHasRoom(p, s.minMemory);
      var k :| 0 <= k < |s.servants| && s.servants[k] == p;
      PlaceKeepsInv(s, Grant(p.sid, task, expires, prefetch, false), k);
    }
  }

  lemma KeepTaskKeepsInv(s: State, id: nat, expires: int)
    requires Inv(s)
    ensures Inv(DoKeepTask(s, id, expires).0)
  {
    var r := DoKeepTask(s, id, expires).0;
    forall i | 0 <= i < |s.servants|
      ensures Owned(r.tasks, s.servants[i].sid) == Owned(s.tasks, s.servants[i].sid)
    {
    }
  }

  lemma KeepServantKeepsInv(s: State, info: ServantInfo, expires: int)
    requires Inv(s)
    ensures Inv(DoKeepServant(s, info, expires))
  {
    var r := DoKeepServant(s, info, expires);
    var k := IndexOf(s.servants, info.observed);
    if k < |s.servants| {
      SameServants(s.servants, r.servants);
    } else {
      assert Owned(s.tasks, s.nextSid) == {};
      assert Sids(s.servants) <= Sids(r.servants) by {
        assert forall x <- s.servants :: x in r.servants;
      }
      assert Locations(s.servants) <= Locations(r.servants) by {
        assert forall x <- s.servants :: x in r.servants;
      }
    }
  }

  lemma RecordKeepsInv(s: State, k: nat, running: seq<RunningTask>)
    requires Inv(s) && k < |s.servants|
    ensures Inv(s.(book := s.book[s.servants[k].info.observed := running]))
  {
    hide Owned;
    assert s.servants[k] in s.servants;
  }

  lemma NotifyKeepsInv(s: State, location: string, reported: seq<RunningTask>)
    requires Inv(s)
    ensures Inv(DoNotify(s, location, reported).0)
  {
    var k := IndexOf(s.servants, location);
    if k < |s.servants| {
      var dead := GoneZombies(s.tasks, s.servants[k].sid, GrantIds(reported));
      var cleared := Without(s, dead);
      assert |cleared.servants| == |s.servants| && cleared.servants[k].info.observed == location && cleared.book == s.book;
      WithoutKeepsInv(s, dead);
      RecordKeepsInv(cleared, k, Accepted(reported, cleared.tasks, s.servants[k].sid));
    }
  }

  lemma {:induction false} LivingDistinct(servants: seq<Slot>, now: int)
    requires DistinctServants(servants)
    ensures DistinctServants(Living(servants, now))
  {
    if servants != [] {
      var front := servants[..|servants| - 1];
      LivingDistinct(front, now);
      assert forall i :: 0 <= i < |Living(front, now)| ==> Living(front, now)[i] in front;
    }
  }

  /** Freeing the tasks of evicted servants touches no servant that is still listed. */
  lemma OrphansCostNothing(s: State)
    ensures Without(s, Orphans(s)) == s.(tasks := s.tasks - Orphans(s))
  {
    var r := Without(s, Orphans(s));
    forall i | 0 <= i < |s.servants| ensures r.servants[i] == s.servants[i] {
      assert s.servants[i] in s.servants;
      assert Owned(s.tasks, s.servants[i].sid) * Orphans(s) == {};
    }
    assert r.servants == s.servants;
  }

  lemma EvictConserves(s: State, now: int)
    requires SlotsConserved(s)
    ensures SlotsConserved(Evict(s, now))
  {
    hide Owned;
    var living := Living(s.servants, now);
    forall i | 0 <= i < |living| ensures living[i].running == |Owned(s.tasks, living[i].sid)| {
      assert living[i] in s.servants;
    }
  }

  lemma TickInParts(s: State, now: int)
    ensures var t := Evict(s, now);
      DoTick(s, now) == Expire(t.(tasks := t.tasks - Orphans(t)), now)
  {
  }

  lemma TickKeepsInv(s: State, now: int)
    requires Inv(s)
    ensures Inv(DoTick(s, now))
  {
    hide SlotsConserved, Registered, DistinctServants, Numbered, Living;
    LivingDistinct(s.servants, now);
    TickConserves(s, now);
    TickRegisters(s, now);
    TickKeepsNumbers(s, now);
  }

  lemma TickKeepsNumbers(s: State, now: int)
    requires Numbered(s)
    ensures Numbered(DoTick(s, now))
  {
    hide Living;
    var t := DoTick(s, now);
    LivingAmong(s.servants, now);
    forall i | 0 <= i < |t.servants| ensures t.servants[i].sid < t.nextSid {
      assert t.servants[i] in s.servants;
    }
  }

  lemma LivingAmong(servants: seq<Slot>, now: int)
    ensures forall x <- Living(servants, now) :: x in servants
    ensures forall x <- servants :: x.expires >= now ==> x in Living(servants, now)
  {
  }

  lemma TickConserves(s: State, now: int)
    requires SlotsConserved(s)
    ensures SlotsConserved(DoTick(s, now))
  {
    hide Living;
    var r := DoTick(s, now);
    LivingAmong(s.servants, now);
    forall i | 0 <= i < |r.servants| ensures r.servants[i].running == |Owned(r.tasks, r.servants[i].sid)| {
      assert r.servants[i] in s.servants && r.servants[i].sid in Sids(r.servants);
      assert Owned(r.tasks, r.servants[i].sid) == Owned(s.tasks, r.servants[i].sid);
    }
  }

  lemma TickRegisters(s: State, now: int)
    requires Registered(s) && DistinctServants(s.servants)
    ensures Registered(DoTick(s, now))
  {
    hide Living;
    var r := DoTick(s, now);
    LivingAmong(s.servants, now);
    forall l <- r.book.Keys ensures l in Locations(r.servants) {
      var i :| 0 <= i < |s.servants| && s.servants[i].info.observed == l;
      assert s.servants[i] in s.servants;
    }
  }

  lemma StepKeepsInv(s: State, e: Event)
    requires Inv(s)
    ensures Inv(Step(s, e).0)
  {
    match e
    case Start(task, expires, prefetch) => StartKeepsInv(s, task, expires, prefetch);
    case KeepTask(id, expires) => KeepTaskKeepsInv(s, id, expires);
    case FreeTask(id) => FreeOne(s, id);
    case KeepServant(info, expires) => KeepServantKeepsInv(s, info, expires);
    case Notify(location, reported) => NotifyKeepsInv(s, location, reported);
    case Tick(now) => TickKeepsInv(s, now);
  }

  lemma {:induction false} RunKeepsInv(s: State, es: seq<Event>)
    requires Inv(s)
    ensures Inv(Run(s, es))
  {
    if es != [] {
      RunKeepsInv(s, es[..|es| - 1]);
      StepKeepsInv(Run(s, es[..|es| - 1]), es[|es| - 1]);
    }
  }

  /** Slot conservation over every run from the empty scheduler. */
  lemma SlotConservation(minMemory: uint64, es: seq<Event>)
    ensures Inv(Run(Init(minMemory), es))
  {
    RunKeepsInv(Init(minMemory), es);
  }
}
