/** The scheduler as the program keeps it: servant objects shared between the servant list and the tasks
    given to them, updated in place.  Every method is proved to be one step of `SchedulerSpec`. */
module Scheduler {
  import opened Seqs
  import opened SchedulerTypes
  import Spec = SchedulerSpec
  import SchedulerAdmission
  import SchedulerInvariant

  class Servant {
    const sid: nat
    var info: ServantInfo
    var discovered: int
    var expires: int
    var running: uint64
    var assignedTasks: nat

    constructor (sid: nat, info: ServantInfo, now: int, expires: int)
      ensures this.sid == sid && this.info == info && this.discovered == now && this.expires == expires
      ensures running == 0 && assignedTasks == 0
    {
      this.sid, this.info, discovered, this.expires := sid, info, now, expires;
      running, assignedTasks := 0, 0;
    }
  }

  datatype Task = Task(id: nat, info: TaskInfo, servant: Servant, started: int, expires: int, prefetch: bool, zombie: bool)

  function SlotOf(s: Servant): Spec.Slot
    reads s
  {
    Spec.Slot(s.sid, s.info, s.expires, s.running)
  }

  function Slots(servants: seq<Servant>): (slots: seq<Spec.Slot>)
    reads servants
    ensures |slots| == |servants|
    ensures forall i :: 0 <= i < |slots| ==> slots[i] == SlotOf(servants[i])
  {
    seq(|servants|, i requires 0 <= i < |servants| reads servants => SlotOf(servants[i]))
  }

  function GrantOf(t: Task): Spec.Grant {
    Spec.Grant(t.servant.sid, t.info, t.expires, t.prefetch, t.zombie)
  }

  function Grants(tasks: map<nat, Task>): map<nat, Spec.Grant> {
    map id | id in tasks :: GrantOf(tasks[id])
  }

  function Gathered(tasks: map<string, seq<RunningTask>>, order: seq<string>): seq<RunningTask>
    requires forall l <- order :: l in tasks
  {
    if order == [] then [] else tasks[order[0]] + Gathered(tasks, order[1..])
  }

  /** The running tasks each servant last reported, by its location. */
  class RunningTaskBookkeeper {
    var tasks: map<string, seq<RunningTask>>

    constructor ()
      ensures tasks == map[]
    {
      tasks := map[];
    }

    method SetRunningTask(location: string, running: seq<RunningTask>)
      modifies this
      ensures tasks == old(tasks)[location := running]
    {
      tasks := tasks - {location};
      tasks := tasks[location := running];
    }

    method DelServant(location: string)
      modifies this
      ensures tasks == old(tasks) - {location}
    {
      tasks := tasks - {location};
    }

    /** The lists of the servants one after another, each once, in an order that the map leaves open. */
    method GetRunningTasks() returns (result: seq<RunningTask>, ghost order: seq<string>)
      ensures Distinct(order) && forall l :: l in order <==> l in tasks
      ensures result == Gathered(tasks, order)
      ensures forall t :: t in result <==> exists l :: l in tasks && t in tasks[l]
    {
      result, order := [], [];
      var todo := tasks.Keys;
      while todo != {}
        invariant todo <= tasks.Keys && Distinct(order)
        invariant forall l :: l in order <==> l in tasks && l !in todo
        invariant result == Gathered(tasks, order)
        invariant forall t :: t in result <==> exists l :: l in tasks && l !in todo && t in tasks[l]
        decreases |todo|
      {
        var l :| l in todo;
        todo := todo - {l};
        result := tasks[l] + result;
        order := [l] + order;
      }
    }
  }

  // ---------------------------------------------------------------------------------------------
  // Scans over a list of servants
  // ---------------------------------------------------------------------------------------------

  /** The first servant of least utilisation among those passing the filter; the first of all when none
      passes; null for an empty list. */
  method PickUpServant(servants: seq<Servant>, filter: Spec.Slot -> bool) returns (result: Servant?)
    requires forall s <- Slots(servants) :: s.info.concurrency > 0
    ensures result == null <==> servants == []
    ensures servants != [] && (forall s <- Slots(servants) :: !filter(s)) ==> result == servants[0]
    ensures (exists s :: s in Slots(servants) && filter(s)) ==>
      exists k :: 0 <= k < |servants| && result == servants[k] && Spec.Least(Slots(servants), filter, k)
  {
    if servants == [] {
      return null;
    }
    result := servants[0];
    var min: Option<int> := None;   // None stands for the largest double
    ghost var k, slots := 0, Slots(servants);
    for i := 0 to |servants|
      invariant k < |servants| && result == servants[k]
      invariant min == None ==> k == 0 && forall j :: 0 <= j < i ==> !filter(slots[j])
      invariant min.Some? ==>
        && k < i && filter(slots[k]) && min.value == Spec.Utilization(slots[k])
        && (forall j :: 0 <= j < i && filter(slots[j]) ==> min.value <= Spec.Utilization(slots[j]))
        && (forall j :: 0 <= j < k && filter(slots[j]) ==> min.value < Spec.Utilization(slots[j]))
    {
      var servant := servants[i];
      assert slots[i] == SlotOf(servant) && slots[i] in slots;
      if filter(SlotOf(servant)) {
        var utilization := servant.running / servant.info.concurrency;
        if min == None || utilization < min.value {
          min, result, k := Some(utilization), servant, i;
        }
      }
    }
    assert min.Some? ==> Spec.Least(slots, filter, k);
  }

  /** With every servant below its concurrency the scan is a search for the first that passes. */
  method FirstOf(servants: seq<Servant>, filter: Spec.Slot -> bool) returns (result: Servant?)
    requires forall s <- Slots(servants) :: s.running < s.info.concurrency
    ensures result == null <==> servants == []
    ensures servants != [] ==>
      var k := FirstIndex(Slots(servants), filter);
      result == if k < |servants| then servants[k] else servants[0]
  {
    result := PickUpServant(servants, filter);
    ghost var slots := Slots(servants);
    ghost var f := FirstIndex(slots, filter);
    if f < |servants| {
      assert slots[f] in slots && filter(slots[f]);
      ghost var k :| 0 <= k < |servants| && result == servants[k] && Spec.Least(slots, filter, k);
      Spec.LeastIsFirst(slots, filter, k);
    }
  }

  /** A servant on the requester's own host is only used when there is no other.  The two conditions checked
      there hold: it exists, and it has a slot to offer. */
  method PickUpFreeServant(free: seq<Servant>, ip: string, ghost minMemory: uint64) returns (picked: Servant?)
    requires free != []
    requires forall s <- Slots(free) :: Spec.IsFree(s, minMemory)
    ensures picked != null && picked in free
    ensures SlotOf(picked) == Spec.Pick(Slots(free), ip)
    ensures Spec.AvailableTasks(picked.info, picked.running, minMemory) != 0
    ensures picked.running < picked.info.concurrency
  {
    hide Spec.Others, Spec.OwnHost, Spec.Pick, FirstIndex, Spec.IsFree, Spec.AvailableTasks;
    FreeHasSlots(free, minMemory);
    var self, rest := SetOwnAside(free, ip);
    picked := FirstOf(rest, Spec.DedicatedIdle);
    if picked == null {
      picked := FirstOf(rest, Spec.Anyone);
    }
    if picked == null {
      picked := self;
    }
    PickedFrom(Slots(free), ip);
  }

  lemma FreeHasSlots(free: seq<Servant>, minMemory: uint64)
    requires forall s <- Slots(free) :: Spec.IsFree(s, minMemory)
    ensures forall s <- Slots(free) :: s.running < s.info.concurrency
    ensures forall s <- free ::
      Spec.AvailableTasks(s.info, s.running, minMemory) != 0 && s.running < s.info.concurrency
  {
    forall s <- free
      ensures Spec.AvailableTasks(s.info, s.running, minMemory) != 0 && s.running < s.info.concurrency
    {
      InSlots(free, s);
    }
  }

  lemma PickedFrom(free: seq<Spec.Slot>, ip: string)
    requires free != []
    ensures var rest := Spec.Others(free, ip);
      var d := FirstIndex(rest, Spec.DedicatedIdle);
      Spec.Pick(free, ip) == if rest == [] then free[0] else if d < |rest| then rest[d] else rest[0]
  {
  }

  /** Takes the first servant on the requester's own host, if any, off the list. */
  method SetOwnAside(free: seq<Servant>, ip: string) returns (self: Servant?, rest: seq<Servant>)
    requires free != []
    ensures Slots(rest) == Spec.Others(Slots(free), ip) && forall s <- rest :: s in free
    ensures forall s <- Slots(rest) :: s in Slots(free)
    ensures rest == [] ==> self == free[0]
  {
    hide Spec.SameHost, Spec.OwnHost, Slots;
    self, rest := null, free;
    var i := 0;
    while i < |free| && !Spec.SameHost(SlotOf(free[i]), ip)
      invariant i <= Spec.OwnHost(Slots(free), ip)
    {
      i := i + 1;
    }
    if i < |free| {
      self := free[i];
      rest := free[..i] + free[i + 1..];
      SlotsAround(free, i);
    }
  }

  lemma SlotsAround(servants: seq<Servant>, i: nat)
    requires i < |servants|
    ensures var (all, rest) := (Slots(servants), Slots(servants[..i] + servants[i + 1..]));
      rest == all[..i] + all[i + 1..] && forall s <- rest :: s in all
  {
  }

  // ---------------------------------------------------------------------------------------------
  // The dispatcher
  // ---------------------------------------------------------------------------------------------

  class TaskDispatcher {
    const minMemory: uint64
    const book: RunningTaskBookkeeper
    var servants: seq<Servant>
    var tasks: map<nat, Task>
    var nextId: nat
    var nextSid: nat            // stands for the address of the next servant object
    ghost var pool: set<Servant>  // every servant object reachable from the list or from a task

    ghost function View(): Spec.State
      reads this, servants, book
    {
      Spec.State(minMemory, Slots(servants), Grants(tasks), nextId, nextSid, book.tasks)
    }

    /** What holds even between the two halves of an expiry, when tasks of a removed servant remain. */
    ghost predicate Linked()
      reads this, pool
    {
      && (forall s <- servants :: s in pool)
      && (forall id <- tasks :: tasks[id].id == id && tasks[id].servant in pool)
      && (forall a, b :: a in pool && b in pool && a != b ==> a.sid != b.sid)
      && (forall s <- pool :: s.sid < nextSid && s.running == |Spec.Owned(Grants(tasks), s.sid)|)
    }

    ghost predicate Valid()
      reads this, pool, servants, book
    {
      Linked() && Spec.Inv(View())
    }

    lemma ListConsistent()
      requires Valid()
      ensures Distinct(servants) && Spec.SlotsConserved(View())
    {
      forall i, j | 0 <= i < j < |servants| ensures servants[i] != servants[j] {
        assert Slots(servants)[i].sid != Slots(servants)[j].sid;
      }
    }

    constructor (minMemory: uint64)
      ensures Valid() && View() == Spec.Init(minMemory)
      ensures fresh(pool) && fresh(book)
    {
      this.minMemory := minMemory;
      book := new RunningTaskBookkeeper();
      servants, tasks, nextId, nextSid, pool := [], map[], 0, 0, {};
      new;
      assert Slots([]) == [];
      SchedulerInvariant.SlotConservation(minMemory, []);
    }

    /** One turn of the freeing loop: the task's servant, found through the task, loses one slot. */
    method Erase(id: nat)
      requires Linked() && id in tasks
      modifies this`tasks, pool`running
      ensures Linked() && tasks == old(tasks) - {id}
      ensures View() == Spec.Drop(old(View()), id)
    {
      hide Spec.Owned;
      ghost var before := Grants(tasks);
      var servant := tasks[id].servant;
      forall s <- pool ensures |Spec.Owned(before - {id}, s.sid)| == s.running - if s == servant then 1 else 0 {
        SchedulerInvariant.OwnedErased(before, id, s.sid);
      }
      servant.running := Wrap64(servant.running - 1);
      tasks := tasks - {id};
      assert Grants(tasks) == before - {id};
      assert Slots(servants) == Spec.AddRunning(old(Slots(servants)), servant.sid, -1);
    }

    method UnsafeFreeTask(ids: seq<nat>)
      requires Linked()
      modifies this`tasks, pool`running
      ensures Linked() && tasks.Keys <= old(tasks).Keys
      ensures View() == Spec.FreeBatch(old(View()), ids)
    {
      for k := 0 to |ids|
        invariant Linked() && tasks.Keys <= old(tasks).Keys
        invariant Spec.FreeBatch(View(), ids[k..]) == Spec.FreeBatch(old(View()), ids)
      {
        if ids[k] !in tasks {
          return;
        }
        assert ids[k..][1..] == ids[k + 1..];
        Erase(ids[k]);
      }
    }

    method FreeTask(id: nat)
      requires Valid()
      modifies this`tasks, pool`running
      ensures Valid()
      ensures View() == Spec.FreeBatch(old(View()), [id])
    {
      UnsafeFreeTask([id]);
      SchedulerInvariant.FreeOne(old(View()), id);
    }

    method KeepTaskAlive(id: nat, expires: int) returns (ok: bool)
      requires Valid()
      modifies this`tasks
      ensures Valid()
      ensures (View(), Spec.Alive(ok)) == Spec.DoKeepTask(old(View()), id, expires)
    {
      hide Spec.Inv, Spec.Owned, Grants, Spec.DoKeepTask;
      KeepTaskInView(id, expires);
      if id !in tasks {
        ok := false;
      } else if tasks[id].zombie {
        ok := false;
      } else {
        ghost var before := Grants(tasks);
        SchedulerInvariant.KeepTaskKeepsInv(View(), id, expires);
        tasks := tasks[id := tasks[id].(expires := expires)];
        SchedulerInvariant.OwnedRewritten(before, Grants(tasks));
        ok := true;
      }
    }

    /** Moving a task's deadline moves its grant's. */
    lemma KeepTaskInView(id: nat, expires: int)
      ensures id !in tasks || tasks[id].zombie ==>
        Spec.DoKeepTask(View(), id, expires) == (View(), Spec.Alive(false))
      ensures id in tasks && !tasks[id].zombie ==>
        var after := Grants(tasks[id := tasks[id].(expires := expires)]);
        && Spec.DoKeepTask(View(), id, expires) == (View().(tasks := after), Spec.Alive(true))
        && after.Keys == Grants(tasks).Keys && forall other <- after :: after[other].sid == Grants(tasks)[other].sid
    {
      if id in tasks {
        var grants := Grants(tasks);
        assert Grants(tasks[id := tasks[id].(expires := expires)]) == grants[id := grants[id].(expires := expires)];
      }
    }

    method FindServant(location: string) returns (k: nat)
      ensures k == Spec.IndexOf(View().servants, location) && |View().servants| == |servants|
    {
      k := 0;
      while k < |servants| && servants[k].info.observed != location
        invariant k <= Spec.IndexOf(Slots(servants), location)
      {
        assert Slots(servants)[k] == SlotOf(servants[k]);
        k := k + 1;
      }
    }

    method Refresh(servant: Servant, ghost k: nat, info: ServantInfo, expires: int)
      requires Linked() && Distinct(servants)
      requires k == Spec.IndexOf(View().servants, info.observed) && k < |servants| && servants[k] == servant
      modifies servant`info, servant`expires
      ensures Linked()
      ensures View() == Spec.DoKeepServant(old(View()), info, expires)
    {
      hide Spec.Owned;
      servant.info := info;
      servant.expires := expires;
      assert Slots(servants) == old(Slots(servants))[k := SlotOf(servant)];
    }

    method Register(info: ServantInfo, now: int, expires: int)
      requires Linked()
      requires Spec.IndexOf(View().servants, info.observed) == |servants|
      modifies this`servants, this`nextSid, this`pool
      ensures Linked() && fresh(pool - old(pool))
      ensures View() == Spec.DoKeepServant(old(View()), info, expires)
    {
      hide Spec.Owned;
      SchedulerInvariant.OwnedNone(Grants(tasks), nextSid);
      var added := new Servant(nextSid, info, now, expires);
      servants := servants + [added];
      nextSid := nextSid + 1;
      pool := pool + {added};
      assert Slots(servants) == old(Slots(servants)) + [SlotOf(added)];
    }

    method KeepServantAlive(info: ServantInfo, now: int, expiresIn: int)
      requires Valid()
      modifies this`servants, this`nextSid, this`pool, servants`info, servants`expires
      ensures Valid() && fresh(pool - old(pool))
      ensures View() == Spec.DoKeepServant(old(View()), info, now + expiresIn)
    {
      hide Spec.Inv, Linked, View, Spec.IndexOf, Spec.DoKeepServant;
      ListConsistent();
      SchedulerInvariant.KeepServantKeepsInv(View(), info, now + expiresIn);
      var k := FindServant(info.observed);
      if k < |servants| {
        Refresh(servants[k], k, info, now + expiresIn);
      } else {
        Register(info, now, now + expiresIn);
      }
    }

    /** Frees the zombies of a servant that its heartbeat no longer lists. */
    method UnsafeClearZombies(servant: Servant, reported: seq<nat>)
      requires Valid() && servant in servants
      modifies this`tasks, pool`running
      ensures Linked()
      ensures View() == Spec.Without(old(View()), Spec.GoneZombies(old(Grants(tasks)), servant.sid, reported))
    {
      hide Spec.Inv, Spec.SlotsConserved, Spec.Owned, Spec.Without;
      ListConsistent();
      var clearing, todo := [], tasks.Keys;
      while todo != {}
        invariant todo <= tasks.Keys && Distinct(clearing)
        invariant forall id :: id in clearing <==>
          id in tasks && id !in todo && tasks[id].servant == servant && tasks[id].zombie && id !in reported
        decreases |todo|
      {
        var id :| id in todo;
        todo := todo - {id};
        if tasks[id].servant == servant && tasks[id].zombie && tasks[id].id !in reported {
          clearing := clearing + [id];
        }
      }
      assert SchedulerInvariant.Ids(clearing) == Spec.GoneZombies(Grants(tasks), servant.sid, reported);
      SchedulerInvariant.BatchIsWholeSet(View(), clearing);
      UnsafeFreeTask(clearing);
    }

    /** The ids this servant may go on running. */
    method PermittedIds(servant: Servant) returns (permitted: set<nat>)
      requires Linked() && servant in servants
      ensures forall id :: id in permitted <==> Spec.Permitted(Grants(tasks), servant.sid, id)
    {
      permitted := {};
      var todo := tasks.Keys;
      while todo != {}
        invariant todo <= tasks.Keys
        invariant forall id :: id in permitted <==> id !in todo && Spec.Permitted(Grants(tasks), servant.sid, id)
        decreases |todo|
      {
        var id :| id in todo;
        todo := todo - {id};
        if tasks[id].servant == servant && !tasks[id].zombie {
          permitted := permitted + {id};
        }
      }
    }

    /** Takes the tasks that are not permitted out of the reported list. */
    method Reconcile(reported: seq<RunningTask>, permitted: set<nat>, ghost sid: nat)
      returns (accepted: seq<RunningTask>, unknown: seq<nat>)
      requires forall id :: id in permitted <==> Spec.Permitted(Grants(tasks), sid, id)
      ensures accepted == Spec.Accepted(reported, Grants(tasks), sid)
      ensures unknown == GrantIds(Spec.Rejected(reported, Grants(tasks), sid))
    {
      hide Spec.Accepted, Spec.Rejected, Spec.Permitted;
      ghost var grants := Grants(tasks);
      Spec.SplitNothing(grants, sid);
      accepted, unknown := reported, [];
      var i := 0;
      ghost var k := 0;
      while i < |accepted|
        invariant i <= |accepted| && k <= |reported| && accepted[i..] == reported[k..]
        invariant accepted[..i] == Spec.Accepted(reported[..k], grants, sid)
        invariant unknown == GrantIds(Spec.Rejected(reported[..k], grants, sid))
        decreases |reported| - k
      {
        assert accepted[i] == accepted[i..][0] == reported[k];
        Spec.SplitSnoc(reported, k, grants, sid);
        if accepted[i].grantId !in permitted {
          unknown := unknown + [accepted[i].grantId];
          accepted := accepted[..i] + accepted[i + 1..];
        } else {
          i := i + 1;
        }
        k := k + 1;
      }
      assert reported[..k] == reported && accepted[..i] == accepted;
    }

    method NotifyServantRunningTasks(location: string, reported: seq<RunningTask>) returns (unknown: seq<nat>)
      requires Valid()
      modifies this`tasks, pool`running, book
      ensures Valid()
      ensures (View(), Spec.Expired(unknown)) == Spec.DoNotify(old(View()), location, reported)
    {
      hide Spec.Inv, Linked, Spec.Without, Spec.GoneZombies, Spec.Accepted, Spec.Rejected, Spec.Permitted, Spec.IndexOf;
      SchedulerInvariant.NotifyKeepsInv(View(), location, reported);
      var ids := GrantIds(reported);
      var k := FindServant(location);
      if k == |servants| {
        unknown := ids;
      } else {
        UnsafeClearZombies(servants[k], ids);
        var permitted := PermittedIds(servants[k]);
        var accepted;
        accepted, unknown := Reconcile(reported, permitted, servants[k].sid);
        book.SetRunningTask(location, accepted);
      }
    }

    /** Erases expired servants while scanning, in the list and in the book. */
    method EraseExpired(now: int)
      modifies this`servants, book
      ensures Slots(servants) == Spec.Living(old(Slots(servants)), now)
      ensures book.tasks == old(book.tasks) - Spec.ExpiredLocations(old(Slots(servants)), now)
      ensures forall s <- servants :: s in old(servants)
    {
      hide Spec.Living, Spec.ExpiredLocations, Slots;
      ghost var all, slots := servants, Slots(servants);
      var i := 0;
      ghost var k := 0;
      Spec.EvictNothing(now);
      while i < |servants|
        invariant i <= |servants| && k <= |all| && servants[i..] == all[k..]
        invariant forall s <- servants :: s in all
        invariant Slots(servants[..i]) == Spec.Living(slots[..k], now)
        invariant book.tasks == old(book.tasks) - Spec.ExpiredLocations(slots[..k], now)
        decreases |all| - k
      {
        assert servants[i] == servants[i..][0] == all[k];
        Spec.EvictSnoc(slots, k, now);
        ghost var kept := servants[..i];
        if servants[i].expires < now {
          book.DelServant(servants[i].info.observed);
          servants := servants[..i] + servants[i + 1..];
          assert servants[..i] == kept;
        } else {
          i := i + 1;
          assert Slots(servants[..i]) == Slots(kept) + [slots[k]];
        }
        k := k + 1;
      }
      assert slots[..k] == slots && servants[..i] == servants;
    }

    /** Takes the servants whose lease ran out off the list, and out of the book. */
    method EvictServants(now: int)
      requires Linked()
      modifies this`servants, book
      ensures Linked()
      ensures View() == Spec.Evict(old(View()), now)
    {
      hide Spec.Owned, Spec.Living, Spec.ExpiredLocations;
      EraseExpired(now);
    }

    /** Frees the tasks whose servant is no longer listed. */
    method ClearOrphans()
      requires Linked() && Spec.SlotsConserved(View())
      modifies this`tasks, pool`running
      ensures Linked()
      ensures View() == old(View()).(tasks := old(View()).tasks - Spec.Orphans(old(View())))
    {
      hide Spec.Owned, Spec.SlotsConserved, Spec.Without, Spec.FreeBatch;
      ghost var sids := Spec.Sids(Slots(servants));
      var alive := set s <- servants;
      assert forall id <- tasks :: tasks[id].servant in alive <==> tasks[id].servant.sid in sids by {
        AliveBySid();
      }
      var clearing, todo := [], tasks.Keys;
      while todo != {}
        invariant todo <= tasks.Keys && Distinct(clearing)
        invariant forall id :: id in clearing <==> id in tasks && id !in todo && tasks[id].servant !in alive
        decreases |todo|
      {
        var id :| id in todo;
        todo := todo - {id};
        if tasks[id].servant !in alive {
          clearing := clearing + [id];
        }
      }
      assert SchedulerInvariant.Ids(clearing) == Spec.Orphans(View());
      SchedulerInvariant.BatchIsWholeSet(View(), clearing);
      SchedulerInvariant.OrphansCostNothing(View());
      UnsafeFreeTask(clearing);
    }

    lemma AliveBySid()
      requires Linked()
      ensures forall id <- tasks :: tasks[id].servant in servants <==> tasks[id].servant.sid in Spec.Sids(Slots(servants))
    {
      forall id <- tasks ensures tasks[id].servant in servants <==> tasks[id].servant.sid in Spec.Sids(Slots(servants)) {
        if tasks[id].servant in servants {
          var i :| 0 <= i < |servants| && servants[i] == tasks[id].servant;
          assert Slots(servants)[i] in Slots(servants);
        }
      }
    }

    function Lapsed(t: Task, now: int): Task {
      t.(zombie := t.zombie || t.expires < now)
    }

    method MarkLapsed(now: int)
      modifies this`tasks
      ensures tasks.Keys == old(tasks).Keys
      ensures forall id <- tasks :: tasks[id] == Lapsed(old(tasks)[id], now)
    {
      var todo := tasks.Keys;
      while todo != {}
        invariant todo <= tasks.Keys == old(tasks).Keys
        invariant forall id <- todo :: tasks[id] == old(tasks)[id]
        invariant forall id <- tasks.Keys - todo :: tasks[id] == Lapsed(old(tasks)[id], now)
        decreases |todo|
      {
        var id :| id in todo;
        todo := todo - {id};
        if tasks[id].expires < now {
          tasks := tasks[id := tasks[id].(zombie := true)];
        }
      }
    }

    /** Turns the tasks whose lease ran out into zombies. */
    method MarkZombies(now: int)
      requires Linked()
      modifies this`tasks
      ensures Linked()
      ensures View() == Spec.Expire(old(View()), now)
    {
      hide Spec.Owned, Spec.Expire, Grants;
      ghost var before := tasks;
      MarkLapsed(now);
      LapsedGrants(before, tasks, View().(tasks := Grants(before)), now);
      SchedulerInvariant.OwnedRewritten(Grants(before), Grants(tasks));
    }

    lemma LapsedGrants(before: map<nat, Task>, after: map<nat, Task>, view: Spec.State, now: int)
      requires after.Keys == before.Keys && view.tasks == Grants(before)
      requires forall id <- after :: after[id] == Lapsed(before[id], now)
      ensures Spec.Expire(view, now) == view.(tasks := Grants(after))
      ensures Grants(after).Keys == Grants(before).Keys
      ensures forall id <- Grants(after) :: Grants(after)[id].sid == Grants(before)[id].sid
    {
    }

    method OnTimerExpiration(now: int)
      requires Valid()
      modifies this`servants, this`tasks, pool`running, book
      ensures Valid()
      ensures View() == Spec.DoTick(old(View()), now)
    {
      hide Spec.Inv, Linked, View, Spec.SlotsConserved, Spec.Evict, Spec.Orphans, Spec.Expire, Spec.DoTick;
      ListConsistent();
      SchedulerInvariant.TickKeepsInv(View(), now);
      SchedulerInvariant.TickInParts(View(), now);
      SchedulerInvariant.EvictConserves(View(), now);
      EvictServants(now);
      ClearOrphans();
      MarkZombies(now);
    }

    /** The servants that have the compiler, take tasks at all, and are not newer than the caller. */
    method UnsafeGetServantsHasEnv(task: TaskInfo) returns (eligible: seq<Servant>)
      ensures Slots(eligible) == Spec.Eligible(Slots(servants), task)
      ensures forall s <- eligible :: s in servants
    {
      hide Spec.Eligible, Slots;
      eligible := [];
      ghost var slots := Slots(servants);
      Spec.NoneEligible(task);
      for k := 0 to |servants|
        invariant forall s <- eligible :: s in servants
        invariant Slots(eligible) == Spec.Eligible(slots[..k], task)
      {
        Spec.EligibleSnoc(slots, k, task);
        ghost var before := eligible;
        if !HasEnv(servants[k].info.envs, task.env) {
          // no such compiler
        } else if servants[k].info.concurrency <= 0 {
          // takes no tasks
        } else if servants[k].info.version > task.minVersion {
          // newer than the caller
        } else {
          eligible := eligible + [servants[k]];
          assert Slots(eligible) == Slots(before) + [SlotOf(servants[k])];
        }
      }
      assert slots[..|servants|] == slots;
    }

    predicate HasEnv(envs: seq<string>, env: string) {
      exists i :: 0 <= i < |envs| && envs[i] == env
    }

    method UnsafeGetFreeServants(eligible: seq<Servant>) returns (free: seq<Servant>)
      ensures Slots(free) == Spec.Free(Slots(eligible), minMemory)
      ensures forall s <- free :: s in eligible
    {
      hide Spec.Free, Slots;
      free := [];
      ghost var slots := Slots(eligible);
      Spec.NoneFree(minMemory);
      for k := 0 to |eligible|
        invariant forall s <- free :: s in eligible
        invariant Slots(free) == Spec.Free(slots[..k], minMemory)
      {
        Spec.FreeSnoc(slots, k, minMemory);
        ghost var before := free;
        if eligible[k].running < Spec.AvailableTasks(eligible[k].info, eligible[k].running, minMemory) {
          free := free + [eligible[k]];
          assert Slots(free) == Slots(before) + [slots[k]];
        }
      }
      assert slots[..|eligible|] == slots;
    }

    /** Enters a new task on the picked servant. */
    method CreateTask(picked: Servant, task: TaskInfo, now: int, expiresIn: int, prefetch: bool) returns (id: nat)
      requires Valid() && picked in servants && picked.running < picked.info.concurrency
      modifies this`tasks, this`nextId, picked`running, picked`assignedTasks
      ensures Linked() && id == old(nextId) && id !in old(tasks)
      ensures View() == Spec.Place(old(View()), Spec.Grant(picked.sid, task, now + expiresIn, prefetch, false))
    {
      hide Spec.Owned, Spec.Inv, Grants;
      NextIdUnused();
      ghost var before := Grants(tasks);
      ghost var grant := Spec.Grant(picked.sid, task, now + expiresIn, prefetch, false);
      picked.running := Wrap64(picked.running + 1);
      picked.assignedTasks := picked.assignedTasks + 1;
      id := nextId;
      nextId := nextId + 1;
      GrantsWith(tasks, id, Task(id, task, picked, now, now + expiresIn, prefetch, false));
      tasks := tasks[id := Task(id, task, picked, now, now + expiresIn, prefetch, false)];
      forall s <- pool ensures s.running == |Spec.Owned(Grants(tasks), s.sid)| {
        SchedulerInvariant.OwnedPlaced(before, id, grant, s.sid);
      }
      assert Slots(servants) == Spec.AddRunning(old(Slots(servants)), picked.sid, 1);
    }

    lemma GrantsWith(table: map<nat, Task>, id: nat, t: Task)
      ensures Grants(table[id := t]) == Grants(table)[id := GrantOf(t)]
      ensures Grants(table).Keys == table.Keys
    {
    }

    lemma NextIdUnused()
      requires Valid()
      ensures nextId !in tasks
    {
      assert forall id <- tasks :: id in Grants(tasks);
    }

    /** The condition wait gives the lock up: any operations may run before it is taken again. */
    method AwaitWakeup() returns (ghost meanwhile: seq<Spec.Event>)
      requires Valid()
      modifies this, pool, book
      ensures Valid() && fresh(pool - old(pool))
      ensures View() == Spec.Run(old(View()), meanwhile)
    {
      meanwhile := [];
    }

    /** One scan under the lock: no servant has the compiler, none is free, or the task is entered. */
    method TryStart(task: TaskInfo, now: int, expiresIn: int, prefetch: bool) returns (reply: Spec.Reply)
      requires Valid()
      modifies this`tasks, this`nextId, pool`running, pool`assignedTasks
      ensures Valid()
      ensures (View(), reply) == Spec.DoStart(old(View()), task, now + expiresIn, prefetch)
      ensures SchedulerAdmission.Admits(old(View()), View(), reply, task, now + expiresIn, prefetch)
    {
      hide Spec.Inv, Linked, Spec.Eligible, Spec.Free, Spec.Pick, Spec.Place, Spec.IsFree, SchedulerAdmission.Admits;
      SchedulerAdmission.AdmitsExactly(View(), task, now + expiresIn, prefetch);
      SchedulerInvariant.StartKeepsInv(View(), task, now + expiresIn, prefetch);
      var eligible := UnsafeGetServantsHasEnv(task);
      if eligible == [] {
        reply := Spec.NoEnv;
      } else {
        var free := UnsafeGetFreeServants(eligible);
        if free == [] {
          reply := Spec.Busy;
        } else {
          Spec.FreeAreFree(Slots(eligible), minMemory);
          var picked := PickUpFreeServant(free, task.requesterIp, minMemory);
          ListedInPool();
          assert SlotOf(picked) in Slots(free) by { InSlots(free, picked); }
          var id := CreateTask(picked, task, now, expiresIn, prefetch);
          reply := Spec.Granted(id, picked.info.observed);
        }
      }
    }

    lemma ListedInPool()
      requires Linked()
      ensures forall s <- servants :: s in pool
    {
    }

    /** Scans until a servant is free or the deadline passes, after `wakeups` notifications.  Busy stands for
        the timeout, which is answered without another scan.  `scans` tells after how many of the events awaited each
        scan took place: the first at once, the others after a notification; every scan but the one that decides
        found all able servants busy, and a timeout follows only when all of them did. */
    method WaitForStartingNewTask(task: TaskInfo, now: int, expiresIn: int, prefetch: bool, wakeups: nat)
      returns (reply: Spec.Reply, ghost waited: seq<Spec.Event>, ghost scans: seq<nat>)
      requires Valid()
      modifies this, pool, book
      ensures Valid() && fresh(pool - old(pool))
      ensures 1 <= |scans| <= wakeups + 1 && scans[0] == 0
      ensures reply == Spec.Busy ==> |scans| == wakeups + 1 && View() == Spec.Run(old(View()), waited)
      ensures reply == Spec.Busy ==> AllBusy(old(View()), waited, scans, task, now + expiresIn, prefetch)
      ensures reply != Spec.Busy ==>
        && scans[|scans| - 1] == |waited|
        && AllBusy(old(View()), waited, scans[..|scans| - 1], task, now + expiresIn, prefetch)
        && (View(), reply) == Spec.DoStart(Spec.Run(old(View()), waited), task, now + expiresIn, prefetch)
        && SchedulerAdmission.Admits(Spec.Run(old(View()), waited), View(), reply, task, now + expiresIn, prefetch)
    {
      hide Spec.Inv, Linked, View, Spec.DoStart, Spec.Step, Spec.Run, AllBusy, SchedulerAdmission.Admits;
      waited, scans := [], [0];
      var left := wakeups;
      ghost var start, expires := View(), now + expiresIn;
      Spec.RunNothing(start);
      Spec.BusyChangesNothing(start, task, expires, prefetch);
      NoneBusy(start, task, expires, prefetch);
      assert scans[..0] == [];
      reply := TryStart(task, now, expiresIn, prefetch);
      if reply == Spec.Busy {
        OneMoreBusy(start, [], [], task, expires, prefetch);
        assert [] + [|waited|] == scans;
      }
      while reply == Spec.Busy
        invariant Valid() && fresh(pool - old(pool))
        invariant 0 <= left <= wakeups && |scans| == wakeups + 1 - left && scans[0] == 0
        invariant reply == Spec.Busy ==>
          View() == Spec.Run(start, waited) && AllBusy(start, waited, scans, task, expires, prefetch)
        invariant reply != Spec.Busy ==>
          && scans[|scans| - 1] == |waited|
          && AllBusy(start, waited, scans[..|scans| - 1], task, expires, prefetch)
          && (View(), reply) == Spec.DoStart(Spec.Run(start, waited), task, expires, prefetch)
          && SchedulerAdmission.Admits(Spec.Run(start, waited), View(), reply, task, expires, prefetch)
        decreases reply == Spec.Busy, left
      {
        ghost var meanwhile := AwaitWakeup();
        Spec.RunAppend(start, waited, meanwhile);
        StillBusy(start, waited, meanwhile, scans, task, expires, prefetch);
        waited := waited + meanwhile;
        if left == 0 {
          return;
        }
        left := left - 1;
        Spec.BusyChangesNothing(View(), task, expires, prefetch);
        reply := TryStart(task, now, expiresIn, prefetch);
        if reply == Spec.Busy {
          OneMoreBusy(start, waited, scans, task, expires, prefetch);
        }
        assert (scans + [|waited|])[..|scans|] == scans;
        scans := scans + [|waited|];
      }
    }
  }

  /** Each of the scans found every able servant busy. */
  ghost predicate AllBusy(start: Spec.State, waited: seq<Spec.Event>, scans: seq<nat>,
                          task: TaskInfo, expires: int, prefetch: bool)
  {
    forall i :: 0 <= i < |scans| ==>
      scans[i] <= |waited| && Spec.DoStart(Spec.Run(start, waited[..scans[i]]), task, expires, prefetch).1 == Spec.Busy
  }

  lemma NoneBusy(start: Spec.State, task: TaskInfo, expires: int, prefetch: bool)
    ensures AllBusy(start, [], [], task, expires, prefetch)
  {
  }

  lemma OneMoreBusy(start: Spec.State, waited: seq<Spec.Event>, scans: seq<nat>,
                    task: TaskInfo, expires: int, prefetch: bool)
    requires AllBusy(start, waited, scans, task, expires, prefetch)
    requires Spec.DoStart(Spec.Run(start, waited), task, expires, prefetch).1 == Spec.Busy
    ensures AllBusy(start, waited, scans + [|waited|], task, expires, prefetch)
  {
    hide Spec.DoStart, Spec.Run;
    assert waited[..|waited|] == waited;
  }

  lemma StillBusy(start: Spec.State, waited: seq<Spec.Event>, more: seq<Spec.Event>, scans: seq<nat>,
                  task: TaskInfo, expires: int, prefetch: bool)
    requires AllBusy(start, waited, scans, task, expires, prefetch)
    ensures AllBusy(start, waited + more, scans, task, expires, prefetch)
  {
    hide Spec.DoStart, Spec.Run;
    forall i | 0 <= i < |scans| ensures (waited + more)[..scans[i]] == waited[..scans[i]] {
      assert scans[i] <= |waited|;
    }
  }

  lemma InSlots(servants: seq<Servant>, s: Servant)
    requires s in servants
    ensures SlotOf(s) in Slots(servants)
  {
    var i :| 0 <= i < |servants| && servants[i] == s;
    assert Slots(servants)[i] == SlotOf(s);
  }
}
