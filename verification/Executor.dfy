/** The executor's table as the program keeps it: shared descriptors updated in place under the mutex.
    Every method is proved to be the steps of `ExecutorSpec` it stands for. */
module Executor {
  import opened Seqs
  import Spec = ExecutorSpec
  import ExecutorProperties

  class TaskDesc {
    var pid: int
    var isRunning: bool
    var grantId: nat
    var refCount: nat
    var completed: int

    constructor (pid: int, grantId: nat)
      ensures this.pid == pid && this.grantId == grantId && refCount == 1 && isRunning && completed == 0
    {
      this.pid, this.grantId, refCount, isRunning, completed := pid, grantId, 1, true, 0;
    }
  }

  function DescOf(d: TaskDesc): Spec.Desc
    reads d
  {
    Spec.Desc(d.pid, d.grantId, d.refCount, d.isRunning, d.completed)
  }

  datatype RunningTask = RunningTask(servantTaskId: nat, grantId: nat)

  class Executor {
    const max: nat
    var exiting: bool
    var nextTaskId: nat
    var running: int
    var tasks: map<nat, TaskDesc>
    var semaphore: nat
    var children: map<int, Spec.Child>   // the system's table of processes not yet waited for
    var pending: seq<Spec.Callback>      // the callbacks in the thread pool
    ghost var waiter: Spec.Waiter        // where the waiter thread stands
    ghost var doomed: multiset<Spec.Doomed>   // freed tasks that requests have yet to kill

    function Table(): map<nat, Spec.Desc>
      reads this`tasks, tasks.Values
    {
      map id | id in tasks :: DescOf(tasks[id])
    }

    /** The state when no request holds the mutex. */
    ghost function View(): Spec.State
      reads this, tasks.Values
    {
      Spec.State(exiting, nextTaskId, running, max, Table(), semaphore, Spec.Idle, waiter, children, pending, doomed)
    }

    ghost predicate Unshared()
      reads this
    {
      forall a, b :: a in tasks && b in tasks && tasks[a] == tasks[b] ==> a == b
    }

    ghost predicate Valid()
      reads this, tasks.Values
    {
      && Unshared()
      && ExecutorProperties.Numbered(View())
      && ExecutorProperties.DistinctPids(View())
    }

    constructor (max: nat)
      ensures Valid() && View() == Spec.Init(max)
    {
      this.max := max;
      exiting, nextTaskId, running, tasks, semaphore := false, 1, 0, map[], 0;
      waiter, children, pending, doomed := Spec.AtTest, map[], [], multiset{};
    }

    lemma KeepsValid(before: Spec.State, e: Spec.Event)
      requires ExecutorProperties.Numbered(before) && ExecutorProperties.DistinctPids(before)
      requires View() == Spec.Step(before, e) && Unshared()
      ensures Valid()
    {
      hide Spec.Step, ExecutorProperties.Numbered, ExecutorProperties.DistinctPids, Unshared, View;
      ExecutorProperties.StepRefs(before, e, 0);
      ExecutorProperties.StepKeepsDistinctPids(before, e);
    }

    /** The checks that may refuse a task.  The id is taken before the limit and the memory are looked at. */
    method TryStartingNewTask(memoryOk: bool) returns (id: Option<nat>)
      modifies this`nextTaskId, this`running
      ensures id == if exiting || old(running) + 1 > max || !memoryOk then None else Some(old(nextTaskId))
      ensures nextTaskId == old(nextTaskId) + if exiting then 0 else 1
      ensures running == old(running) + if id.Some? then 1 else 0
    {
      if exiting {
        return None;
      }
      var task := nextTaskId;
      nextTaskId := nextTaskId + 1;
      running := running + 1;
      if running > max {
        running := running - 1;
        return None;
      }
      if !memoryOk {
        running := running - 1;
        return None;
      }
      id := Some(task);
    }

    method TryQueueTask(grant: nat, memoryOk: bool, pid: int) returns (id: Option<nat>)
      requires Valid() && Spec.FreshPid(View(), pid)
      modifies this
      ensures Valid()
      ensures View() == ExecutorProperties.Queue(old(View()), grant, memoryOk, pid)
      ensures exiting == old(exiting) && nextTaskId == old(nextTaskId) + if exiting then 0 else 1
      ensures id == if old(exiting) || old(running) + 1 > max || !memoryOk then None else Some(old(nextTaskId))
      ensures id.None? ==>
        running == old(running) && tasks == old(tasks) && children == old(children) && semaphore == old(semaphore)
      ensures id.Some? ==>
        && running == old(running) + 1 && semaphore == old(semaphore) + 1
        && children == old(children)[pid := Spec.Child(id.value, None)]
        && id.value in tasks && fresh(tasks[id.value]) && tasks == old(tasks)[id.value := tasks[id.value]]
        && DescOf(tasks[id.value]) == Spec.Desc(pid, grant, 1, true, 0)
    {
      hide Spec.FreshPid, ExecutorProperties.Numbered, ExecutorProperties.DistinctPids, ExecutorProperties.Queue, Table;
      ExecutorProperties.QueueInOne(View(), grant, memoryOk, pid);
      id := TryStartingNewTask(memoryOk);
      if id.Some? {
        Enroll(id.value, grant, pid);
      }
      assert View() == ExecutorProperties.Queue(old(View()), grant, memoryOk, pid);
    }

    /** The process has been started: its descriptor enters the table and the waiter is told. */
    method Enroll(id: nat, grant: nat, pid: int)
      requires Unshared()
      modifies this`tasks, this`children, this`semaphore
      ensures Unshared() && id in tasks && fresh(tasks[id]) && tasks == old(tasks)[id := tasks[id]]
      ensures DescOf(tasks[id]) == Spec.Desc(pid, grant, 1, true, 0)
      ensures Table() == old(Table())[id := Spec.Desc(pid, grant, 1, true, 0)]
      ensures children == old(children)[pid := Spec.Child(id, None)]
      ensures semaphore == old(semaphore) + 1
    {
      ghost var table := Table();
      var desc := new TaskDesc(pid, grant);
      tasks := tasks[id := desc];
      children := children[pid := Spec.Child(id, None)];
      semaphore := semaphore + 1;
      assert Table() == table[id := Spec.Desc(pid, grant, 1, true, 0)];
    }

    method TryAddTaskRef(id: nat) returns (ok: bool)
      requires Valid()
      modifies tasks.Values
      ensures Valid() && (ok <==> id in tasks)
      ensures ok ==> DescOf(tasks[id]) == old(DescOf(tasks[id])).(refs := old(tasks[id].refCount) + 1)
      ensures forall other <- tasks | other != id :: DescOf(tasks[other]) == old(DescOf(tasks[other]))
      ensures View() == Spec.Step(old(View()), Spec.AddRef(id))
    {
      hide ExecutorProperties.Numbered, ExecutorProperties.DistinctPids;
      if id in tasks {
        tasks[id].refCount := tasks[id].refCount + 1;
        ok := true;
      } else {
        ok := false;
      }
      KeepsValid(old(View()), Spec.AddRef(id));
    }

    method KillTask(d: TaskDesc) returns (signalled: set<int>)
      ensures signalled == if d.isRunning then {d.pid} else {}
    {
      signalled := if d.isRunning then {d.pid} else {};
    }

    /** Gives a reference back under the mutex; with the last one the descriptor leaves the table and is returned. */
    method Release(id: nat) returns (freed: TaskDesc?)
      requires Valid()
      modifies this`tasks, this`doomed, tasks.Values
      ensures Valid() && tasks.Keys <= old(tasks).Keys && tasks.Values <= old(tasks).Values
      ensures View() == Spec.Step(old(View()), Spec.Free(id))
      ensures freed != null <==> id in old(tasks) && old(tasks[id].refCount) == 1
      ensures freed != null ==>
        && freed == old(tasks)[id] && freed !in tasks.Values
        && freed.isRunning == old(tasks[id].isRunning) && freed.pid == old(tasks[id].pid)
      ensures freed != null && freed.isRunning ==> Spec.Doomed(freed.pid, id) in doomed
    {
      hide ExecutorProperties.Numbered, ExecutorProperties.DistinctPids, Spec.Step, Table, Unshared;
      ghost var before := View();
      InTable();
      freed := null;
      if id in tasks {
        var desc := tasks[id];
        Drop(desc, id);
        if !(desc.refCount > 0) {
          ghost var dropped := Table();
          TakeOut(desc, id);
          freed := desc;
          assert dropped - {id} == before.tasks - {id};
        }
      }
      Released(before, id);
    }

    /** The three cases of a release put together. */
    lemma Released(before: Spec.State, id: nat)
      requires Spec.Unlocked(before) && Unshared()
      requires ExecutorProperties.Numbered(before) && ExecutorProperties.DistinctPids(before)
      requires View() == before.(tasks := Table(), doomed := doomed)
      requires if id !in before.tasks then Table() == before.tasks && doomed == before.doomed
        else if before.tasks[id].refs > 1 then
          && Table() == before.tasks[id := before.tasks[id].(refs := before.tasks[id].refs - 1)]
          && doomed == before.doomed
        else
          && Table() == before.tasks - {id}
          && doomed == before.doomed +
               if before.tasks[id].running then multiset{Spec.Doomed(before.tasks[id].pid, id)} else multiset{}
      ensures Valid() && View() == Spec.Step(before, Spec.Free(id))
    {
      hide View, Valid, Table, Spec.Step, Unshared, ExecutorProperties.DistinctPids;
      Spec.FreeStep(before, id);
      assert id in before.tasks ==> before.tasks[id].refs >= 1;
      KeepsValid(before, Spec.Free(id));
    }

    lemma InTable()
      requires Valid()
      ensures Table().Keys == tasks.Keys
      ensures forall id <- tasks :: tasks[id].refCount >= 1 && Table()[id] == DescOf(tasks[id])
    {
      RefsPositive();
    }

    method Drop(desc: TaskDesc, ghost id: nat)
      requires Unshared() && id in tasks && tasks[id] == desc && desc.refCount >= 1
      modifies desc`refCount
      ensures desc.refCount == old(desc.refCount) - 1
      ensures Table() == old(Table())[id := old(Table())[id].(refs := desc.refCount)]
    {
      ghost var table := Table();
      desc.refCount := desc.refCount - 1;
      assert Table() == table[id := table[id].(refs := desc.refCount)];
    }

    method TakeOut(desc: TaskDesc, id: nat)
      requires Unshared() && id in tasks && tasks[id] == desc
      modifies this`tasks, this`doomed
      ensures Unshared() && tasks == old(tasks) - {id} && desc !in tasks.Values && tasks.Values <= old(tasks).Values
      ensures Table() == old(Table()) - {id}
      ensures doomed == old(doomed) + if desc.isRunning then multiset{Spec.Doomed(desc.pid, id)} else multiset{}
    {
      ghost var table := Table();
      if desc.isRunning {
        doomed := doomed + multiset{Spec.Doomed(desc.pid, id)};
      }
      tasks := tasks - {id};
      assert Table() == table - {id};
    }

    /** Between the unlock and the kill everything else goes on, but the signal owed stays owed. */
    method Meanwhile(ghost owed: Spec.Doomed, ghost start: Spec.State, ghost events: seq<Spec.Event>)
      returns (ghost longer: seq<Spec.Event>)
      requires Valid() && View() == Spec.Run(start, events) && owed in doomed
      modifies this, tasks.Values
      ensures Valid() && fresh(tasks.Values - old(tasks.Values)) && owed in doomed
      ensures events <= longer && View() == Spec.Run(start, longer)
    {
      longer := events;
    }

    /** Gives a reference back.  The process of a task freed while running is sent the signal only after the
        mutex has been given up; whatever goes on in between, it is the process the task was started with, and
        no signal is sent otherwise. */
    method FreeTask(id: nat) returns (signalled: set<int>, ghost events: seq<Spec.Event>)
      requires Valid()
      modifies this, tasks.Values
      ensures Valid() && View() == Spec.Run(old(View()), events)
      ensures signalled ==
        if id in old(tasks) && old(tasks[id].refCount) == 1 && old(tasks[id].isRunning) then {old(tasks[id].pid)} else {}
      ensures events != [] && events[0] == Spec.Free(id)
      ensures signalled != {} ==> |events| > 1 && events[|events| - 1] == Spec.KillFreed(Spec.Doomed(old(tasks[id].pid), id))
    {
      hide View, Valid, Spec.Run, Spec.Step;
      ghost var start := View();
      Spec.RunOn(start, [], Spec.Free(id));
      var freed := Release(id);
      events := [] + [Spec.Free(id)];
      signalled := {};
      if freed != null {
        ghost var owed := Spec.Doomed(freed.pid, id);
        if freed.isRunning {
          events := Meanwhile(owed, start, events);
        }
        signalled := KillTask(freed);
        if freed.isRunning {
          events := Settle(owed, start, events);
        }
      }
    }

    ghost method Settle(owed: Spec.Doomed, start: Spec.State, events: seq<Spec.Event>) returns (longer: seq<Spec.Event>)
      requires Valid() && View() == Spec.Run(start, events) && owed in doomed
      modifies this`doomed
      ensures Valid() && View() == Spec.Run(start, longer) && longer == events + [Spec.KillFreed(owed)]
    {
      hide Spec.Run, ExecutorProperties.Numbered, ExecutorProperties.DistinctPids;
      var before := View();
      doomed := doomed - multiset{owed};
      longer := events + [Spec.KillFreed(owed)];
      Took(start, events, before, Spec.KillFreed(owed));
    }

    lemma RefsPositive()
      requires Valid()
      ensures forall id <- tasks :: tasks[id].refCount >= 1
    {
      assert forall id <- tasks :: id in View().tasks;
    }

    /** Every task of the table, once, in an order the map leaves open. */
    method GetAllTasks() returns (result: seq<RunningTask>)
      ensures Distinct(result)
      ensures forall t :: t in result <==> t.servantTaskId in tasks && t.grantId == tasks[t.servantTaskId].grantId
    {
      result := [];
      var todo := tasks.Keys;
      while todo != {}
        invariant todo <= tasks.Keys && Distinct(result)
        invariant forall t :: t in result <==>
          t.servantTaskId in tasks && t.servantTaskId !in todo && t.grantId == tasks[t.servantTaskId].grantId
        decreases |todo|
      {
        var id :| id in todo;
        todo := todo - {id};
        result := result + [RunningTask(id, tasks[id].grantId)];
      }
    }

    /** Sends the signal to the descriptors of `ids` that still count as running. */
    method KillAll(ids: set<nat>) returns (signalled: set<int>)
      requires ids <= tasks.Keys
      ensures forall p :: p in signalled <==> exists id :: id in ids && tasks[id].isRunning && tasks[id].pid == p
      ensures signalled == Spec.Pids(Table(), ids * Spec.Running(Table()))
    {
      signalled := {};
      var todo := ids;
      while todo != {}
        invariant todo <= ids
        invariant forall p :: p in signalled <==>
          exists id :: id in ids && id !in todo && tasks[id].isRunning && tasks[id].pid == p
        decreases |todo|
      {
        var id :| id in todo;
        todo := todo - {id};
        var sent := KillTask(tasks[id]);
        signalled := signalled + sent;
      }
      ghost var table := Table();
      forall p ensures p in signalled <==> p in Spec.Pids(table, ids * Spec.Running(table)) {
        assert forall id <- ids :: table[id] == DescOf(tasks[id]);
        if p in signalled {
          var id :| id in ids && tasks[id].isRunning && tasks[id].pid == p;
          assert id in ids * Spec.Running(table);
        }
      }
    }

    method KillExpiredTasks(expired: set<nat>) returns (signalled: set<int>)
      ensures forall p :: p in signalled <==>
        exists id :: id in tasks && tasks[id].isRunning && tasks[id].grantId in expired && tasks[id].pid == p
      ensures signalled == Spec.Signalled(View(), Spec.KillExpired(expired))
    {
      var condemned := set id | id in tasks && tasks[id].isRunning && tasks[id].grantId in expired;
      signalled := KillAll(condemned);
      assert condemned * Spec.Running(Table()) == Spec.Condemned(Table(), expired);
    }

    method OnTimerClean(now: int)
      requires Valid()
      modifies this`tasks
      ensures Valid()
      ensures View() == Spec.Step(old(View()), Spec.Clean(now))
      ensures forall id :: id in tasks <==>
        id in old(tasks) && (old(tasks)[id].isRunning || old(tasks)[id].completed + 60_000 >= now)
      ensures forall id <- tasks :: tasks[id] == old(tasks)[id]
    {
      hide ExecutorProperties.Numbered, ExecutorProperties.DistinctPids;
      EraseCompleted(now);
      assert Table() == old(Table()) - Spec.Stale(old(Table()), now);
      KeepsValid(old(View()), Spec.Clean(now));
    }

    predicate IsStale(d: TaskDesc, now: int)
      reads d
    {
      !d.isRunning && d.completed + Spec.CLEAN_AFTER < now
    }

    method EraseCompleted(now: int)
      modifies this`tasks
      ensures forall id :: id in tasks <==> id in old(tasks) && !IsStale(old(tasks)[id], now)
      ensures forall id <- tasks :: tasks[id] == old(tasks)[id]
    {
      ghost var before := tasks;
      var todo := tasks.Keys;
      while todo != {}
        invariant todo <= tasks.Keys
        invariant forall id :: id in tasks <==> id in before && (id in todo || !IsStale(before[id], now))
        invariant forall id <- tasks :: tasks[id] == before[id]
        decreases |todo|
      {
        var id :| id in todo;
        todo := todo - {id};
        if !tasks[id].isRunning && tasks[id].completed + Spec.CLEAN_AFTER < now {
          tasks := tasks - {id};
        }
      }
    }

    method FindByPid(pid: int) returns (id: Option<nat>)
      ensures id.Some? ==> id.value in tasks && tasks[id.value].pid == pid
      ensures id.None? ==> forall other <- tasks :: tasks[other].pid != pid
    {
      id := None;
      var todo := tasks.Keys;
      while todo != {} && id.None?
        invariant todo <= tasks.Keys
        invariant id.None? ==> forall other <- tasks :: tasks[other].pid == pid ==> other in todo
        invariant id.Some? ==> id.value in tasks && tasks[id.value].pid == pid
        decreases |todo|
      {
        var other :| other in todo;
        todo := todo - {other};
        if tasks[other].pid == pid {
          id := Some(other);
        }
      }
    }

    /** The slot is given back whether or not a descriptor with the pid is found. */
    method OnExitCallback(k: nat, pid: int, now: int)
      requires Valid() && k < |pending| && pending[k].pid == pid
      modifies this`running, this`pending, tasks.Values
      ensures Valid()
      ensures View() == Spec.Step(old(View()), Spec.RunCallback(k, now))
      ensures running == old(running) - 1 && pending == old(pending)[..k] + old(pending)[k + 1..]
      ensures forall id <- tasks | old(tasks[id].pid) == pid ::
        DescOf(tasks[id]) == old(DescOf(tasks[id])).(running := false, completed := now)
      ensures forall id <- tasks | old(tasks[id].pid) != pid :: DescOf(tasks[id]) == old(DescOf(tasks[id]))
    {
      hide ExecutorProperties.Numbered, ExecutorProperties.DistinctPids, Table, Spec.Completed;
      ghost var before := View();
      var id := FindByPid(pid);
      OnlyHolder(pid, id);
      running := running - 1;
      pending := pending[..k] + pending[k + 1..];
      Complete(id, pid, now);
      KeepsValid(before, Spec.RunCallback(k, now));
    }

    method Complete(id: Option<nat>, ghost pid: int, now: int)
      requires Unshared()
      requires id.Some? ==> id.value in tasks && forall other <- tasks :: tasks[other].pid == pid <==> other == id.value
      requires id.None? ==> forall other <- tasks :: tasks[other].pid != pid
      modifies tasks.Values
      ensures Table() == Spec.Completed(old(Table()), pid, now)
      ensures forall id <- tasks | old(tasks[id].pid) == pid ::
        DescOf(tasks[id]) == old(DescOf(tasks[id])).(running := false, completed := now)
      ensures forall id <- tasks | old(tasks[id].pid) != pid :: DescOf(tasks[id]) == old(DescOf(tasks[id]))
    {
      ghost var table := Table();
      if id.Some? {
        tasks[id.value].completed := now;
        tasks[id.value].isRunning := false;
      }
      assert Table() == Spec.Completed(table, pid, now);
    }

    lemma OnlyHolder(pid: int, id: Option<nat>)
      requires Valid()
      requires id.Some? ==> id.value in tasks && tasks[id.value].pid == pid
      ensures id.Some? ==> forall other <- tasks :: tasks[other].pid == pid ==> other == id.value
    {
      assert forall other <- tasks :: View().tasks[other].pid == tasks[other].pid;
    }

    /** Raises the flag, kills every running task under the mutex, and wakes the waiter once more. */
    method Stop() returns (signalled: set<int>)
      requires Valid()
      modifies this`exiting, this`semaphore
      ensures Valid()
      ensures View() == ExecutorProperties.Halt(old(View()))
      ensures exiting && semaphore == old(semaphore) + 1
      ensures forall p :: p in signalled <==> exists id :: id in tasks && tasks[id].isRunning && tasks[id].pid == p
      ensures signalled == Spec.Signalled(Spec.Step(old(View()), Spec.StopFlag), Spec.StopKill)
    {
      hide Spec.Step, Spec.Signalled, ExecutorProperties.Halt, ExecutorProperties.Numbered, ExecutorProperties.DistinctPids;
      ExecutorProperties.HaltInOne(View());
      exiting := true;
      signalled := KillAll(tasks.Keys);
      assert tasks.Keys * Spec.Running(Table()) == Spec.Running(Table());
      semaphore := semaphore + 1;
      assert View() == ExecutorProperties.Halt(old(View()));
    }

    // -------------------------------------------------------------------------------------------
    // The waiter thread
    // -------------------------------------------------------------------------------------------

    /** One step of the waiter has been taken: the run is one event longer. */
    lemma Took(start: Spec.State, events: seq<Spec.Event>, before: Spec.State, e: Spec.Event)
      requires before == Spec.Run(start, events) && View() == Spec.Step(before, e)
      requires ExecutorProperties.Numbered(before) && ExecutorProperties.DistinctPids(before) && Unshared()
      ensures Valid() && View() == Spec.Run(start, events + [e])
    {
      hide Spec.Step, Spec.Run, View, Valid, ExecutorProperties.Numbered, ExecutorProperties.DistinctPids, Unshared;
      Spec.RunOn(start, events, e);
      KeepsValid(before, e);
    }

    /** The other threads, the children and the clients go on; the waiter stays where it is. */
    method Interleave(ghost start: Spec.State, ghost events: seq<Spec.Event>) returns (ghost longer: seq<Spec.Event>)
      requires Valid() && View() == Spec.Run(start, events)
      modifies this, tasks.Values
      ensures Valid() && fresh(tasks.Values - old(tasks.Values)) && waiter == old(waiter)
      ensures events <= longer && View() == Spec.Run(start, longer)
      ensures Spec.WaiterSteps(longer) == Spec.WaiterSteps(events)
    {
      longer := events;
    }

    method TestWork(ghost start: Spec.State, ghost events: seq<Spec.Event>)
      returns (go: bool, ghost longer: seq<Spec.Event>)
      requires Valid() && View() == Spec.Run(start, events) && waiter == Spec.AtTest
      modifies this`waiter
      ensures Valid() && View() == Spec.Run(start, longer) && longer == events + [Spec.Test]
      ensures waiter == if go then Spec.AtAcquire else Spec.Gone
      ensures go <==> !exiting || running != 0
    {
      hide Spec.Run, ExecutorProperties.Numbered, ExecutorProperties.DistinctPids;
      ghost var before := View();
      go := !exiting || running != 0;
      waiter := if go then Spec.AtAcquire else Spec.Gone;
      longer := events + [Spec.Test];
      Took(start, events, before, Spec.Test);
    }

    method Acquire(ghost start: Spec.State, ghost events: seq<Spec.Event>) returns (ghost longer: seq<Spec.Event>)
      requires Valid() && View() == Spec.Run(start, events) && waiter == Spec.AtAcquire && semaphore > 0
      modifies this`waiter, this`semaphore
      ensures Valid() && View() == Spec.Run(start, longer) && longer == events + [Spec.Acquire]
      ensures waiter == Spec.AtRecheck
    {
      hide Spec.Run, ExecutorProperties.Numbered, ExecutorProperties.DistinctPids;
      ghost var before := View();
      semaphore := semaphore - 1;
      waiter := Spec.AtRecheck;
      longer := events + [Spec.Acquire];
      Took(start, events, before, Spec.Acquire);
    }

    method RecheckWork(ghost start: Spec.State, ghost events: seq<Spec.Event>)
      returns (go: bool, ghost longer: seq<Spec.Event>)
      requires Valid() && View() == Spec.Run(start, events) && waiter == Spec.AtRecheck
      modifies this`waiter
      ensures Valid() && View() == Spec.Run(start, longer) && longer == events + [Spec.Recheck]
      ensures waiter == if go then Spec.InWait else Spec.Gone
      ensures go <==> !exiting || running != 0
    {
      hide Spec.Run, ExecutorProperties.Numbered, ExecutorProperties.DistinctPids;
      ghost var before := View();
      go := !exiting || running != 0;
      waiter := if go then Spec.InWait else Spec.Gone;
      longer := events + [Spec.Recheck];
      Took(start, events, before, Spec.Recheck);
    }

    /** wait returned this child: it leaves the system's table and its callback goes to the thread pool. */
    method Reap(pid: int, ghost start: Spec.State, ghost events: seq<Spec.Event>)
      returns (ghost longer: seq<Spec.Event>)
      requires Valid() && View() == Spec.Run(start, events) && waiter == Spec.InWait
      requires pid in children && children[pid].exit.Some?
      modifies this`waiter, this`children, this`pending
      ensures Valid() && View() == Spec.Run(start, longer) && longer == events + [Spec.Reap(pid)]
      ensures waiter == Spec.AtTest && children == old(children) - {pid}
      ensures pending == old(pending) + [Spec.Callback(pid, old(children)[pid].task, old(children)[pid].exit.value)]
    {
      hide Spec.Run, ExecutorProperties.Numbered, ExecutorProperties.DistinctPids;
      ghost var before := View();
      pending := pending + [Spec.Callback(pid, children[pid].task, children[pid].exit.value)];
      children := children - {pid};
      waiter := Spec.AtTest;
      longer := events + [Spec.Reap(pid)];
      Took(start, events, before, Spec.Reap(pid));
    }

    /** wait failed: the thread leaves when stopping, and otherwise posts a callback for no process. */
    method WaitFailed(ghost start: Spec.State, ghost events: seq<Spec.Event>)
      returns (leave: bool, ghost longer: seq<Spec.Event>)
      requires Valid() && View() == Spec.Run(start, events) && waiter == Spec.InWait && children == map[]
      modifies this`waiter, this`pending
      ensures Valid() && View() == Spec.Run(start, longer) && longer == events + [Spec.NoChild]
      ensures waiter == if leave then Spec.Gone else Spec.AtTest
      ensures leave == exiting
    {
      hide Spec.Run, ExecutorProperties.Numbered, ExecutorProperties.DistinctPids;
      ghost var before := View();
      leave := exiting;
      if leave {
        waiter := Spec.Gone;
      } else {
        pending := pending + [Spec.Callback(-1, 0, -1)];
        waiter := Spec.AtTest;
      }
      longer := events + [Spec.NoChild];
      Took(start, events, before, Spec.NoChild);
    }

    predicate SomeExited()
      reads this
    {
      exists pid :: pid in children && children[pid].exit.Some?
    }

    /** The waiter cannot go on by itself. */
    ghost predicate Blocked()
      reads this
    {
      (waiter == Spec.AtAcquire && semaphore == 0) || (waiter == Spec.InWait && children != map[] && !SomeExited())
    }

    /** The loop of the waiter thread, everything else going on in between.  It ends with the thread gone, or
        blocked longer than `patience` moves of the others, or after `rounds` full rounds of four steps each.
        From a state of the reaping protocol the thread leaves only while stopping, and wait fails only while
        stopping, so no callback is ever posted for no process. */
    method WaiterProc(rounds: nat, patience: nat) returns (over: bool, ghost events: seq<Spec.Event>)
      requires Valid() && waiter == Spec.AtTest && Spec.Reaping(View())
      modifies this, tasks.Values
      ensures Valid() && View() == Spec.Run(old(View()), events) && Spec.Reaping(View())
      ensures over ==> waiter == Spec.Gone && exiting
      ensures !over ==> Blocked() || (waiter == Spec.AtTest && |Spec.WaiterSteps(events)| == 4 * rounds)
      ensures forall c <- pending :: c.pid > 0
    {
      hide View, Valid, Spec.Run, Spec.Reaping, Spec.WaiterSteps, SomeExited;
      ghost var start := View();
      Spec.RunOn(start, [], Spec.Test);
      Spec.WaiterStepsOn([], Spec.Test);
      events := [];
      over := false;
      var blocked, k := false, 0;
      while k < rounds && !over && !blocked
        invariant k <= rounds
        invariant Valid() && fresh(tasks.Values - old(tasks.Values)) && View() == Spec.Run(start, events)
        invariant over ==> waiter == Spec.Gone
        invariant !over && blocked ==> Blocked()
        invariant !over && !blocked ==> waiter == Spec.AtTest && |Spec.WaiterSteps(events)| == 4 * k
        decreases rounds - k, if over || blocked then 0 else 1
      {
        events := Interleave(start, events);
        Spec.WaiterStepsOn(events, Spec.Test);
        var go;
        go, events := TestWork(start, events);
        if go {
          over, blocked, events := WaitOnce(patience, start, events);
          k := k + 1;
        } else {
          over := true;
        }
      }
      Spec.RunKeepsReaping(start, events);
      PendingAreProcesses();
    }

    lemma PendingAreProcesses()
      requires Spec.Reaping(View())
      ensures forall c <- pending :: c.pid > 0
      ensures waiter == Spec.Gone ==> exiting
    {
    }

    ghost function Taken(events: seq<Spec.Event>): seq<Spec.Event> {
      Spec.WaiterSteps(events) + [Spec.Acquire, Spec.Recheck]
    }

    /** wait has returned: with one child, or without any. */
    ghost predicate Waited(before: seq<Spec.Event>, after: seq<Spec.Event>) {
      after == before + [Spec.NoChild] || exists pid :: after == before + [Spec.Reap(pid)]
    }

    /** From the semaphore to the end of the loop body: a token is taken, the test repeated, and one child waited
        for; or the thread leaves after the test or a failed wait; or it is blocked before or after the token. */
    method WaitOnce(patience: nat, ghost start: Spec.State, ghost events: seq<Spec.Event>)
      returns (over: bool, blocked: bool, ghost longer: seq<Spec.Event>)
      requires Valid() && View() == Spec.Run(start, events) && waiter == Spec.AtAcquire
      modifies this, tasks.Values
      ensures Valid() && fresh(tasks.Values - old(tasks.Values)) && View() == Spec.Run(start, longer)
      ensures over ==> waiter == Spec.Gone && !blocked
      ensures over ==> Spec.WaiterSteps(longer) in {Taken(events), Taken(events) + [Spec.NoChild]}
      ensures blocked ==> Blocked() && Spec.WaiterSteps(longer) in {Spec.WaiterSteps(events), Taken(events)}
      ensures !over && !blocked ==> waiter == Spec.AtTest && Waited(Taken(events), Spec.WaiterSteps(longer))
    {
      hide View, Valid, Spec.Run, Spec.WaiterSteps, SomeExited;
      over, blocked, longer := false, false, events;
      var left := patience;
      while semaphore == 0 && left > 0
        invariant Valid() && fresh(tasks.Values - old(tasks.Values)) && View() == Spec.Run(start, longer)
        invariant waiter == Spec.AtAcquire && Spec.WaiterSteps(longer) == Spec.WaiterSteps(events)
        decreases left
      {
        longer := Interleave(start, longer);
        left := left - 1;
      }
      if semaphore == 0 {
        blocked := true;
      } else {
        var go;
        go, longer := TakeToken(start, longer);
        if go {
          over, blocked, longer := WaitForChild(patience, start, longer);
        } else {
          over := true;
        }
      }
    }

    method TakeToken(ghost start: Spec.State, ghost events: seq<Spec.Event>)
      returns (go: bool, ghost longer: seq<Spec.Event>)
      requires Valid() && View() == Spec.Run(start, events) && waiter == Spec.AtAcquire && semaphore > 0
      modifies this, tasks.Values
      ensures Valid() && fresh(tasks.Values - old(tasks.Values)) && View() == Spec.Run(start, longer)
      ensures waiter == if go then Spec.InWait else Spec.Gone
      ensures Spec.WaiterSteps(longer) == Spec.WaiterSteps(events) + [Spec.Acquire, Spec.Recheck]
    {
      hide View, Valid, Spec.Run, Spec.WaiterSteps;
      Spec.WaiterStepsOn(events, Spec.Acquire);
      longer := Acquire(start, events);
      longer := Interleave(start, longer);
      Spec.WaiterStepsOn(longer, Spec.Recheck);
      go, longer := RecheckWork(start, longer);
    }

    /** wait blocks while there are children and none of them has exited, and fails only when there are none. */
    method WaitForChild(patience: nat, ghost start: Spec.State, ghost events: seq<Spec.Event>)
      returns (over: bool, blocked: bool, ghost longer: seq<Spec.Event>)
      requires Valid() && View() == Spec.Run(start, events) && waiter == Spec.InWait
      modifies this, tasks.Values
      ensures Valid() && fresh(tasks.Values - old(tasks.Values)) && View() == Spec.Run(start, longer)
      ensures over ==> waiter == Spec.Gone && !blocked && exiting
      ensures over ==> Spec.WaiterSteps(longer) == Spec.WaiterSteps(events) + [Spec.NoChild]
      ensures blocked ==> Blocked() && waiter == Spec.InWait && Spec.WaiterSteps(longer) == Spec.WaiterSteps(events)
      ensures !over && !blocked ==> waiter == Spec.AtTest && Waited(Spec.WaiterSteps(events), Spec.WaiterSteps(longer))
      ensures Spec.WaiterSteps(longer) == Spec.WaiterSteps(events) + [Spec.NoChild] ==> children == map[] && over == exiting
    {
      hide View, Valid, Spec.Run, Spec.WaiterSteps;
      over, blocked, longer := false, false, events;
      var left := patience;
      while children != map[] && !SomeExited() && left > 0
        invariant Valid() && fresh(tasks.Values - old(tasks.Values)) && View() == Spec.Run(start, longer)
        invariant waiter == Spec.InWait && Spec.WaiterSteps(longer) == Spec.WaiterSteps(events)
        decreases left
      {
        longer := Interleave(start, longer);
        left := left - 1;
      }
      if children == map[] {
        Spec.WaiterStepsOn(longer, Spec.NoChild);
        over, longer := WaitFailed(start, longer);
      } else if pid :| pid in children && children[pid].exit.Some? {
        Spec.WaiterStepsOn(longer, Spec.Reap(pid));
        longer := Reap(pid, start, longer);
        assert Spec.WaiterSteps(longer)[|Spec.WaiterSteps(events)|] == Spec.Reap(pid);
      } else {
        blocked := true;
      }
    }
  }
}
