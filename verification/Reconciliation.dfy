/** A whole heartbeat: the executor reports its tasks, the scheduler answers with the expired ones, the
    executor kills their processes. */
module Reconciliation {
  import opened Seqs
  import opened SchedulerTypes
  import Scheduler
  import SchedulerSpec
  import SchedulerProperties
  import Executor
  import ExecutorSpec
  import ExecutorProperties

  /** `reported` lists the executor's table, each task at least once and nothing else. */
  ghost predicate Reports(reported: seq<RunningTask>, tasks: map<nat, ExecutorSpec.Desc>) {
    && (forall t <- reported :: t.servantTaskId in tasks && tasks[t.servantTaskId].grant == t.grantId)
    && (forall id <- tasks :: exists t :: t in reported && t.servantTaskId == id)
  }

  /** The report a daemon makes of what the executor lists; the digests come from the tasks. */
  function Report(listed: seq<Executor.RunningTask>, location: string, digest: nat -> string): (r: seq<RunningTask>)
    ensures |r| == |listed|
    ensures forall i :: 0 <= i < |r| ==>
      r[i] == RunningTask(listed[i].servantTaskId, listed[i].grantId, location, digest(listed[i].servantTaskId))
  {
    seq(|listed|, i requires 0 <= i < |listed| =>
      RunningTask(listed[i].servantTaskId, listed[i].grantId, location, digest(listed[i].servantTaskId)))
  }

  /** What GetAllTasks promises makes the report a report of the executor's table. */
  lemma ListedIsReported(listed: seq<Executor.RunningTask>, tasks: map<nat, ExecutorSpec.Desc>, location: string,
                         digest: nat -> string)
    requires forall t :: t in listed <==> t.servantTaskId in tasks && t.grantId == tasks[t.servantTaskId].grant
    ensures Reports(Report(listed, location, digest), tasks)
  {
    var reported := Report(listed, location, digest);
    forall t | t in reported ensures t.servantTaskId in tasks && tasks[t.servantTaskId].grant == t.grantId {
      var i :| 0 <= i < |reported| && reported[i] == t;
      assert listed[i] in listed;
    }
    forall id <- tasks ensures exists t :: t in reported && t.servantTaskId == id {
      assert Executor.RunningTask(id, tasks[id].grant) in listed;
      var i :| 0 <= i < |listed| && listed[i] == Executor.RunningTask(id, tasks[id].grant);
      assert reported[i] in reported;
    }
  }

  /** A task's grant is among the ids refused exactly when it is not a live grant of the servant. */
  lemma RefusedExactly(reported: seq<RunningTask>, grants: map<nat, SchedulerSpec.Grant>, sid: nat,
                       tasks: map<nat, ExecutorSpec.Desc>, id: nat)
    requires Reports(reported, tasks) && id in tasks
    ensures
      tasks[id].grant in
        GrantIds(Filter(reported, (r: RunningTask) => !SchedulerSpec.Permitted(grants, sid, r.grantId)))
      <==> !SchedulerSpec.Permitted(grants, sid, tasks[id].grant)
  {
    var refused := Filter(reported, (r: RunningTask) => !SchedulerSpec.Permitted(grants, sid, r.grantId));
    var t :| t in reported && t.servantTaskId == id;
    if !SchedulerSpec.Permitted(grants, sid, t.grantId) {
      var i :| 0 <= i < |refused| && refused[i] == t;
      assert GrantIds(refused)[i] == t.grantId;
    }
    if tasks[id].grant in GrantIds(refused) {
      var i :| 0 <= i < |refused| && GrantIds(refused)[i] == tasks[id].grant;
      assert refused[i] in refused;
    }
  }

  /** KillExpired reaches a running task's process exactly when its grant is listed. */
  lemma KilledExactly(x: ExecutorSpec.State, grants: set<nat>, id: nat)
    requires ExecutorProperties.DistinctPids(x) && ExecutorSpec.Unlocked(x) && id in x.tasks && x.tasks[id].running
    ensures x.tasks[id].pid in ExecutorSpec.Signalled(x, ExecutorSpec.KillExpired(grants)) <==> x.tasks[id].grant in grants
  {
    hide ExecutorSpec.Signalled;
    ExecutorProperties.SignalsExactly(x, ExecutorSpec.KillExpired(grants), x.tasks[id].pid);
  }

  /** An uninterrupted heartbeat of a registered servant kills exactly the processes of the running tasks without a
      live grant, and so none of a task that has one or is over. */
  lemma HeartbeatKillsExactly(s: SchedulerSpec.State, x: ExecutorSpec.State, reported: seq<RunningTask>,
                              location: string, sid: nat)
    requires SchedulerSpec.Inv(s) && SchedulerProperties.HeartbeatOf(s, sid, location)
    requires ExecutorProperties.DistinctPids(x) && ExecutorSpec.Unlocked(x) && Reports(reported, x.tasks)
    ensures var reply := SchedulerSpec.Step(s, SchedulerSpec.Notify(location, reported)).1;
      && reply.Expired?
      && var signalled := ExecutorSpec.Signalled(x, ExecutorSpec.KillExpired(set g <- reply.ids));
         forall p :: p in signalled <==>
           exists id :: id in x.tasks && x.tasks[id].running && x.tasks[id].pid == p
             && !SchedulerSpec.Permitted(s.tasks, sid, x.tasks[id].grant)
  {
    hide SchedulerSpec.Step, SchedulerSpec.Inv, SchedulerSpec.Permitted, Reports, ExecutorSpec.Signalled,
      SchedulerProperties.HeartbeatOf,
      ExecutorProperties.DistinctPids, Filter;
    SchedulerProperties.HeartbeatReconciles(s, location, reported, sid);
    var reply := SchedulerSpec.Step(s, SchedulerSpec.Notify(location, reported)).1;
    forall id <- x.tasks
      ensures x.tasks[id].grant in reply.ids <==> !SchedulerSpec.Permitted(s.tasks, sid, x.tasks[id].grant)
    {
      RefusedExactly(reported, s.tasks, sid, x.tasks, id);
    }
    forall p: int {
      ExecutorProperties.SignalsExactly(x, ExecutorSpec.KillExpired(set g <- reply.ids), p);
    }
  }

  method ReportAll(executor: Executor.Executor, location: string, digest: nat -> string)
    returns (reported: seq<RunningTask>)
    requires executor.Valid()
    ensures Reports(reported, executor.View().tasks)
  {
    hide Reports;
    var listed := executor.GetAllTasks();
    assert forall id <- executor.tasks :: executor.Table()[id].grant == executor.tasks[id].grantId;
    ListedIsReported(listed, executor.Table(), location, digest);
    reported := Report(listed, location, digest);
  }

  /** What killing the refused tasks means on the executor's heap. */
  lemma KillsOnHeap(executor: Executor.Executor, s: SchedulerSpec.State, reported: seq<RunningTask>, location: string,
                    sid: nat, expired: seq<nat>)
    requires SchedulerSpec.Inv(s) && SchedulerProperties.HeartbeatOf(s, sid, location)
    requires executor.Valid() && Reports(reported, executor.View().tasks)
    requires SchedulerSpec.DoNotify(s, location, reported).1 == SchedulerSpec.Expired(expired)
    ensures var signalled := ExecutorSpec.Signalled(executor.View(), ExecutorSpec.KillExpired(set g <- expired));
      forall p :: p in signalled <==>
        exists id :: id in executor.tasks && executor.tasks[id].isRunning && executor.tasks[id].pid == p
          && !SchedulerSpec.Permitted(s.tasks, sid, executor.tasks[id].grantId)
  {
    hide SchedulerSpec.DoNotify, SchedulerSpec.Inv, SchedulerSpec.Permitted, ExecutorSpec.Signalled,
      SchedulerProperties.HeartbeatOf, ExecutorProperties.DistinctPids, Reports;
    HeartbeatKillsExactly(s, executor.View(), reported, location, sid);
    assert executor.View().tasks.Keys == executor.tasks.Keys;
    assert forall id <- executor.tasks :: executor.View().tasks[id] == Executor.DescOf(executor.tasks[id]);
  }

  /** The heartbeat as the two programs perform it, on their own heaps: the executor lists its tasks, the
      dispatcher of the scheduler reconciles them, the executor kills what comes back.  The processes signalled
      are those of the running tasks without a live grant, no more and no fewer: none of a task that is over. */
  method Heartbeat(executor: Executor.Executor, dispatcher: Scheduler.TaskDispatcher, location: string, ghost sid: nat,
                   digest: nat -> string)
    returns (signalled: set<int>)
    requires executor.Valid() && dispatcher.Valid()
    requires SchedulerProperties.HeartbeatOf(dispatcher.View(), sid, location)
    modifies dispatcher`tasks, dispatcher.pool`running, dispatcher.book
    ensures executor.Valid() && dispatcher.Valid()
    ensures forall p :: p in signalled <==>
      exists id :: id in executor.tasks && executor.tasks[id].isRunning && executor.tasks[id].pid == p
        && !SchedulerSpec.Permitted(old(dispatcher.View().tasks), sid, executor.tasks[id].grantId)
  {
    hide SchedulerSpec.DoNotify, SchedulerSpec.Inv, SchedulerSpec.Permitted, ExecutorSpec.Signalled,
      SchedulerProperties.HeartbeatOf, Reports, Executor.Executor.View, Executor.Executor.Valid,
      Scheduler.TaskDispatcher.View, Scheduler.TaskDispatcher.Linked;
    ghost var s := dispatcher.View();
    var reported := ReportAll(executor, location, digest);
    var expired := dispatcher.NotifyServantRunningTasks(location, reported);
    KillsOnHeap(executor, s, reported, location, sid, expired);
    signalled := executor.KillExpiredTasks(set g <- expired);
  }
}
