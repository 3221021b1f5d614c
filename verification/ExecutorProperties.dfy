/** What the executor's threads achieve together: one callback for each child, references that balance,
    callbacks that reach the right descriptor, and no child left behind when the waiter goes. */
module ExecutorProperties {
  import opened Seqs
  import opened ExecutorSpec

  // ---------------------------------------------------------------------------------------------
  // No child is left behind
  // ---------------------------------------------------------------------------------------------

  ghost predicate NothingLeft(s: State) {
    && (s.exiting ==> !s.queueing.Checked?)
    && (s.waiter == Gone ==> s.children == map[])
  }

  lemma StepKeepsNothingLeft(s: State, e: Event)
    requires Reaping(s) && NothingLeft(s)
    requires e.StopFlag? ==> !s.queueing.Checked?
    ensures NothingLeft(Step(s, e))
  {
    hide FreshPid, Stale;
    assert |s.children| == 0 ==> s.children == map[];
  }

  /** No request is between its exit check and its reservation when Stop raises the flag. */
  ghost predicate QuietStops(max: nat, es: seq<Event>) {
    forall k :: 0 <= k < |es| && es[k].StopFlag? ==> !Run(Init(max), es[..k]).queueing.Checked?
  }

  /** Once the waiter thread is gone every child has been waited for, and none will come, in every run
      that keeps Stop out of the gap between a request's exit check and its reservation. */
  lemma {:induction false} NoChildLeftBehind(max: nat, es: seq<Event>)
    requires QuietStops(max, es)
    ensures NothingLeft(Run(Init(max), es))
  {
    hide Step, Reaping;
    if es != [] {
      var front := es[..|es| - 1];
      assert forall k :: 0 <= k < |front| ==> front[..k] == es[..k] && front[k] == es[k];
      NoChildLeftBehind(max, front);
      ReapingAlways(max, front);
      StepKeepsNothingLeft(Run(Init(max), front), es[|es| - 1]);
    }
  }

  lemma Bound(pids: set<int>) returns (b: int)
    ensures b >= 0 && forall pid: int | pid in pids :: pid < b
  {
    b := 0;
    var todo := pids;
    while |todo| > 0
      invariant todo <= pids && b >= 0
      invariant forall pid | pid in pids && pid !in todo :: pid < b
    {
      var x := AnElement(todo);
      todo := todo - {x};
      b := if x < b then b else x + 1;
    }
  }

  /** Tables are finite, so there is always a pid the system can hand out. */
  lemma SomeFreshPid(s: State) returns (pid: int)
    ensures FreshPid(s, pid)
  {
    var held := set id <- s.tasks :: s.tasks[id].pid;
    var b := Bound(s.children.Keys + held);
    pid := b + 1;
    assert forall id <- s.tasks :: s.tasks[id].pid in held;
  }

  /** The waiter is gone, and no request can get past its reservation any more. */
  ghost predicate Closed(s: State) {
    s.exiting && s.waiter == Gone && s.children == map[] && (s.queueing.Checked? ==> s.running >= s.max)
  }

  lemma {:induction false} StaysClosed(s: State, es: seq<Event>)
    requires Closed(s)
    ensures Closed(Run(s, es))
  {
    hide Stale, FreshPid;
    if es != [] {
      StaysClosed(s, es[..|es| - 1]);
    }
  }

  /** Once the waiter has gone with nothing left, some continuation leaves a child, which nobody will ever wait for,
      exactly when a request still stands between its exit check and its reservation with a slot free. */
  lemma LeaksExactly(s: State)
    requires Reaping(s) && s.waiter == Gone && s.children == map[]
    ensures (exists es :: Run(s, es).children != map[]) <==> s.queueing.Checked? && s.running < s.max
  {
    hide Stale, FreshPid, Run;
    if s.queueing.Checked? && s.running < s.max {
      var pid := SomeFreshPid(s);
      var e := Reserve(true, pid);
      RunOn(s, [], e);
      assert pid in Step(s, e).children;
      assert Run(s, [] + [e]).children != map[];
    } else {
      forall es ensures Run(s, es).children == map[] {
        StaysClosed(s, es);
      }
    }
  }

  /** Stop right after a request's exit check: the waiter sees no work, goes, and the child forked next
      stays unreaped whatever follows. */
  lemma LateEntryLeaks(es: seq<Event>)
    ensures var s := Step(Step(Step(Step(Init(1), Enter(5)), StopFlag), Test), Reserve(true, 7));
      s.waiter == Gone && 7 in s.children && 7 in Run(s, es).children
  {
    hide Step, Run;
    LateEntry();
    NeverReaped(Step(Step(Step(Step(Init(1), Enter(5)), StopFlag), Test), Reserve(true, 7)), es, 7);
  }

  lemma LateEntry()
    ensures var s := Step(Step(Step(Step(Init(1), Enter(5)), StopFlag), Test), Reserve(true, 7));
      s.waiter == Gone && 7 in s.children
  {
  }

  lemma {:induction false} NeverReaped(s: State, es: seq<Event>, pid: int)
    requires s.waiter == Gone && pid in s.children
    ensures Run(s, es).waiter == Gone && pid in Run(s, es).children
  {
    hide Stale, FreshPid;
    if es != [] {
      NeverReaped(s, es[..|es| - 1], pid);
    }
  }

  // ---------------------------------------------------------------------------------------------
  // One callback for each child
  // ---------------------------------------------------------------------------------------------

  function Unreaped(children: map<int, Child>, task: nat): set<int> {
    set pid: int | pid in children && children[pid].task == task
  }

  function Waiting(pending: seq<Callback>, task: nat): nat {
    if pending == [] then 0
    else Waiting(pending[..|pending| - 1], task) + if pending[|pending| - 1].task == task then 1 else 0
  }

  /** Children of `task` not yet waited for, and callbacks for it not yet run. */
  function Outstanding(s: State, task: nat): nat {
    |Unreaped(s.children, task)| + Waiting(s.pending, task)
  }

  predicate Forks(s: State, e: Event) {
    Enabled(s, e) && e.Reserve? && s.running < s.max && e.memoryOk
  }

  predicate Delivers(s: State, e: Event, task: nat) {
    Enabled(s, e) && e.RunCallback? && s.pending[e.k].task == task
  }

  lemma {:induction false} WaitingWithout(pending: seq<Callback>, k: nat, task: nat)
    requires k < |pending|
    ensures Waiting(pending, task) ==
      Waiting(pending[..k] + pending[k + 1..], task) + if pending[k].task == task then 1 else 0
  {
    var last := |pending| - 1;
    var rest := pending[..k] + pending[k + 1..];
    if k == last {
      assert rest == pending[..last];
    } else {
      WaitingWithout(pending[..last], k, task);
      assert rest[..|rest| - 1] == pending[..last][..k] + pending[..last][k + 1..];
      assert rest[|rest| - 1] == pending[last];
    }
  }

  lemma StepOutstanding(s: State, e: Event, task: nat)
    requires Reaping(s)
    ensures Outstanding(Step(s, e), task)
      == Outstanding(s, task) + (if Forks(s, e) && s.nextId == task then 1 else 0) - (if Delivers(s, e, task) then 1 else 0)
  {
    hide Stale, Unreaped, FreshPid, Waiting;
    if Enabled(s, e) {
      match e
      case Reserve(_, pid) => NewPid(s, pid); UnreapedPlus(s.children, pid, Child(s.nextId, None), task);
      case ChildExits(pid, code) => UnreapedSame(s.children, pid, s.children[pid].(exit := Some(code)), task);
      case Reap(pid) => ReapOutstanding(s, pid, task);
      case NoChild => assert |s.children| == 0; NoTokenNoChild(s);
      case RunCallback(k, _) => WaitingWithout(s.pending, k, task);
      case _ =>
    }
  }

  lemma ReapOutstanding(s: State, pid: int, task: nat)
    requires Reaping(s) && Enabled(s, Reap(pid))
    ensures Outstanding(Step(s, Reap(pid)), task) == Outstanding(s, task)
  {
    hide Stale, Unreaped, FreshPid;
    UnreapedMinus(s.children, pid, task);
    assert Step(s, Reap(pid)).pending[..|s.pending|] == s.pending;
  }

  lemma NoTokenNoChild(s: State)
    requires Reaping(s) && s.waiter == InWait && s.children == map[]
    ensures s.exiting
  {
    assert |s.children| == 0;
  }

  lemma UnreapedPlus(children: map<int, Child>, pid: int, c: Child, task: nat)
    requires pid !in children
    ensures |Unreaped(children[pid := c], task)| == |Unreaped(children, task)| + if c.task == task then 1 else 0
  {
    var u := Unreaped(children, task);
    assert Unreaped(children[pid := c], task) == if c.task == task then u + {pid} else u;
  }

  lemma UnreapedSame(children: map<int, Child>, pid: int, c: Child, task: nat)
    requires pid in children && c.task == children[pid].task
    ensures Unreaped(children[pid := c], task) == Unreaped(children, task)
  {
  }

  lemma UnreapedMinus(children: map<int, Child>, pid: int, task: nat)
    requires pid in children
    ensures |Unreaped(children - {pid}, task)| == |Unreaped(children, task)| - if children[pid].task == task then 1 else 0
  {
    var u := Unreaped(children - {pid}, task);
    assert Unreaped(children, task) == if children[pid].task == task then u + {pid} else u;
  }

  function Delivered(s: State, es: seq<Event>, task: nat): nat {
    if es == [] then 0
    else Delivered(s, es[..|es| - 1], task) + if Delivers(Run(s, es[..|es| - 1]), es[|es| - 1], task) then 1 else 0
  }

  function Forked(s: State, es: seq<Event>, task: nat): nat {
    if es == [] then 0
    else
      var t := Run(s, es[..|es| - 1]);
      Forked(s, es[..|es| - 1], task) + if Forks(t, es[|es| - 1]) && t.nextId == task then 1 else 0
  }

  lemma IdsOnlyGrow(s: State, e: Event)
    ensures Step(s, e).nextId >= s.nextId
    ensures Forks(s, e) ==> Step(s, e).nextId == s.nextId + 1
  {
    hide Stale, FreshPid;
  }

  /** A task is forked at most once, and its child is unreaped, its callback waits, or its callback has
      run: one of the three, and never twice. */
  lemma {:induction false} OneCallbackEach(max: nat, es: seq<Event>, task: nat)
    ensures var s := Run(Init(max), es);
      && Outstanding(s, task) + Delivered(Init(max), es, task) == Forked(Init(max), es, task) <= 1
      && (task >= s.nextId ==> Forked(Init(max), es, task) == 0)
  {
    hide Step, Reaping, Forks, Delivers;
    if es == [] {
      assert Unreaped(map[], task) == {};
    } else {
      var front, e := es[..|es| - 1], es[|es| - 1];
      OneCallbackEach(max, front, task);
      ReapingAlways(max, front);
      StepOutstanding(Run(Init(max), front), e, task);
      IdsOnlyGrow(Run(Init(max), front), e);
    }
  }

  // ---------------------------------------------------------------------------------------------
  // References
  // ---------------------------------------------------------------------------------------------

  function Adds(s: State, es: seq<Event>, id: nat): nat {
    if es == [] then 0
    else
      var t, e := Run(s, es[..|es| - 1]), es[|es| - 1];
      Adds(s, es[..|es| - 1], id) + if e == AddRef(id) && Enabled(t, e) then 1 else 0
  }

  function Frees(s: State, es: seq<Event>, id: nat): nat {
    if es == [] then 0
    else
      var t, e := Run(s, es[..|es| - 1]), es[|es| - 1];
      Frees(s, es[..|es| - 1], id) + if e == Free(id) && Enabled(t, e) then 1 else 0
  }

  ghost predicate Numbered(s: State) {
    forall id <- s.tasks :: id < s.nextId && s.tasks[id].refs >= 1
  }

  lemma StepRefs(s: State, e: Event, id: nat)
    requires Numbered(s)
    ensures var t := Step(s, e);
      && Numbered(t)
      && (id in t.tasks && id in s.tasks ==>
            t.tasks[id].refs == s.tasks[id].refs
              + (if e == AddRef(id) && Enabled(s, e) then 1 else 0)
              - (if e == Free(id) && Enabled(s, e) then 1 else 0))
      && (id in t.tasks && id !in s.tasks ==> id == s.nextId && t.tasks[id].refs == 1)
  {
    hide FreshPid;
  }

  /** An entry of the table holds one reference more than were added and not given back. */
  lemma {:induction false} ReferencesBalance(max: nat, es: seq<Event>, id: nat)
    ensures var s := Run(Init(max), es);
      && Numbered(s)
      && (id in s.tasks ==> s.tasks[id].refs == 1 + Adds(Init(max), es, id) - Frees(Init(max), es, id))
      && (id >= s.nextId ==> Adds(Init(max), es, id) == Frees(Init(max), es, id) == 0)
  {
    hide Step;
    if es != [] {
      var front, e := es[..|es| - 1], es[|es| - 1];
      ReferencesBalance(max, front, id);
      StepRefs(Run(Init(max), front), e, id);
      IdsOnlyGrow(Run(Init(max), front), e);
    }
  }

  /** The only two ways out of the table: the last reference is freed, or the task completed more than a
      minute ago.  Freeing the last reference of a running task, and nothing else, dooms its process. */
  lemma LeavesExactly(s: State, e: Event, id: nat)
    requires Numbered(s) && id in s.tasks && Enabled(s, e)
    ensures id !in Step(s, e).tasks <==>
      || (e == Free(id) && s.tasks[id].refs == 1)
      || (e.Clean? && !s.tasks[id].running && s.tasks[id].completed + CLEAN_AFTER < e.now)
    ensures Step(s, e).doomed[Doomed(s.tasks[id].pid, id)] > s.doomed[Doomed(s.tasks[id].pid, id)] <==>
      id !in Step(s, e).tasks && s.tasks[id].running
  {
    hide FreshPid;
  }

  /** No two descriptors of the table hold the same pid. */
  ghost predicate DistinctPids(s: State) {
    forall a, b :: a in s.tasks && b in s.tasks && s.tasks[a].pid == s.tasks[b].pid ==> a == b
  }

  lemma StepKeepsDistinctPids(s: State, e: Event)
    requires DistinctPids(s)
    ensures DistinctPids(Step(s, e))
  {
    if e.Reserve? && Enabled(s, e) {
      assert forall id <- s.tasks :: s.tasks[id].pid == e.pid ==> id in Holders(s.tasks, e.pid);
    }
  }

  lemma {:induction false} PidsAlwaysDistinct(max: nat, es: seq<Event>)
    ensures DistinctPids(Run(Init(max), es))
  {
    hide Step;
    if es != [] {
      PidsAlwaysDistinct(max, es[..|es| - 1]);
      StepKeepsDistinctPids(Run(Init(max), es[..|es| - 1]), es[|es| - 1]);
    }
  }

  /** TryQueueTask run from end to end. */
  function Queue(s: State, grant: nat, memoryOk: bool, pid: int): State {
    Step(Step(Step(s, Enter(grant)), Reserve(memoryOk, pid)), Publish)
  }

  lemma QueueInOne(s: State, grant: nat, memoryOk: bool, pid: int)
    requires Unlocked(s) && FreshPid(s, pid) && Numbered(s) && DistinctPids(s)
    ensures Queue(s, grant, memoryOk, pid) ==
      if s.exiting then s
      else if s.running + 1 > s.max || !memoryOk then s.(nextId := s.nextId + 1)
      else s.(nextId := s.nextId + 1, running := s.running + 1, semaphore := s.semaphore + 1,
              tasks := s.tasks[s.nextId := Desc(pid, grant, 1, true, 0)],
              children := s.children[pid := Child(s.nextId, None)])
    ensures Numbered(Queue(s, grant, memoryOk, pid)) && DistinctPids(Queue(s, grant, memoryOk, pid))
  {
    hide Numbered, DistinctPids;
    var t := Step(s, Enter(grant));
    assert FreshPid(t, pid);
    var u := Step(t, Reserve(memoryOk, pid));
    StepRefs(s, Enter(grant), 0);
    StepRefs(t, Reserve(memoryOk, pid), 0);
    StepRefs(u, Publish, 0);
    StepKeepsDistinctPids(s, Enter(grant));
    StepKeepsDistinctPids(t, Reserve(memoryOk, pid));
    StepKeepsDistinctPids(u, Publish);
  }

  /** Stop run from end to end. */
  function Halt(s: State): State {
    Step(Step(Step(s, StopFlag), StopKill), StopRelease)
  }

  lemma HaltInOne(s: State)
    requires Unlocked(s)
    ensures Halt(s) == s.(exiting := true, semaphore := s.semaphore + 1)
    ensures Signalled(Step(s, StopFlag), StopKill) == Pids(s.tasks, Running(s.tasks))
    ensures (Numbered(s) ==> Numbered(Halt(s))) && (DistinctPids(s) ==> DistinctPids(Halt(s)))
  {
  }

  // ---------------------------------------------------------------------------------------------
  // The bound of the semaphore
  // ---------------------------------------------------------------------------------------------

  /** The semaphore is declared for at most one token.  Before Stop it holds no more exactly while no two children
      wait for the waiter: besides the one it has a token for, and the one whose token is not out yet. */
  lemma SemaphoreBoundExactly(max: nat, es: seq<Event>)
    requires !Run(Init(max), es).exiting
    ensures var s := Run(Init(max), es);
      s.semaphore <= 1 <==> |s.children| <= 1 + Inside(s) + if s.queueing.Forked? then 1 else 0
  {
    ReapingAlways(max, es);
  }

  lemma {:induction false} RunKeepsMax(s: State, es: seq<Event>)
    ensures Run(s, es).max == s.max
  {
    hide Step;
    if es != [] {
      RunKeepsMax(s, es[..|es| - 1]);
      StepKeepsMax(Run(s, es[..|es| - 1]), es[|es| - 1]);
    }
  }

  lemma StepKeepsMax(s: State, e: Event)
    ensures Step(s, e).max == s.max
  {
    hide FreshPid, HasWork, Completed, Stale;
  }

  /** `n` requests queued one after another before the waiter moves. */
  function Burst(n: nat): seq<Event> {
    if n == 0 then [] else Burst(n - 1) + [Enter(0), Reserve(true, n), Publish]
  }

  lemma {:induction false} BurstFills(max: nat, n: nat)
    requires n <= max
    ensures var s := Run(Init(max), Burst(n));
      && !s.exiting && Unlocked(s) && s.running == s.semaphore == n && s.max == max
      && Numbered(s) && DistinctPids(s)
      && (forall pid: int <- s.children :: pid <= n) && (forall id <- s.tasks :: s.tasks[id].pid <= n)
  {
    hide Run, Step, Numbered, DistinctPids;
    if n == 0 {
      FirstIsNumbered(max);
    } else {
      BurstFills(max, n - 1);
      var s := Run(Init(max), Burst(n - 1));
      assert FreshPid(s, n);
      QueueInOne(s, 0, true, n);
      RunQueue(Init(max), Burst(n - 1), 0, true, n);
    }
  }

  lemma FirstIsNumbered(max: nat)
    ensures Run(Init(max), []) == Init(max) && Numbered(Init(max)) && DistinctPids(Init(max))
  {
  }

  lemma RunQueue(s: State, es: seq<Event>, grant: nat, memoryOk: bool, pid: int)
    ensures Run(s, es + [Enter(grant), Reserve(memoryOk, pid), Publish]) == Queue(Run(s, es), grant, memoryOk, pid)
  {
    hide Run, Step;
    RunOn(s, es, Enter(grant));
    RunOn(s, es + [Enter(grant)], Reserve(memoryOk, pid));
    RunOn(s, es + [Enter(grant)] + [Reserve(memoryOk, pid)], Publish);
    assert es + [Enter(grant), Reserve(memoryOk, pid), Publish]
        == es + [Enter(grant)] + [Reserve(memoryOk, pid)] + [Publish];
  }

  /** With a limit of one task no run breaks the bound before Stop; with any higher one a burst of requests does. */
  lemma BoundKeptExactly(max: nat)
    ensures (forall es :: !Run(Init(max), es).exiting ==> Run(Init(max), es).semaphore <= 1) <==> max <= 1
  {
    hide Run;
    if max <= 1 {
      forall es | !Run(Init(max), es).exiting ensures Run(Init(max), es).semaphore <= 1 {
        ReapingAlways(max, es);
        RunKeepsMax(Init(max), es);
      }
    } else {
      BurstFills(max, 2);
      assert Run(Init(max), Burst(2)).semaphore == 2;
    }
  }

  /** The only ways for the waiter thread to end: one of its two tests while stopping with nothing running, or a wait
      that fails while stopping. */
  lemma WaiterEndsExactly(s: State, e: Event)
    requires s.waiter != Gone
    ensures Step(s, e).waiter == Gone <==>
      && s.exiting
      && ((e.Test? && s.waiter == AtTest && s.running == 0)
          || (e.Recheck? && s.waiter == AtRecheck && s.running == 0)
          || (e.NoChild? && s.waiter == InWait && s.children == map[]))
  {
    hide FreshPid, DoReserve, DoCallback, DoFree, Stale;
    if e.Reserve? || e.RunCallback? || e.Free? {
      OthersKeepWaiter(s, e);
    }
  }

  lemma OthersKeepWaiter(s: State, e: Event)
    requires e.Reserve? || e.RunCallback? || e.Free?
    ensures Step(s, e).waiter == s.waiter
  {
    hide FreshPid, Stale, Completed;
  }

  // ---------------------------------------------------------------------------------------------
  // Who is signalled
  // ---------------------------------------------------------------------------------------------

  /** Exactly the processes a step signals: under the mutex those of running tasks, all of them when stopping and else
      those whose grant is listed; without it that of a task freed while running. */
  lemma SignalsExactly(s: State, e: Event, p: int)
    ensures p in Signalled(s, e) <==>
      || (e.KillExpired? && s.queueing.Idle?
          && exists id :: id in s.tasks && s.tasks[id].running && s.tasks[id].grant in e.grants && s.tasks[id].pid == p)
      || (e.StopKill? && s.queueing.Idle? && s.exiting
          && exists id :: id in s.tasks && s.tasks[id].running && s.tasks[id].pid == p)
      || (e.KillFreed? && e.doomed in s.doomed && e.doomed.pid == p)
  {
    hide FreshPid;
    if e.KillExpired? {
      assert forall id <- s.tasks :: s.tasks[id].running && s.tasks[id].grant in e.grants ==>
        id in Condemned(s.tasks, e.grants);
    } else if e.StopKill? {
      assert forall id <- s.tasks :: s.tasks[id].running ==> id in Running(s.tasks);
    }
  }

  // ---------------------------------------------------------------------------------------------
  // Which descriptor a callback reaches
  // ---------------------------------------------------------------------------------------------

  /** What every process owes its descriptor: as long as the task is in the table it holds the pid and
      counts as running, and no other descriptor holds that pid. */
  ghost predicate Matches(tasks: map<nat, Desc>, pid: int, task: nat) {
    && (task in tasks ==> tasks[task].pid == pid && tasks[task].running)
    && Holders(tasks, pid) <= {task}
  }

  ghost predicate Linked(s: State) {
    && (forall pid: int <- s.children :: s.children[pid].task < s.nextId && Matches(s.tasks, pid, s.children[pid].task))
    && (forall c <- s.pending :: c.task < s.nextId && Matches(s.tasks, c.pid, c.task))
    && (forall i, j :: 0 <= i < j < |s.pending| ==> s.pending[i].pid != s.pending[j].pid)
    && (forall c <- s.pending :: c.pid !in s.children)
    && (forall id <- s.tasks :: id < s.nextId)
  }

  /** The signal owed to a freed task can only reach that task's process. */
  ghost predicate Aimed(s: State) {
    forall d <- s.doomed :: d.task < s.nextId && Aims(s, d)
  }

  ghost predicate Attributed(s: State) {
    Linked(s) && Aimed(s) && DistinctPids(s)
  }

  /** No other child and no descriptor bears the pid, and a callback waiting under it is the task's own. */
  ghost predicate Aims(s: State, d: Doomed) {
    && d.task !in s.tasks && Holders(s.tasks, d.pid) == {}
    && (d.pid in s.children ==> s.children[d.pid].task == d.task)
    && (forall c <- s.pending :: c.pid == d.pid ==> c.task == d.task)
  }

  /** No pid is handed out again while the callback of its last bearer, or the signal owed to a freed one, is
      still to come. */
  ghost predicate NoEarlyReuse(s: State, e: Event) {
    e.Reserve? ==> (forall c <- s.pending :: c.pid != e.pid) && (forall d <- s.doomed :: d.pid != e.pid)
  }

  /** `b` keeps some of the descriptors of `a`, with their pids and whether they run. */
  ghost predicate Under(a: map<nat, Desc>, b: map<nat, Desc>) {
    forall id <- b :: id in a && b[id].pid == a[id].pid && b[id].running == a[id].running
  }

  lemma MatchesUnder(a: map<nat, Desc>, b: map<nat, Desc>, pid: int, task: nat)
    requires Under(a, b) && Matches(a, pid, task)
    ensures Matches(b, pid, task)
  {
  }

  lemma LinkedUnder(s: State, t: State)
    requires Linked(s) && Under(s.tasks, t.tasks) && t.nextId >= s.nextId
    requires t.pending == s.pending && t.children.Keys == s.children.Keys
    requires forall pid: int <- s.children :: t.children[pid].task == s.children[pid].task
    ensures Linked(t)
  {
    hide Matches;
    forall pid, task | Matches(s.tasks, pid, task) ensures Matches(t.tasks, pid, task) {
      MatchesUnder(s.tasks, t.tasks, pid, task);
    }
  }

  lemma AimedUnder(s: State, t: State)
    requires Aimed(s) && Under(s.tasks, t.tasks) && t.nextId >= s.nextId
    requires t.pending == s.pending && t.children.Keys == s.children.Keys && t.doomed <= s.doomed
    requires forall pid: int <- s.children :: t.children[pid].task == s.children[pid].task
    ensures Aimed(t)
  {
    forall d | d in t.doomed ensures d.task < t.nextId && Aims(t, d) {
      assert d in s.doomed;
      assert Holders(t.tasks, d.pid) <= Holders(s.tasks, d.pid);
    }
  }

  lemma ReserveKeepsLinked(s: State, e: Event)
    requires Linked(s) && Enabled(s, e) && e.Reserve? && NoEarlyReuse(s, e)
    ensures Linked(Step(s, e))
  {
  }

  lemma ReserveKeepsAimed(s: State, e: Event)
    requires Aimed(s) && Enabled(s, e) && e.Reserve? && NoEarlyReuse(s, e)
    ensures Aimed(Step(s, e))
  {
    var t := Step(s, e);
    forall d | d in t.doomed ensures d.task < t.nextId && Aims(t, d) {
      assert Holders(t.tasks, d.pid) == Holders(s.tasks, d.pid);
    }
  }

  lemma ReapKeepsLinked(s: State, e: Event)
    requires Linked(s) && Enabled(s, e) && e.Reap?
    ensures Linked(Step(s, e))
  {
    hide Matches;
  }

  lemma ReapKeepsAimed(s: State, e: Event)
    requires Aimed(s) && Enabled(s, e) && e.Reap?
    ensures Aimed(Step(s, e))
  {
    hide Holders;
  }

  lemma CompletedElsewhere(s: State, k: nat, now: int, pid: int, task: nat)
    requires k < |s.pending| && Matches(s.tasks, pid, task) && pid != s.pending[k].pid
    ensures Matches(DoCallback(s, k, now).tasks, pid, task)
  {
  }

  lemma CallbackKeepsLinked(s: State, e: Event)
    requires Linked(s) && Enabled(s, e) && e.RunCallback?
    ensures Linked(Step(s, e))
  {
    hide Matches;
    var done := s.pending[e.k].pid;
    forall pid, task | Matches(s.tasks, pid, task) && pid != done ensures Matches(Step(s, e).tasks, pid, task) {
      CompletedElsewhere(s, e.k, e.now, pid, task);
    }
  }

  lemma CallbackKeepsAimed(s: State, e: Event)
    requires Aimed(s) && Enabled(s, e) && e.RunCallback?
    ensures Aimed(Step(s, e))
  {
    var t := Step(s, e);
    forall d | d in t.doomed ensures d.task < t.nextId && Aims(t, d) {
      assert Holders(t.tasks, d.pid) == Holders(s.tasks, d.pid);
    }
  }

  /** The last reference freed: the task itself was the one the process was forked for. */
  lemma FreeKeepsAimed(s: State, e: Event)
    requires Attributed(s) && Enabled(s, e) && e.Free?
    ensures Aimed(Step(s, e))
  {
    hide Matches;
    var t := Step(s, e);
    if t.doomed != s.doomed {
      var d := Doomed(s.tasks[e.id].pid, e.id);
      FreedWasOwner(s, e.id);
      assert Holders(t.tasks, d.pid) == {};
    }
    forall d | d in s.doomed ensures d.task < t.nextId && Aims(t, d) {
      assert Holders(t.tasks, d.pid) <= Holders(s.tasks, d.pid);
    }
  }

  lemma FreedWasOwner(s: State, id: nat)
    requires Linked(s) && id in s.tasks
    ensures var pid := s.tasks[id].pid;
      && (pid in s.children ==> s.children[pid].task == id)
      && (forall c <- s.pending :: c.pid == pid ==> c.task == id)
  {
    assert id in Holders(s.tasks, s.tasks[id].pid);
  }

  lemma StepKeepsLinked(s: State, e: Event)
    requires Reaping(s) && Linked(s) && NoEarlyReuse(s, e)
    ensures Linked(Step(s, e))
  {
    hide Reaping, Linked, Enabled, NoEarlyReuse, Step, Under;
    match e
    case Reserve(_, _) => if Enabled(s, e) { ReserveKeepsLinked(s, e); } else { Stutters(s, e); }
    case Reap(_) => if Enabled(s, e) { ReapKeepsLinked(s, e); } else { Stutters(s, e); }
    case RunCallback(_, _) => if Enabled(s, e) { CallbackKeepsLinked(s, e); } else { Stutters(s, e); }
    case NoChild => NoChildChangesNothing(s); LinkedUnder(s, Step(s, e));
    case _ => OthersRemove(s, e); LinkedUnder(s, Step(s, e));
  }

  lemma Stutters(s: State, e: Event)
    requires !Enabled(s, e)
    ensures Step(s, e) == s
  {
  }

  /** In the reaping protocol a failed wait only ends the thread. */
  lemma NoChildChangesNothing(s: State)
    requires Reaping(s)
    ensures var t := Step(s, NoChild);
      t.tasks == s.tasks && t.pending == s.pending && t.children == s.children && t.nextId == s.nextId
      && t.doomed == s.doomed && Under(s.tasks, t.tasks)
  {
    if Enabled(s, NoChild) {
      NoTokenNoChild(s);
    }
  }

  /** The other steps take descriptors away at most, and leave children and callbacks to their tasks. */
  lemma OthersRemove(s: State, e: Event)
    requires !e.Reserve? && !e.Reap? && !e.RunCallback? && !e.NoChild?
    ensures var t := Step(s, e);
      && Under(s.tasks, t.tasks) && t.nextId == s.nextId && t.pending == s.pending
      && t.children.Keys == s.children.Keys && (!e.Free? ==> t.doomed <= s.doomed)
      && forall pid: int <- s.children :: t.children[pid].task == s.children[pid].task
  {
    hide DoReserve, DoCallback, DoNoChild, FreshPid, HasWork, DoFree, Stale, Under;
    if e.Free? {
      if Enabled(s, e) { FreeRemoves(s, e.id); }
    } else {
      RequestRemoves(s, e);
    }
    SameIsUnder(s.tasks);
  }

  lemma SameIsUnder(tasks: map<nat, Desc>)
    ensures Under(tasks, tasks)
  {
  }

  lemma FreeRemoves(s: State, id: nat)
    requires id in s.tasks
    ensures var t := DoFree(s, id);
      Under(s.tasks, t.tasks) && t == s.(tasks := t.tasks, doomed := t.doomed)
  {
  }

  lemma RequestRemoves(s: State, e: Event)
    ensures e.AddRef? && e.id in s.tasks ==>
      Under(s.tasks, s.tasks[e.id := s.tasks[e.id].(refs := s.tasks[e.id].refs + 1)])
    ensures e.Clean? ==> Under(s.tasks, s.tasks - Stale(s.tasks, e.now))
  {
  }

  lemma StepKeepsAttributed(s: State, e: Event)
    requires Reaping(s) && Attributed(s) && NoEarlyReuse(s, e)
    ensures Attributed(Step(s, e))
  {
    hide Reaping, Linked, Aimed, Enabled, Step, Under, NoEarlyReuse, DistinctPids;
    StepKeepsLinked(s, e);
    StepKeepsDistinctPids(s, e);
    match e
    case Reserve(_, _) => if Enabled(s, e) { ReserveKeepsAimed(s, e); } else { Stutters(s, e); }
    case Reap(_) => if Enabled(s, e) { ReapKeepsAimed(s, e); } else { Stutters(s, e); }
    case RunCallback(_, _) => if Enabled(s, e) { CallbackKeepsAimed(s, e); } else { Stutters(s, e); }
    case Free(_) => if Enabled(s, e) { FreeKeepsAimed(s, e); } else { Stutters(s, e); }
    case NoChild => NoChildChangesNothing(s); AimedUnder(s, Step(s, e));
    case _ => OthersRemove(s, e); AimedUnder(s, Step(s, e));
  }

  ghost predicate NeverEarlyReuse(max: nat, es: seq<Event>) {
    forall k :: 0 <= k < |es| ==> NoEarlyReuse(Run(Init(max), es[..k]), es[k])
  }

  lemma {:induction false} AttributedAlways(max: nat, es: seq<Event>)
    requires NeverEarlyReuse(max, es)
    ensures Attributed(Run(Init(max), es))
  {
    hide Step, Reaping;
    if es != [] {
      var front := es[..|es| - 1];
      assert forall k :: 0 <= k < |front| ==> front[..k] == es[..k] && front[k] == es[k];
      AttributedAlways(max, front);
      ReapingAlways(max, front);
      assert es[..|es| - 1] == front;
      StepKeepsAttributed(Run(Init(max), front), es[|es| - 1]);
    }
  }

  /** A callback completes the descriptor its process was forked for and no other; it finds none exactly
      when that one has been freed, and gives the slot back all the same. */
  lemma CallbackFindsItsTask(max: nat, es: seq<Event>, k: nat, now: int)
    requires NeverEarlyReuse(max, es)
    requires Enabled(Run(Init(max), es), RunCallback(k, now))
    ensures var s := Run(Init(max), es);
      var t := Step(s, RunCallback(k, now));
      var task := s.pending[k].task;
      && t.running == s.running - 1
      && t.tasks.Keys == s.tasks.Keys
      && (forall id <- t.tasks :: t.tasks[id] ==
            if id == task then s.tasks[id].(running := false, completed := now) else s.tasks[id])
      && (task in s.tasks ==> s.tasks[task].running)
      && (Holders(s.tasks, s.pending[k].pid) == {} <==> task !in s.tasks)
  {
    hide Run, Step, Attributed;
    AttributedAlways(max, es);
    CallbackReaches(Run(Init(max), es), k, now);
  }

  /** The signal owed to a freed task reaches no other task: whatever child or callback bears the pid is its own, and
      no descriptor does. */
  lemma SignalFindsItsProcess(max: nat, es: seq<Event>, d: Doomed)
    requires NeverEarlyReuse(max, es)
    requires Enabled(Run(Init(max), es), KillFreed(d))
    ensures var s := Run(Init(max), es);
      && Signalled(s, KillFreed(d)) == {d.pid}
      && d.task !in s.tasks && Holders(s.tasks, d.pid) == {}
      && (d.pid in s.children ==> s.children[d.pid].task == d.task)
  {
    hide Run, Linked, DistinctPids;
    AttributedAlways(max, es);
  }

  lemma CallbackReaches(s: State, k: nat, now: int)
    requires Attributed(s) && Enabled(s, RunCallback(k, now))
    ensures var t := Step(s, RunCallback(k, now));
      var task := s.pending[k].task;
      && t.running == s.running - 1
      && t.tasks.Keys == s.tasks.Keys
      && (forall id <- t.tasks :: t.tasks[id] ==
            if id == task then s.tasks[id].(running := false, completed := now) else s.tasks[id])
      && (task in s.tasks ==> s.tasks[task].running)
      && (Holders(s.tasks, s.pending[k].pid) == {} <==> task !in s.tasks)
  {
    var pid, task := s.pending[k].pid, s.pending[k].task;
    assert s.pending[k] in s.pending;
    assert Matches(s.tasks, pid, task);
    forall id <- s.tasks ensures s.tasks[id].pid == pid <==> id == task {
      assert s.tasks[id].pid == pid ==> id in Holders(s.tasks, pid);
    }
    assert task in s.tasks ==> task in Holders(s.tasks, pid);
  }

  /** Handing out a pid keeps callbacks and signals with their own tasks exactly when no earlier bearer of the pid
      is still owed one. */
  lemma AttributedExactly(s: State, e: Event)
    requires Attributed(s) && Forks(s, e)
    ensures Attributed(Step(s, e)) <==> NoEarlyReuse(s, e)
  {
    hide DistinctPids, FreshPid;
    StepKeepsDistinctPids(s, e);
    if NoEarlyReuse(s, e) {
      ReserveKeepsLinked(s, e);
      ReserveKeepsAimed(s, e);
    } else {
      assert s.nextId in Holders(Step(s, e).tasks, e.pid);
    }
  }

  /** A step completes the running task `id` whose process has pid `pid`, or sends that process the signal owed to
      a freed task. */
  ghost predicate Misleads(s: State, e: Event, id: nat, pid: int) {
    && Enabled(s, e) && id in s.tasks && s.tasks[id].running
    && ((e.RunCallback? && id in Step(s, e).tasks && !Step(s, e).tasks[id].running)
        || (e.KillFreed? && pid in Signalled(s, e)))
  }

  /** What can be seen of it: with the new process started, some callback or some owed signal hits the new task at
      once exactly when its pid was handed out too early. */
  lemma MisleadsExactly(s: State, e: Event)
    requires Forks(s, e)
    ensures var t := Step(Step(s, e), Publish);
      (exists f :: Misleads(t, f, s.nextId, e.pid)) <==> !NoEarlyReuse(s, e)
  {
    hide FreshPid;
    var t := Step(Step(s, e), Publish);
    Started(s, e);
    if k :| 0 <= k < |s.pending| && s.pending[k].pid == e.pid {
      assert Misleads(t, RunCallback(k, 0), s.nextId, e.pid);
    }
    if d :| d in s.doomed && d.pid == e.pid {
      assert Misleads(t, KillFreed(d), s.nextId, e.pid);
    }
  }

  lemma Started(s: State, e: Event)
    requires Forks(s, e)
    ensures var t := Step(Step(s, e), Publish);
      && Unlocked(t) && t.pending == s.pending && t.doomed == s.doomed
      && s.nextId in t.tasks && t.tasks[s.nextId] == Desc(e.pid, s.queueing.grant, 1, true, 0)
  {
    hide FreshPid;
  }

  // ---------------------------------------------------------------------------------------------
  // A run in which a pid is reused too early
  // ---------------------------------------------------------------------------------------------

  /** A process exits and is waited for, and its task is freed and signalled, before its callback has run; then a
      second request passes its exit check. */
  function FreedBeforeCallback(): seq<Event> {
    [Enter(5), Reserve(true, 7), Publish, ChildExits(7, 9), Test, Acquire, Recheck, Reap(7), Free(1),
     KillFreed(Doomed(7, 1)), Enter(6)]
  }

  /** The state this run leads to from the start. */
  function AwaitingReuse(): State {
    State(false, 2, 1, 2, map[], 0, Checked(6), AtTest, map[], [Callback(7, 1, 9)], multiset{})
  }

  function Held(): map<nat, Desc> {
    map[1 := Desc(7, 5, 1, true, 0)]
  }

  /** The states on the way, in order. */
  function Along(k: nat): State
    requires k <= 11
  {
    match k
    case 0 => Init(2)
    case 1 => State(false, 1, 0, 2, map[], 0, Checked(5), AtTest, map[], [], multiset{})
    case 2 => State(false, 2, 1, 2, Held(), 0, Queueing.Forked, AtTest, map[7 := Child(1, None)], [], multiset{})
    case 3 => State(false, 2, 1, 2, Held(), 1, Idle, AtTest, map[7 := Child(1, None)], [], multiset{})
    case 4 => State(false, 2, 1, 2, Held(), 1, Idle, AtTest, map[7 := Child(1, Some(9))], [], multiset{})
    case 5 => State(false, 2, 1, 2, Held(), 1, Idle, AtAcquire, map[7 := Child(1, Some(9))], [], multiset{})
    case 6 => State(false, 2, 1, 2, Held(), 0, Idle, AtRecheck, map[7 := Child(1, Some(9))], [], multiset{})
    case 7 => State(false, 2, 1, 2, Held(), 0, Idle, InWait, map[7 := Child(1, Some(9))], [], multiset{})
    case 8 => State(false, 2, 1, 2, Held(), 0, Idle, AtTest, map[], [Callback(7, 1, 9)], multiset{})
    case 9 => State(false, 2, 1, 2, map[], 0, Idle, AtTest, map[], [Callback(7, 1, 9)], multiset{Doomed(7, 1)})
    case 10 => State(false, 2, 1, 2, map[], 0, Idle, AtTest, map[], [Callback(7, 1, 9)], multiset{})
    case _ => AwaitingReuse()
  }

  lemma FirstSteps()
    ensures Step(Along(0), Enter(5)) == Along(1) && Step(Along(2), Publish) == Along(3)
    ensures Step(Along(3), ChildExits(7, 9)) == Along(4)
  {
  }

  lemma ForkStep()
    ensures Step(Along(1), Reserve(true, 7)) == Along(2)
  {
    assert FreshPid(Along(1), 7);
  }

  lemma WaiterOneByOne()
    ensures Step(Along(4), Test) == Along(5) && Step(Along(5), Acquire) == Along(6)
    ensures Step(Along(6), Recheck) == Along(7)
  {
  }

  lemma ReapStep()
    ensures Step(Along(7), Reap(7)) == Along(8)
  {
  }

  lemma FreedStep()
    ensures Step(Along(8), Free(1)) == Along(9)
  {
    FreeStep(Along(8), 1);
    assert Held() - {1} == map[];
  }

  lemma SignalledStep()
    ensures Step(Along(9), KillFreed(Doomed(7, 1))) == Along(10)
  {
  }

  lemma NextRequestStep()
    ensures Step(Along(10), Enter(6)) == Along(11)
  {
  }

  lemma EachStep(k: nat)
    requires k < 11
    ensures |FreedBeforeCallback()| == 11 && Step(Along(k), FreedBeforeCallback()[k]) == Along(k + 1)
  {
    hide Step, Along;
    FirstSteps();
    ForkStep();
    WaiterOneByOne();
    ReapStep();
    FreedStep();
    SignalledStep();
    NextRequestStep();
    assert k == 0 || k == 1 || k == 2 || k == 3 || k == 4 || k == 5 || k == 6 || k == 7 || k == 8 || k == 9 || k == 10;
  }

  lemma {:induction false} UntilStep(k: nat)
    requires k <= 11
    ensures Run(Init(2), FreedBeforeCallback()[..k]) == Along(k)
  {
    hide Step, Run, FreedBeforeCallback;
    if k == 0 {
      RunOn(Init(2), [], Test);
    } else {
      var es := FreedBeforeCallback();
      EachStep(k - 1);
      UntilStep(k - 1);
      RunOn(Init(2), es[..k - 1], es[k - 1]);
      assert es[..k - 1] + [es[k - 1]] == es[..k];
    }
  }

  lemma UntilReuse()
    ensures Run(Init(2), FreedBeforeCallback()) == AwaitingReuse()
  {
    UntilStep(11);
    assert FreedBeforeCallback()[..11] == FreedBeforeCallback();
  }

  /** A run from the start leads to a state in which the same pid can be handed out again; the callback still
      waiting then completes the new task while its process is running. */
  lemma EarlyReuseMisleads()
    ensures var s := Run(Init(2), FreedBeforeCallback());
      var t := Step(Step(Step(s, Reserve(true, 7)), Publish), RunCallback(0, 3));
      && Forks(s, Reserve(true, 7)) && !NoEarlyReuse(s, Reserve(true, 7))
      && 2 in t.tasks && !t.tasks[2].running && 7 in t.children && t.children[7] == Child(2, None)
  {
    hide Run;
    UntilReuse();
    var s := AwaitingReuse();
    assert FreshPid(s, 7);
    var started := Step(s, Reserve(true, 7));
    assert started.children == map[7 := Child(2, None)] && started.pending == s.pending;
    var published := Step(started, Publish);
    assert published.tasks == map[2 := Desc(7, 6, 1, true, 0)] && published.children == started.children;
    assert s.pending[0] in s.pending;
  }
}
