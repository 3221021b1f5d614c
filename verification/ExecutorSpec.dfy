/** The compile servant's executor as interleaved steps of its threads.

    Requests, the cleaner and the exit callbacks work under `task_mutex_`; queueing a task holds it over
    three steps, between which the waiter thread, the children and `Stop` go on.  An event that cannot
    happen in a state leaves it unchanged.  Forked pids, memory readings and clocks come with the events. */
module ExecutorSpec {
  import opened Seqs

  const CLEAN_AFTER: int := 60_000   // milliseconds a completed task is kept

  datatype Desc = Desc(pid: int, grant: nat, refs: nat, running: bool, completed: int)

  /** A request inside TryQueueTask: past the exit check, or past the fork. */
  datatype Queueing = Idle | Checked(grant: nat) | Forked

  /** Where the waiter thread stands in its loop. */
  datatype Waiter = AtTest | AtAcquire | AtRecheck | InWait | Gone

  /** A process not yet waited for; `task` is the task it was forked for. */
  datatype Child = Child(task: nat, exit: Option<int>)

  /** A callback handed to the thread pool. */
  datatype Callback = Callback(pid: int, task: nat, code: int)

  /** A freed task whose process has still to be sent the signal: the descriptor is out of the table, and the
      request that freed it no longer holds the mutex. */
  datatype Doomed = Doomed(pid: int, task: nat)

  datatype State = State(
    exiting: bool,
    nextId: nat,
    running: int,
    max: nat,
    tasks: map<nat, Desc>,
    semaphore: nat,
    queueing: Queueing,
    waiter: Waiter,
    children: map<int, Child>,
    pending: seq<Callback>,
    doomed: multiset<Doomed>)

  datatype Event =
    | Enter(grant: nat)
    | Reserve(memoryOk: bool, pid: int)
    | Publish
    | ChildExits(pid: int, code: int)
    | Test
    | Acquire
    | Recheck
    | Reap(pid: int)
    | NoChild
    | RunCallback(k: nat, now: int)
    | AddRef(id: nat)
    | Free(id: nat)
    | KillFreed(doomed: Doomed)
    | KillExpired(grants: set<nat>)
    | Clean(now: int)
    | StopFlag
    | StopKill
    | StopRelease

  function Init(max: nat): State {
    State(false, 1, 0, max, map[], 0, Idle, AtTest, map[], [], multiset{})
  }

  predicate HasWork(s: State) {
    !s.exiting || s.running != 0
  }

  predicate Unlocked(s: State) {
    s.queueing.Idle?
  }

  /** The ids of the descriptors that hold `pid`. */
  function Holders(tasks: map<nat, Desc>, pid: int): set<nat> {
    set id | id in tasks && tasks[id].pid == pid
  }

  function Stale(tasks: map<nat, Desc>, now: int): set<nat> {
    set id | id in tasks && !tasks[id].running && tasks[id].completed + CLEAN_AFTER < now
  }

  /** The forked process is new: neither unreaped nor held by a descriptor. */
  predicate FreshPid(s: State, pid: int) {
    pid > 0 && pid !in s.children && Holders(s.tasks, pid) == {}
  }

  /** TryQueueTask past its exit check; the id is used up even when the task is refused. */
  function DoReserve(s: State, grant: nat, memoryOk: bool, pid: int): State {
    var t := s.(nextId := s.nextId + 1);
    if s.running + 1 > s.max || !memoryOk then t.(queueing := Idle)
    else
      t.(running := s.running + 1,
         tasks := s.tasks[s.nextId := Desc(pid, grant, 1, true, 0)],
         children := s.children[pid := Child(s.nextId, None)],
         queueing := Forked)
  }

  /** The descriptors holding the callback's pid are completed; the slot is given back in any case. */
  function DoCallback(s: State, k: nat, now: int): State
    requires k < |s.pending|
  {
    var pid := s.pending[k].pid;
    s.(pending := s.pending[..k] + s.pending[k + 1..],
       running := s.running - 1,
       tasks := Completed(s.tasks, pid, now))
  }

  function Completed(tasks: map<nat, Desc>, pid: int, now: int): map<nat, Desc> {
    map id | id in tasks :: if tasks[id].pid == pid then tasks[id].(running := false, completed := now) else tasks[id]
  }

  function DoFree(s: State, id: nat): State
    requires id in s.tasks
  {
    if s.tasks[id].refs - 1 > 0 then s.(tasks := s.tasks[id := s.tasks[id].(refs := s.tasks[id].refs - 1)])
    else
      s.(tasks := s.tasks - {id},
         doomed := if s.tasks[id].running then s.doomed + multiset{Doomed(s.tasks[id].pid, id)} else s.doomed)
  }

  function DoNoChild(s: State): State {
    if s.exiting then s.(waiter := Gone)
    else s.(waiter := AtTest, pending := s.pending + [Callback(-1, 0, -1)])
  }

  predicate Enabled(s: State, e: Event) {
    match e
    case Enter(_) => Unlocked(s) && !s.exiting
    case Reserve(_, pid) => s.queueing.Checked? && FreshPid(s, pid)
    case Publish => s.queueing.Forked?
    case ChildExits(pid, _) => pid in s.children && s.children[pid].exit == None
    case Test => s.waiter == AtTest
    case Acquire => s.waiter == AtAcquire && s.semaphore > 0
    case Recheck => s.waiter == AtRecheck
    case Reap(pid) => s.waiter == InWait && pid in s.children && s.children[pid].exit.Some?
    case NoChild => s.waiter == InWait && s.children == map[]
    case RunCallback(k, _) => Unlocked(s) && k < |s.pending|
    case AddRef(id) => Unlocked(s) && id in s.tasks
    case Free(id) => Unlocked(s) && id in s.tasks
    case KillFreed(d) => d in s.doomed
    case KillExpired(_) => Unlocked(s)
    case Clean(_) => Unlocked(s)
    case StopFlag => true
    case StopKill => Unlocked(s) && s.exiting
    case StopRelease => s.exiting
  }

  function Step(s: State, e: Event): State {
    if !Enabled(s, e) then s else
    match e
    case Enter(grant) => s.(queueing := Checked(grant))
    case Reserve(memoryOk, pid) => DoReserve(s, s.queueing.grant, memoryOk, pid)
    case Publish => s.(queueing := Idle, semaphore := s.semaphore + 1)
    case ChildExits(pid, code) => s.(children := s.children[pid := s.children[pid].(exit := Some(code))])
    case Test => s.(waiter := if HasWork(s) then AtAcquire else Gone)
    case Acquire => s.(waiter := AtRecheck, semaphore := s.semaphore - 1)
    case Recheck => s.(waiter := if HasWork(s) then InWait else Gone)
    case Reap(pid) =>
      var c := s.children[pid];
      s.(waiter := AtTest, children := s.children - {pid}, pending := s.pending + [Callback(pid, c.task, c.exit.value)])
    case NoChild => DoNoChild(s)
    case RunCallback(k, now) => DoCallback(s, k, now)
    case AddRef(id) => s.(tasks := s.tasks[id := s.tasks[id].(refs := s.tasks[id].refs + 1)])
    case Free(id) => DoFree(s, id)
    case KillFreed(d) => s.(doomed := s.doomed - multiset{d})
    case KillExpired(_) => s
    case Clean(now) => s.(tasks := s.tasks - Stale(s.tasks, now))
    case StopFlag => s.(exiting := true)
    case StopKill => s
    case StopRelease => s.(semaphore := s.semaphore + 1)
  }

  lemma FreeStep(s: State, id: nat)
    requires Unlocked(s)
    ensures id !in s.tasks ==> Step(s, Free(id)) == s
    ensures id in s.tasks && s.tasks[id].refs > 1 ==>
      Step(s, Free(id)) == s.(tasks := s.tasks[id := s.tasks[id].(refs := s.tasks[id].refs - 1)])
    ensures id in s.tasks && s.tasks[id].refs == 1 ==>
      Step(s, Free(id)) ==
        s.(tasks := s.tasks - {id},
           doomed := s.doomed + if s.tasks[id].running then multiset{Doomed(s.tasks[id].pid, id)} else multiset{})
  {
  }

  function Pids(tasks: map<nat, Desc>, ids: set<nat>): set<int> {
    set id | id in ids && id in tasks :: tasks[id].pid
  }

  function Running(tasks: map<nat, Desc>): set<nat> {
    set id | id in tasks && tasks[id].running
  }

  function Condemned(tasks: map<nat, Desc>, grants: set<nat>): set<nat> {
    set id | id in tasks && tasks[id].running && tasks[id].grant in grants
  }

  /** The process groups sent SIGKILL by a step. */
  function Signalled(s: State, e: Event): set<int> {
    if !Enabled(s, e) then {} else
    match e
    case KillExpired(grants) => Pids(s.tasks, Condemned(s.tasks, grants))
    case KillFreed(d) => {d.pid}
    case StopKill => Pids(s.tasks, Running(s.tasks))
    case _ => {}
  }

  function Run(s: State, es: seq<Event>): State {
    if es == [] then s else Step(Run(s, es[..|es| - 1]), es[|es| - 1])
  }

  lemma RunOn(s: State, es: seq<Event>, e: Event)
    ensures Run(s, []) == s
    ensures Run(s, es + [e]) == Step(Run(s, es), e)
  {
    assert (es + [e])[..|es|] == es;
  }

  lemma {:induction false} RunAppend(s: State, es: seq<Event>, fs: seq<Event>)
    ensures Run(s, es + fs) == Run(Run(s, es), fs)
  {
    hide Step;
    if fs == [] {
      assert es + fs == es;
    } else {
      var n := |fs| - 1;
      assert (es + fs)[..|es| + n] == es + fs[..n];
      RunAppend(s, es, fs[..n]);
    }
  }

  // ---------------------------------------------------------------------------------------------
  // The reaping protocol
  // ---------------------------------------------------------------------------------------------

  /** The waiter has taken a token it has not yet turned into a reaped child. */
  function Inside(s: State): nat {
    if s.waiter == AtRecheck || s.waiter == InWait then 1 else 0
  }

  function Tokens(s: State): nat {
    s.semaphore + Inside(s) + if s.queueing.Forked? then 1 else 0
  }

  ghost predicate Reaping(s: State) {
    && s.running == |s.children| + |s.pending|
    && s.running <= s.max
    && Tokens(s) >= |s.children|
    && (!s.exiting ==> Tokens(s) == |s.children|)
    && (s.waiter == Gone ==> s.exiting)
    && (forall c <- s.pending :: c.pid > 0)
    && (forall pid: int <- s.children :: pid > 0)
  }

  lemma OneMore(m: map<int, Child>, pid: int, c: Child)
    ensures |m[pid := c]| == |m| + if pid in m then 0 else 1
  {
    assert m[pid := c].Keys == m.Keys + {pid};
    assert |m[pid := c]| == |m.Keys + {pid}|;
  }

  lemma OneLess(m: map<int, Child>, pid: int)
    requires pid in m
    ensures |m - {pid}| == |m| - 1
  {
    assert m.Keys == (m - {pid}).Keys + {pid};
    assert |m.Keys| == |(m - {pid}).Keys| + 1;
  }

  predicate OfWaiter(e: Event) {
    e.Test? || e.Acquire? || e.Recheck? || e.Reap? || e.NoChild?
  }

  /** The waiter's own steps in a run. */
  function WaiterSteps(es: seq<Event>): seq<Event> {
    Filter(es, OfWaiter)
  }

  lemma WaiterStepsOn(es: seq<Event>, e: Event)
    ensures WaiterSteps(es + [e]) == if OfWaiter(e) then WaiterSteps(es) + [e] else WaiterSteps(es)
    ensures WaiterSteps([]) == []
  {
    FilterLast(es, e, OfWaiter);
  }

  lemma WaiterKeepsReaping(s: State, e: Event)
    requires Reaping(s) && Enabled(s, e) && OfWaiter(e)
    ensures Reaping(Step(s, e))
  {
    match e
    case Reap(pid) => OneLess(s.children, pid);
    case NoChild => assert |s.children| == 0;
    case _ =>
  }

  lemma ServiceKeepsReaping(s: State, e: Event)
    requires Reaping(s) && Enabled(s, e) && !OfWaiter(e)
    ensures Reaping(Step(s, e))
  {
    hide Reaping, Enabled, Step;
    if e.Reserve? || e.ChildExits? {
      ChildrenKeepReaping(s, e);
    } else if e.RunCallback? {
      CallbackKeepsReaping(s, e);
    } else {
      RequestKeepsReaping(s, e);
    }
  }

  lemma CallbackKeepsReaping(s: State, e: Event)
    requires Reaping(s) && Enabled(s, e) && e.RunCallback?
    ensures Reaping(Step(s, e))
  {
    hide FreshPid, Stale;
  }

  lemma RequestKeepsReaping(s: State, e: Event)
    requires Reaping(s) && Enabled(s, e) && !OfWaiter(e) && !e.Reserve? && !e.ChildExits? && !e.RunCallback?
    ensures Reaping(Step(s, e))
  {
    hide Step, Enabled;
    RequestTouches(s, e);
  }

  /** Requests, the cleaner and Stop leave children, callbacks, count and waiter alone; Stop adds a token. */
  lemma RequestTouches(s: State, e: Event)
    requires Enabled(s, e) && !OfWaiter(e) && !e.Reserve? && !e.ChildExits? && !e.RunCallback?
    ensures var t := Step(s, e);
      && t.children == s.children && t.pending == s.pending && t.running == s.running && t.max == s.max
      && t.waiter == s.waiter && (s.exiting ==> t.exiting)
      && Tokens(t) >= Tokens(s) && (!t.exiting ==> Tokens(t) == Tokens(s))
  {
    hide FreshPid, Stale, DoReserve, DoCallback, DoNoChild, HasWork, DoFree;
    if e.Free? {
      FreeTouches(s, e.id);
    }
  }

  lemma FreeTouches(s: State, id: nat)
    requires id in s.tasks
    ensures DoFree(s, id) == s.(tasks := DoFree(s, id).tasks, doomed := DoFree(s, id).doomed)
  {
  }

  lemma ChildrenKeepReaping(s: State, e: Event)
    requires Reaping(s) && Enabled(s, e) && (e.Reserve? || e.ChildExits?)
    ensures Reaping(Step(s, e))
  {
    hide FreshPid, Stale;
    match e
    case Reserve(_, pid) =>
      NewPid(s, pid);
      OneMore(s.children, pid, Child(s.nextId, None));
    case ChildExits(pid, code) => OneMore(s.children, pid, s.children[pid].(exit := Some(code)));
  }

  lemma StepKeepsReaping(s: State, e: Event)
    requires Reaping(s)
    ensures Reaping(Step(s, e))
  {
    hide Reaping, Enabled;
    if Enabled(s, e) {
      if OfWaiter(e) { WaiterKeepsReaping(s, e); } else { ServiceKeepsReaping(s, e); }
    }
  }

  lemma {:induction false} RunKeepsReaping(s: State, es: seq<Event>)
    requires Reaping(s)
    ensures Reaping(Run(s, es))
  {
    hide Step, Reaping;
    if es != [] {
      RunKeepsReaping(s, es[..|es| - 1]);
      StepKeepsReaping(Run(s, es[..|es| - 1]), es[|es| - 1]);
    }
  }

  lemma NewPid(s: State, pid: int)
    requires FreshPid(s, pid)
    ensures pid > 0 && pid !in s.children
  {
  }

  /** Over every interleaving the counter is the unreaped children plus the callbacks still to run, within
      the limit; before Stop there is one token for each unreaped child, counting the waiter's own. */
  lemma ReapingAlways(max: nat, es: seq<Event>)
    ensures Reaping(Run(Init(max), es))
  {
    assert |Init(max).children| == 0;
    RunKeepsReaping(Init(max), es);
  }

  /** Before Stop the waiter never waits without a child. */
  lemma WaitsOnlyWithChild(max: nat, es: seq<Event>)
    ensures var s := Run(Init(max), es);
      s.waiter == InWait && !s.exiting ==> s.children != map[]
  {
    ReapingAlways(max, es);
    assert Run(Init(max), es).children == map[] ==> |Run(Init(max), es).children| == 0;
  }

}
