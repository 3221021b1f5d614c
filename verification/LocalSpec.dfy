/** The client daemon's tasks as interleaved steps: the thread performing each task, the callers waiting for
    it, and the four timers.  An event that cannot happen in a state leaves it unchanged. */
module LocalSpec {
  import opened Seqs

  const MINUTE: int := 60_000

  datatype Status = Pending | Ready | Dispatched | Done

  /** Where the thread performing a task stands. */
  datatype Phase =
    | Created
    | CacheCheck
    | ExistCheck
    | ExistWait
    | ExistFree
    | GrantTest
    | GrantWait
    | Starting(grant: nat)
    | NewWait(grant: nat)
    | NewFree(grant: nat)
    | Releasing(grant: nat)
    | Finishing
    | Finished

  /** The lists are history: grants taken and given back, servant references taken and given back, in order;
      whether the wait for the servant broke off with an exception; how often completion was signalled, and how
      often the task was handed to a caller. */
  datatype Desc = Desc(
    status: Status,
    phase: Phase,
    aborted: bool,
    signalled: bool,
    present: bool,
    deadline: int,
    lastKeepAlive: int,
    grant: nat,
    servantTask: nat,
    granted: seq<nat>,
    released: seq<nat>,
    joined: seq<nat>,
    left: seq<nat>,
    threw: bool,
    completions: nat,
    deliveries: nat)

  /** A caller of WaitForTask: waiting for the event, past it, or past the erasure. */
  datatype Waiting = Listening(id: nat) | Claimed(id: nat) | Taking(id: nat)

  datatype State = State(nextId: nat, descs: map<nat, Desc>, table: set<nat>, callers: map<nat, Waiting>)

  /** `over` says that the cache gave a result, or an entry whose unpacking broke off with an exception. */
  datatype Event =
    | Queue(deadline: int)
    | Begin(id: nat)
    | CacheRead(id: nat, over: bool)
    | ExistNone(id: nat)
    | ExistJoined(id: nat, servantTask: nat, now: int)
    | ExistWaited(id: nat)
    | ExistFreed(id: nat)
    | TestAborted(id: nat)
    | GrantNone(id: nat)
    | GrantTaken(id: nat, grant: nat, now: int)
    | StartFailed(id: nat)
    | Started(id: nat, servantTask: nat)
    | NewWaited(id: nat)
    | NewFreed(id: nat)
    | WaitThrew(id: nat)
    | Released(id: nat)
    | Complete(id: nat)
    | WaitFind(caller: nat, id: nat)
    | WaitTimeout(caller: nat)
    | WaitClaim(caller: nat)
    | WaitErase(caller: nat)
    | WaitTake(caller: nat)
    | TimeoutAbort(now: int)
    | KilledAbort(dead: set<nat>)
    | KeepAliveAbort(now: int)
    | KeepAliveDone(acknowledged: set<nat>, now: int)
    | Clear(now: int)

  function Init(): State {
    State(0, map[], {}, map[])
  }

  function NewDesc(deadline: int): Desc {
    Desc(Pending, Created, false, false, true, deadline, 0, 0, 0, [], [], [], [], false, 0, 0)
  }

  function Rank(s: Status): nat {
    match s case Pending => 0 case Ready => 1 case Dispatched => 2 case Done => 3
  }

  predicate OfPerformer(e: Event) {
    e.Begin? || e.CacheRead? || e.ExistNone? || e.ExistJoined? || e.ExistWaited? || e.ExistFreed? || e.TestAborted?
    || e.GrantNone? || e.GrantTaken? || e.StartFailed? || e.Started? || e.NewWaited? || e.NewFreed? || e.WaitThrew?
    || e.Released? || e.Complete?
  }

  predicate OfTimer(e: Event) {
    e.TimeoutAbort? || e.KilledAbort? || e.KeepAliveAbort? || e.KeepAliveDone?
  }

  /** Where the performing thread goes from `p`; nowhere when the step is not the next one there.  An exception out
      of the wait leads straight to the block that runs on every way out. */
  function NextPhase(p: Phase, aborted: bool, e: Event): Phase {
    match (e, p)
    case (Begin(_), Created) => CacheCheck
    case (CacheRead(_, over), CacheCheck) => if over then Finishing else ExistCheck
    case (ExistNone(_), ExistCheck) => GrantTest
    case (ExistJoined(_, _, _), ExistCheck) => ExistWait
    case (ExistWaited(_), ExistWait) => ExistFree
    case (ExistFreed(_), ExistFree) => Finishing
    case (TestAborted(_), GrantTest) => if aborted then Finishing else GrantWait
    case (GrantNone(_), GrantWait) => GrantTest
    case (GrantTaken(_, grant, _), GrantWait) => Starting(grant)
    case (StartFailed(_), Starting(grant)) => Releasing(grant)
    case (Started(_, _), Starting(grant)) => NewWait(grant)
    case (NewWaited(_), NewWait(grant)) => NewFree(grant)
    case (NewFreed(_), NewFree(grant)) => Releasing(grant)
    case (WaitThrew(_), ExistWait) => Finishing
    case (WaitThrew(_), NewWait(_)) => Finishing
    case (Released(_), Releasing(_)) => Finishing
    case (Complete(_), Finishing) => Finished
    case _ => p
  }

  /** The performing thread's next step on its own descriptor. */
  function Perform(d: Desc, e: Event): Desc
    requires OfPerformer(e)
  {
    var next := d.(phase := NextPhase(d.phase, d.aborted, e));
    if next.phase == d.phase then d
    else
      match e
      case ExistJoined(_, servantTask, now) =>
        next.(status := Dispatched, lastKeepAlive := now, grant := 0, servantTask := servantTask,
              joined := d.joined + [servantTask])
      case GrantTaken(_, grant, now) =>
        next.(status := Ready, lastKeepAlive := now, grant := grant, granted := d.granted + [grant])
      case Started(_, servantTask) =>
        next.(status := Dispatched, servantTask := servantTask, joined := d.joined + [servantTask])
      case ExistFreed(_) => next.(left := d.left + [d.servantTask])
      case NewFreed(_) => next.(left := d.left + [d.servantTask])
      case WaitThrew(_) => next.(threw := true)
      case Released(_) => next.(released := d.released + [d.phase.grant])
      case Complete(_) => next.(status := Done, signalled := true, completions := d.completions + 1)
      case _ => next
  }

  /** Steps that touch no field the other threads can see. */
  predicate Quiet(e: Event) {
    e.Begin? || e.CacheRead? || e.ExistNone? || e.ExistWaited? || e.ExistFreed? || e.TestAborted? || e.GrantNone?
    || e.StartFailed? || e.NewWaited? || e.NewFreed? || e.WaitThrew? || e.Released?
  }

  lemma QuietStep(d: Desc, e: Event)
    requires Quiet(e)
    ensures var r := Perform(d, e);
      && r.phase == NextPhase(d.phase, d.aborted, e)
      && r.threw == (d.threw || (e.WaitThrew? && r.phase != d.phase))
      && r == d.(phase := r.phase, released := r.released, left := r.left, threw := r.threw)
  {
  }

  predicate KeptAlive(d: Desc) {
    d.status != Pending && d.status != Done && !d.aborted
  }

  /** What a timer does to a descriptor it meets in the table. */
  function Timed(d: Desc, id: nat, e: Event): Desc
    requires OfTimer(e)
  {
    match e
    case TimeoutAbort(now) => if d.deadline < now then d.(aborted := true) else d
    case KilledAbort(dead) => if id in dead then d.(aborted := true) else d
    case KeepAliveAbort(now) => if KeptAlive(d) && now - d.lastKeepAlive > MINUTE then d.(aborted := true) else d
    case KeepAliveDone(acknowledged, now) => if id in acknowledged then d.(lastKeepAlive := now) else d
  }

  predicate Clearable(d: Desc, now: int) {
    d.status == Done && (d.aborted || d.deadline + MINUTE < now)
  }

  function OnTimer(s: State, e: Event): State
    requires OfTimer(e)
  {
    s.(descs := map id | id in s.descs :: if id in s.table then Timed(s.descs[id], id, e) else s.descs[id])
  }

  function DoClear(s: State, now: int): State {
    s.(table := set id | id in s.table && !(id in s.descs && Clearable(s.descs[id], now)))
  }

  predicate Signalled(s: State, id: nat) {
    id in s.descs && s.descs[id].signalled
  }

  /** A wait ends without the event only while the event is not set. */
  function OnCaller(s: State, e: Event): State
    requires e.WaitFind? || e.WaitTimeout? || e.WaitClaim? || e.WaitErase? || e.WaitTake?
  {
    match e
    case WaitFind(caller, id) =>
      if id in s.table && caller !in s.callers then s.(callers := s.callers[caller := Listening(id)]) else s
    case WaitTimeout(caller) =>
      if caller in s.callers && s.callers[caller].Listening? && !Signalled(s, s.callers[caller].id)
      then s.(callers := s.callers - {caller})
      else s
    case WaitClaim(caller) =>
      if caller in s.callers && s.callers[caller].Listening? && Signalled(s, s.callers[caller].id)
      then
        var id := s.callers[caller].id;
        s.(callers := s.callers[caller := Claimed(id)], descs := s.descs[id := s.descs[id].(signalled := false)])
      else s
    case WaitErase(caller) =>
      if caller in s.callers && s.callers[caller].Claimed?
      then s.(callers := s.callers[caller := Taking(s.callers[caller].id)], table := s.table - {s.callers[caller].id})
      else s
    case WaitTake(caller) =>
      if caller in s.callers && s.callers[caller].Taking? && s.callers[caller].id in s.descs
      then
        var id := s.callers[caller].id;
        s.(callers := s.callers - {caller},
           descs := s.descs[id := s.descs[id].(present := false, deliveries := s.descs[id].deliveries + 1)])
      else s
  }

  function Step(s: State, e: Event): State {
    if e.Queue? then
      var id := s.nextId + 1;
      s.(nextId := id, descs := s.descs[id := NewDesc(e.deadline)], table := s.table + {id})
    else if e.Clear? then DoClear(s, e.now)
    else if OfTimer(e) then OnTimer(s, e)
    else if OfPerformer(e) then
      if e.id in s.descs then s.(descs := s.descs[e.id := Perform(s.descs[e.id], e)]) else s
    else OnCaller(s, e)
  }

  lemma QueueStep(s: State, deadline: int)
    ensures Step(s, Queue(deadline)) ==
      State(s.nextId + 1, s.descs[s.nextId + 1 := NewDesc(deadline)], s.table + {s.nextId + 1}, s.callers)
  {
  }

  lemma PerformStep(s: State, e: Event)
    requires OfPerformer(e) && e.id in s.descs
    ensures Step(s, e) == State(s.nextId, s.descs[e.id := Perform(s.descs[e.id], e)], s.table, s.callers)
  {
    hide Perform;
  }

  function Run(s: State, es: seq<Event>): State {
    if es == [] then s else Step(Run(s, es[..|es| - 1]), es[|es| - 1])
  }

  lemma RunNothing(s: State)
    ensures Run(s, []) == s
  {
  }

  lemma RunOn(s: State, es: seq<Event>, e: Event)
    ensures Run(s, es + [e]) == Step(Run(s, es), e)
  {
    assert (es + [e])[..|es|] == es;
  }

  lemma {:induction false} RunAppend(s: State, es: seq<Event>, fs: seq<Event>)
    ensures Run(s, es + fs) == Run(Run(s, es), fs)
  {
    hide Step;
    if fs == [] {
      assert es + fs == es;
    } else {
      var n := |fs| - 1;
      assert (es + fs)[..|es| + n] == es + fs[..n];
      RunAppend(s, es, fs[..n]);
    }
  }

  predicate OfCaller(e: Event, caller: nat) {
    (e.WaitFind? || e.WaitTimeout? || e.WaitClaim? || e.WaitErase? || e.WaitTake?) && e.caller == caller
  }

  /** What one caller does in a run. */
  function CallerSteps(es: seq<Event>, caller: nat): seq<Event> {
    if es == [] then []
    else
      var last := es[|es| - 1];
      CallerSteps(es[..|es| - 1], caller) + if OfCaller(last, caller) then [last] else []
  }

  lemma CallerStepsOn(es: seq<Event>, e: Event, caller: nat)
    ensures CallerSteps(es + [e], caller) == CallerSteps(es, caller) + if OfCaller(e, caller) then [e] else []
    ensures CallerSteps([], caller) == []
  {
    assert (es + [e])[..|es|] == es;
  }
}
