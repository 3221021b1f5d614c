/** The scheduler's grant table as a state machine on values.

    Every operation runs under one mutex, so a run is a sequence of events; clock readings are part of
    the events.  A servant object's identity is its `sid`.  Operations are given in closed form here; the
    loops of the program are proved to refine them in `Scheduler`. */
module SchedulerSpec {
  import opened Seqs
  import opened SchedulerTypes

  datatype Slot = Slot(sid: nat, info: ServantInfo, expires: int, running: uint64)

  datatype Grant = Grant(sid: nat, info: TaskInfo, expires: int, prefetch: bool, zombie: bool)

  datatype State = State(
    minMemory: uint64,
    servants: seq<Slot>,
    tasks: map<nat, Grant>,
    nextId: nat,
    nextSid: nat,
    book: map<string, seq<RunningTask>>)

  datatype Event =
    | Start(task: TaskInfo, expires: int, prefetch: bool)
    | KeepTask(id: nat, expires: int)
    | FreeTask(id: nat)
    | KeepServant(info: ServantInfo, expires: int)
    | Notify(location: string, reported: seq<RunningTask>)
    | Tick(now: int)

  datatype Reply =
    | Done
    | NoEnv
    | Busy
    | Granted(id: nat, location: string)
    | Alive(ok: bool)
    | Expired(ids: seq<nat>)

  function Init(minMemory: uint64): State {
    State(minMemory, [], map[], 0, 0, map[])
  }

  // ---------------------------------------------------------------------------------------------
  // Choosing a servant
  // ---------------------------------------------------------------------------------------------

  predicate CanServe(s: Slot, task: TaskInfo) {
    task.env in s.info.envs && s.info.concurrency > 0 && s.info.version <= task.minVersion
  }

  predicate ShortOfMemory(info: ServantInfo, minMemory: uint64) {
    info.totalMemory != 0 && info.availMemory < minMemory
  }

  /** The program's arithmetic: both subtractions wrap, and the maximum with zero changes nothing. */
  function AvailableTasks(info: ServantInfo, running: uint64, minMemory: uint64): uint64 {
    if ShortOfMemory(info, minMemory) then running
    else
      var load := Wrap64(info.load - running);
      var avail := Wrap64(info.cores - load);
      if info.concurrency <= avail then info.concurrency else avail
  }

  /** What the arithmetic is meant to compute: subtractions that stop at zero. */
  function SaturatingTasks(info: ServantInfo, running: uint64, minMemory: uint64): uint64 {
    if ShortOfMemory(info, minMemory) then running
    else
      var load := if info.load >= running then info.load - running else 0;
      var avail := if info.cores >= load then info.cores - load else 0;
      if info.concurrency <= avail then info.concurrency else avail
  }

  predicate IsFree(s: Slot, minMemory: uint64) {
    s.running < AvailableTasks(s.info, s.running, minMemory)
  }

  function Eligible(servants: seq<Slot>, task: TaskInfo): seq<Slot> {
    Filter(servants, (s: Slot) => CanServe(s, task))
  }

  function Free(servants: seq<Slot>, minMemory: uint64): seq<Slot> {
    Filter(servants, (s: Slot) => IsFree(s, minMemory))
  }

  lemma NoneEligible(task: TaskInfo)
    ensures Eligible([], task) == []
  {
  }

  lemma NoneFree(minMemory: uint64)
    ensures Free([], minMemory) == []
  {
  }

  lemma EligibleSnoc(servants: seq<Slot>, k: nat, task: TaskInfo)
    requires k < |servants|
    ensures Eligible(servants[..k + 1], task) ==
      Eligible(servants[..k], task) + if CanServe(servants[k], task) then [servants[k]] else []
  {
    assert servants[..k + 1][..k] == servants[..k];
  }

  lemma FreeSnoc(servants: seq<Slot>, k: nat, minMemory: uint64)
    requires k < |servants|
    ensures Free(servants[..k + 1], minMemory) ==
      Free(servants[..k], minMemory) + if IsFree(servants[k], minMemory) then [servants[k]] else []
  {
    assert servants[..k + 1][..k] == servants[..k];
  }

  lemma FreeAreFree(servants: seq<Slot>, minMemory: uint64)
    ensures forall s <- Free(servants, minMemory) :: IsFree(s, minMemory)
  {
  }

  predicate SameHost(s: Slot, ip: string) {
    && |s.info.observed| > |ip|
    && s.info.observed[|ip|] == ':'
    && ip <= s.info.observed
  }

  predicate DedicatedIdle(s: Slot) {
    s.info.priority == Dedicated && s.info.concurrency > Wrap64(2 * s.running)
  }

  predicate Anyone(s: Slot) { true }

  function OwnHost(free: seq<Slot>, ip: string): (k: nat)
    ensures k <= |free|
    ensures forall i :: 0 <= i < k ==> !SameHost(free[i], ip)
    ensures k < |free| ==> SameHost(free[k], ip)
  {
    FirstIndex(free, (s: Slot) => SameHost(s, ip))
  }

  /** The free servants once the first one on the requester's own host has been set aside. */
  function Others(free: seq<Slot>, ip: string): seq<Slot> {
    var k := OwnHost(free, ip);
    if k < |free| then free[..k] + free[k + 1..] else free
  }

  /** First dedicated servant less than half busy; else the first one not on the requester's host; else
      the one on the requester's host. */
  function Pick(free: seq<Slot>, ip: string): (s: Slot)
    requires free != []
    ensures s in free
  {
    var rest := Others(free, ip);
    if rest == [] then free[0]
    else
      var d := FirstIndex(rest, DedicatedIdle);
      if d < |rest| then rest[d] else rest[0]
  }

  /** What the tiers amount to: the servant on the requester's own host only when it is alone; a dedicated one
      less than half busy before any other; and the first of its kind. */
  lemma PickPrefers(free: seq<Slot>, ip: string) returns (i: nat)
    requires free != []
    ensures i < |free| && Pick(free, ip) == free[i]
    ensures |free| > 1 ==> i != OwnHost(free, ip)
    ensures forall j :: 0 <= j < |free| && j != OwnHost(free, ip) && DedicatedIdle(free[j]) ==>
      DedicatedIdle(free[i]) && i <= j
    ensures !DedicatedIdle(free[i]) ==> i == 0 || (i == 1 && OwnHost(free, ip) == 0)
  {
    hide DedicatedIdle, OwnHost;
    var k, rest := OwnHost(free, ip), Others(free, ip);
    if rest == [] {
      i := 0;
    } else {
      var d := FirstIndex(rest, DedicatedIdle);
      var at := if d < |rest| then d else 0;
      i := if at < k then at else at + if k < |free| then 1 else 0;
      OthersAt(free, ip, at, i);
      forall j | 0 <= j < |free| && j != k && DedicatedIdle(free[j]) ensures DedicatedIdle(free[i]) && i <= j {
        OthersAt(free, ip, if j < k then j else j - 1, j);
      }
    }
  }

  /** The caller passes the peer's name as gRPC writes it, "ipv4:" and the port included, while observed locations
      start with the bare address, so no servant is ever taken for the requester's own host; by the bare address
      those on its host would be. */
  lemma PeerHasNoOwnHost(free: seq<Slot>, address: string, port: string)
    requires free != [] && forall s <- free :: s.info.observed != "" && '0' <= s.info.observed[0] <= '9'
    ensures var peer := "ipv4:" + address + ":" + port;
      var d := FirstIndex(free, DedicatedIdle);
      && OwnHost(free, peer) == |free| && Others(free, peer) == free
      && Pick(free, peer) == free[if d < |free| then d else 0]
    ensures forall k :: 0 <= k < |free| ==>
      (SameHost(free[k], address) <==> address + ":" <= free[k].info.observed)
  {
    hide FirstIndex;
    var peer := "ipv4:" + address + ":" + port;
    assert peer[0] == 'i';
    forall k | 0 <= k < |free| ensures !SameHost(free[k], peer) {
      assert free[k] in free;
    }
    forall k | 0 <= k < |free| ensures SameHost(free[k], address) <==> address + ":" <= free[k].info.observed {
      OwnAddress(free[k].info.observed, address);
    }
  }

  lemma OwnAddress(observed: string, address: string)
    ensures address + ":" <= observed <==> |observed| > |address| && observed[|address|] == ':' && address <= observed
  {
    if |observed| > |address| {
      assert observed[..|address| + 1] == observed[..|address|] + [observed[|address|]];
    }
  }

  /** Where a servant stands once the one on the requester's own host is set aside. */
  lemma OthersAt(free: seq<Slot>, ip: string, at: nat, i: nat)
    requires i < |free| && i != OwnHost(free, ip) && at == if i < OwnHost(free, ip) then i else i - 1
    ensures at < |Others(free, ip)| && Others(free, ip)[at] == free[i]
  {
    hide OwnHost;
  }

  /** The place of the first of least utilisation among those passing `p`; utilisation is an integer quotient. */
  ghost predicate Least(servants: seq<Slot>, p: Slot -> bool, k: nat)
    requires forall s <- servants :: s.info.concurrency > 0
  {
    && k < |servants| && p(servants[k])
    && (forall j :: 0 <= j < |servants| && p(servants[j]) ==> Utilization(servants[k]) <= Utilization(servants[j]))
    && (forall j :: 0 <= j < k && p(servants[j]) ==> Utilization(servants[k]) < Utilization(servants[j]))
  }

  function Utilization(s: Slot): nat
    requires s.info.concurrency > 0
  {
    s.running / s.info.concurrency
  }

  /** Below its concurrency a servant's quotient is zero, so the least utilised is the first that passes. */
  lemma LeastIsFirst(servants: seq<Slot>, p: Slot -> bool, k: nat)
    requires forall s <- servants :: s.running < s.info.concurrency
    requires Least(servants, p, k)
    ensures k == FirstIndex(servants, p)
  {
    assert forall s <- servants :: Utilization(s) == 0;
    var f := FirstIndex(servants, p);
    assert Utilization(servants[f]) == 0 && Utilization(servants[k]) == 0;
  }

  // ---------------------------------------------------------------------------------------------
  // The table
  // ---------------------------------------------------------------------------------------------

  /** The grants whose slot is on servant `sid`. */
  function Owned(tasks: map<nat, Grant>, sid: nat): set<nat> {
    set id | id in tasks && tasks[id].sid == sid
  }

  function Sids(servants: seq<Slot>): set<nat> {
    set s <- servants :: s.sid
  }

  function Locations(servants: seq<Slot>): set<string> {
    set s <- servants :: s.info.observed
  }

  function AddRunning(servants: seq<Slot>, sid: nat, delta: int): seq<Slot> {
    seq(|servants|, i requires 0 <= i < |servants| =>
      if servants[i].sid == sid then servants[i].(running := Wrap64(servants[i].running + delta)) else servants[i])
  }

  function Drop(s: State, id: nat): State
    requires id in s.tasks
  {
    s.(servants := AddRunning(s.servants, s.tasks[id].sid, -1), tasks := s.tasks - {id})
  }

  /** Freeing a batch stops at the first id that is not in the table. */
  function FreeBatch(s: State, ids: seq<nat>): State
    decreases |ids|
  {
    if ids == [] || ids[0] !in s.tasks then s
    else FreeBatch(Drop(s, ids[0]), ids[1..])
  }

  /** `s` without the grants in `dead`, each servant's count lowered by the grants it loses. */
  function Without(s: State, dead: set<nat>): State {
    s.(tasks := s.tasks - dead,
       servants := seq(|s.servants|, i requires 0 <= i < |s.servants| =>
         s.servants[i].(running := Wrap64(s.servants[i].running - |Owned(s.tasks, s.servants[i].sid) * dead|))))
  }

  function IndexOf(servants: seq<Slot>, location: string): (k: nat)
    ensures k <= |servants|
    ensures forall i :: 0 <= i < k ==> servants[i].info.observed != location
    ensures k < |servants| ==> servants[k].info.observed == location
  {
    FirstIndex(servants, (s: Slot) => s.info.observed == location)
  }

  /** Zombies of servant `sid` that its heartbeat no longer lists. */
  function GoneZombies(tasks: map<nat, Grant>, sid: nat, reported: seq<nat>): set<nat> {
    set id | id in tasks && tasks[id].sid == sid && tasks[id].zombie && id !in reported
  }

  predicate Permitted(tasks: map<nat, Grant>, sid: nat, id: nat) {
    id in tasks && tasks[id].sid == sid && !tasks[id].zombie
  }

  function Rejected(reported: seq<RunningTask>, tasks: map<nat, Grant>, sid: nat): seq<RunningTask> {
    Filter(reported, (t: RunningTask) => !Permitted(tasks, sid, t.grantId))
  }

  function Accepted(reported: seq<RunningTask>, tasks: map<nat, Grant>, sid: nat): seq<RunningTask> {
    Filter(reported, (t: RunningTask) => Permitted(tasks, sid, t.grantId))
  }

  lemma SplitNothing(tasks: map<nat, Grant>, sid: nat)
    ensures Accepted([], tasks, sid) == [] && Rejected([], tasks, sid) == []
  {
  }

  lemma SplitSnoc(reported: seq<RunningTask>, k: nat, tasks: map<nat, Grant>, sid: nat)
    requires k < |reported|
    ensures var kept := Permitted(tasks, sid, reported[k].grantId);
      && Accepted(reported[..k + 1], tasks, sid) ==
           Accepted(reported[..k], tasks, sid) + (if kept then [reported[k]] else [])
      && GrantIds(Rejected(reported[..k + 1], tasks, sid)) ==
           GrantIds(Rejected(reported[..k], tasks, sid)) + (if kept then [] else [reported[k].grantId])
  {
    assert reported[..k + 1][..k] == reported[..k];
  }

  // ---------------------------------------------------------------------------------------------
  // The operations
  // ---------------------------------------------------------------------------------------------

  /** `g` entered in the table under the next id, taking a slot of its servant. */
  function Place(s: State, g: Grant): State {
    s.(servants := AddRunning(s.servants, g.sid, 1), tasks := s.tasks[s.nextId := g], nextId := s.nextId + 1)
  }

  function DoStart(s: State, task: TaskInfo, expires: int, prefetch: bool): (State, Reply) {
    var eligible := Eligible(s.servants, task);
    var free := Free(eligible, s.minMemory);
    if eligible == [] then (s, NoEnv)
    else if free == [] then (s, Busy)
    else
      var picked := Pick(free, task.requesterIp);
      (Place(s, Grant(picked.sid, task, expires, prefetch, false)), Granted(s.nextId, picked.info.observed))
  }

  lemma BusyChangesNothing(s: State, task: TaskInfo, expires: int, prefetch: bool)
    ensures DoStart(s, task, expires, prefetch).1 == Busy ==> DoStart(s, task, expires, prefetch).0 == s
  {
  }

  function DoKeepTask(s: State, id: nat, expires: int): (State, Reply) {
    if id !in s.tasks || s.tasks[id].zombie then (s, Alive(false))
    else (s.(tasks := s.tasks[id := s.tasks[id].(expires := expires)]), Alive(true))
  }

  function DoKeepServant(s: State, info: ServantInfo, expires: int): State {
    var k := IndexOf(s.servants, info.observed);
    if k < |s.servants| then
      s.(servants := s.servants[k := s.servants[k].(info := info, expires := expires)])
    else
      s.(servants := s.servants + [Slot(s.nextSid, info, expires, 0)], nextSid := s.nextSid + 1)
  }

  function DoNotify(s: State, location: string, reported: seq<RunningTask>): (State, Reply) {
    var k := IndexOf(s.servants, location);
    if k == |s.servants| then (s, Expired(GrantIds(reported)))
    else
      var sid := s.servants[k].sid;
      var cleared := Without(s, GoneZombies(s.tasks, sid, GrantIds(reported)));
      (cleared.(book := s.book[location := Accepted(reported, cleared.tasks, sid)]),
       Expired(GrantIds(Rejected(reported, cleared.tasks, sid))))
  }

  function Living(servants: seq<Slot>, now: int): seq<Slot> {
    Filter(servants, (s: Slot) => s.expires >= now)
  }

  function ExpiredLocations(servants: seq<Slot>, now: int): set<string> {
    set s <- servants | s.expires < now :: s.info.observed
  }

  lemma EvictNothing(now: int)
    ensures Living([], now) == [] && ExpiredLocations([], now) == {}
  {
  }

  lemma EvictSnoc(servants: seq<Slot>, k: nat, now: int)
    requires k < |servants|
    ensures Living(servants[..k + 1], now) ==
      Living(servants[..k], now) + if servants[k].expires < now then [] else [servants[k]]
    ensures ExpiredLocations(servants[..k + 1], now) ==
      ExpiredLocations(servants[..k], now) + if servants[k].expires < now then {servants[k].info.observed} else {}
  {
    assert servants[..k + 1][..k] == servants[..k];
    assert servants[..k + 1] == servants[..k] + [servants[k]];
  }

  /** The three parts of an expiry. */
  function Evict(s: State, now: int): State {
    s.(servants := Living(s.servants, now), book := s.book - ExpiredLocations(s.servants, now))
  }

  function Orphans(s: State): set<nat> {
    set id | id in s.tasks && s.tasks[id].sid !in Sids(s.servants)
  }

  function Expire(s: State, now: int): State {
    s.(tasks := map id | id in s.tasks :: s.tasks[id].(zombie := s.tasks[id].zombie || s.tasks[id].expires < now))
  }

  function DoTick(s: State, now: int): State {
    var living := Living(s.servants, now);
    s.(servants := living,
       book := s.book - ExpiredLocations(s.servants, now),
       tasks := map id | id in s.tasks && s.tasks[id].sid in Sids(living) ::
         s.tasks[id].(zombie := s.tasks[id].zombie || s.tasks[id].expires < now))
  }

  function Step(s: State, e: Event): (State, Reply) {
    match e
    case Start(task, expires, prefetch) => DoStart(s, task, expires, prefetch)
    case KeepTask(id, expires) => DoKeepTask(s, id, expires)
    case FreeTask(id) => (FreeBatch(s, [id]), Done)
    case KeepServant(info, expires) => (DoKeepServant(s, info, expires), Done)
    case Notify(location, reported) => DoNotify(s, location, reported)
    case Tick(now) => (DoTick(s, now), Done)
  }

  function Run(s: State, es: seq<Event>): State {
    if es == [] then s else Step(Run(s, es[..|es| - 1]), es[|es| - 1]).0
  }

  lemma RunNothing(s: State)
    ensures Run(s, []) == s
  {
  }

  lemma {:induction false} RunAppend(s: State, es: seq<Event>, fs: seq<Event>)
    ensures Run(s, es + fs) == Run(Run(s, es), fs)
  {
    hide Step;
    if fs == [] {
      assert es + fs == es;
    } else {
      var n := |fs| - 1;
      assert (es + fs)[..|es| + n] == es + fs[..n];
      RunAppend(s, es, fs[..n]);
    }
  }

  // ---------------------------------------------------------------------------------------------
  // The invariant
  // ---------------------------------------------------------------------------------------------

  /** Each servant's counter is the number of table entries on it. */
  ghost predicate SlotsConserved(s: State) {
    forall i :: 0 <= i < |s.servants| ==> s.servants[i].running == |Owned(s.tasks, s.servants[i].sid)|
  }

  ghost predicate Registered(s: State) {
    && (forall id <- s.tasks :: s.tasks[id].sid in Sids(s.servants))
    && s.book.Keys <= Locations(s.servants)
  }

  ghost predicate DistinctServants(servants: seq<Slot>) {
    && (forall i, j :: 0 <= i < j < |servants| ==> servants[i].sid != servants[j].sid)
    && (forall i, j :: 0 <= i < j < |servants| ==> servants[i].info.observed != servants[j].info.observed)
  }

  ghost predicate Numbered(s: State) {
    && (forall id <- s.tasks :: id < s.nextId)
    && (forall i :: 0 <= i < |s.servants| ==> s.servants[i].sid < s.nextSid)
  }

  ghost predicate Inv(s: State) {
    SlotsConserved(s) && Registered(s) && DistinctServants(s.servants) && Numbered(s)
  }
}
