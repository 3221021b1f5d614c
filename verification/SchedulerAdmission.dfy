/** Which servant a task is given to, and what is written down about it, in terms of what the servants reported. */
module SchedulerAdmission {
  import opened Seqs
  import opened SchedulerTypes
  import opened SchedulerSpec
  import SchedulerInvariant
  import SchedulerProperties

  /** The servant has the compiler, takes tasks at all, and is not newer than the caller allows. */
  predicate Serves(p: Slot, task: TaskInfo) {
    task.env in p.info.envs && p.info.concurrency > 0 && p.info.version <= task.minVersion
  }

  /** It has a slot to spare as well, as the wrapping arithmetic of the program has it. */
  predicate Able(p: Slot, task: TaskInfo, minMemory: uint64) {
    && Serves(p, task)
    && (p.info.totalMemory == 0 || p.info.availMemory >= minMemory)
    && p.running < p.info.concurrency
    && (p.info.load < p.info.cores || p.info.load > p.info.cores + p.running)
  }

  predicate AbleAt(s: State, task: TaskInfo, j: int) {
    0 <= j < |s.servants| && Able(s.servants[j], task, s.minMemory)
  }

  predicate OnHost(p: Slot, ip: string) {
    ip + ":" <= p.info.observed
  }

  /** The first able servant on the requester's own host. */
  predicate SetAside(s: State, task: TaskInfo, j: int) {
    && AbleAt(s, task, j) && OnHost(s.servants[j], task.requesterIp)
    && forall k :: 0 <= k < j && AbleAt(s, task, k) ==> !OnHost(s.servants[k], task.requesterIp)
  }

  predicate Dedication(p: Slot) {
    p.info.priority == Dedicated && p.info.concurrency > 2 * p.running
  }

  /** Servant `i` comes first: the one set aside only when it is alone, a dedicated one less than half busy before
      any other, and the first listed of its kind. */
  ghost predicate Preferred(s: State, task: TaskInfo, i: int) {
    && AbleAt(s, task, i)
    && (SetAside(s, task, i) ==> forall j :: AbleAt(s, task, j) ==> j == i)
    && (forall j :: AbleAt(s, task, j) && !SetAside(s, task, j) && Dedication(s.servants[j]) ==>
          Dedication(s.servants[i]) && i <= j)
    && (!Dedication(s.servants[i]) ==> forall j :: AbleAt(s, task, j) && !SetAside(s, task, j) ==> i <= j)
  }

  /** The grant goes to servant `i`: one new entry, one slot taken, nothing else changed. */
  ghost predicate GoesTo(s: State, t: State, task: TaskInfo, expires: int, prefetch: bool, i: int)
    requires AbleAt(s, task, i)
  {
    && t.minMemory == s.minMemory && t.nextSid == s.nextSid && t.book == s.book && t.nextId == s.nextId + 1
    && s.nextId !in s.tasks && t.tasks.Keys == s.tasks.Keys + {s.nextId}
    && t.tasks[s.nextId] == Grant(s.servants[i].sid, task, expires, prefetch, false)
    && (forall id <- s.tasks :: t.tasks[id] == s.tasks[id])
    && |t.servants| == |s.servants|
    && (forall j :: 0 <= j < |s.servants| ==>
          t.servants[j] == if j == i then s.servants[j].(running := s.servants[j].running + 1) else s.servants[j])
  }

  /** What one scan for a servant makes of a request. */
  ghost predicate Admits(s: State, t: State, reply: Reply, task: TaskInfo, expires: int, prefetch: bool) {
    if forall p <- s.servants :: !Serves(p, task) then reply == NoEnv && t == s
    else if forall j :: !AbleAt(s, task, j) then reply == Busy && t == s
    else exists i ::
      Preferred(s, task, i) && GoesTo(s, t, task, expires, prefetch, i)
      && reply == Granted(s.nextId, s.servants[i].info.observed)
  }

  lemma AbleIsFree(p: Slot, task: TaskInfo, minMemory: uint64)
    ensures CanServe(p, task) <==> Serves(p, task)
    ensures CanServe(p, task) && IsFree(p, minMemory) <==> Able(p, task, minMemory)
  {
    hide IsFree;
    SchedulerProperties.FreeExactly(p, minMemory);
  }

  lemma HostIsHost(p: Slot, ip: string)
    ensures SameHost(p, ip) <==> OnHost(p, ip)
  {
    OwnAddress(p.info.observed, ip);
  }

  lemma DedicationIsIdle(p: Slot)
    requires p.running < p.info.concurrency
    ensures DedicatedIdle(p) <==> Dedication(p)
  {
  }

  /** The free servants are the able ones, in the order of the list. */
  lemma FreeAreAble(s: State, task: TaskInfo, able: Slot -> bool)
    requires forall p :: able(p) == Able(p, task, s.minMemory)
    ensures Free(Eligible(s.servants, task), s.minMemory) == Filter(s.servants, able)
  {
    hide CanServe, IsFree, Able, Filter;
    var can, free := (p: Slot) => CanServe(p, task), (p: Slot) => IsFree(p, s.minMemory);
    forall i | 0 <= i < |s.servants| ensures able(s.servants[i]) == (can(s.servants[i]) && free(s.servants[i])) {
      AbleIsFree(s.servants[i], task, s.minMemory);
    }
    FilterTwice(s.servants, can, free, able);
  }

  lemma ServantsDiffer(servants: seq<Slot>)
    requires DistinctServants(servants)
    ensures Distinct(servants)
  {
  }

  /** `rest` lists the able servants but for the one set aside; `others` tells them. */
  ghost predicate Lists(s: State, task: TaskInfo, others: Slot -> bool, rest: seq<Slot>) {
    && rest == Filter(s.servants, others)
    && (forall j :: 0 <= j < |s.servants| ==> (others(s.servants[j]) <==> AbleAt(s, task, j) && !SetAside(s, task, j)))
  }

  lemma NobodySetAside(s: State, task: TaskInfo, able: Slot -> bool)
    requires forall p :: able(p) == Able(p, task, s.minMemory)
    requires var free := Filter(s.servants, able); OwnHost(free, task.requesterIp) == |free|
    ensures Lists(s, task, able, Others(Filter(s.servants, able), task.requesterIp))
  {
    hide Filter, SameHost, Able, OnHost;
    var free := Filter(s.servants, able);
    forall j | 0 <= j < |s.servants| && AbleAt(s, task, j) ensures !SetAside(s, task, j) {
      assert s.servants[j] in free;
      var m :| 0 <= m < |free| && free[m] == s.servants[j];
      HostIsHost(free[m], task.requesterIp);
    }
  }

  lemma OwnIsSetAside(s: State, task: TaskInfo, able: Slot -> bool) returns (o: nat)
    requires forall p :: able(p) == Able(p, task, s.minMemory)
    requires var free := Filter(s.servants, able); OwnHost(free, task.requesterIp) < |free|
    ensures o < |s.servants| && SetAside(s, task, o)
    ensures var free := Filter(s.servants, able); s.servants[o] == free[OwnHost(free, task.requesterIp)]
  {
    hide Filter, SameHost, Able, OnHost;
    var free := Filter(s.servants, able);
    var k := OwnHost(free, task.requesterIp);
    o := FilterAt(s.servants, able, k);
    assert free[k] in free;
    HostIsHost(free[k], task.requesterIp);
    forall j | 0 <= j < o && AbleAt(s, task, j) ensures !OnHost(s.servants[j], task.requesterIp) {
      assert s.servants[..o][j] in Filter(s.servants[..o], able);
      var m :| 0 <= m < k && free[..k][m] == s.servants[j];
      HostIsHost(free[m], task.requesterIp);
    }
  }

  lemma Elsewhere(free: seq<Slot>, k: nat)
    requires Distinct(free) && k < |free|
    ensures free == free[..k] + [free[k]] + free[k + 1..]
    ensures var (before, after) := (free[..k], free[k + 1..]);
      && (forall i :: 0 <= i < |before| ==> before[i] != free[k])
      && (forall i :: 0 <= i < |after| ==> after[i] != free[k])
  {
    var after := free[k + 1..];
    forall i | 0 <= i < |after| ensures after[i] != free[k] {
      assert after[i] == free[k + 1 + i];
    }
  }

  lemma OneSetAside(s: State, task: TaskInfo, able: Slot -> bool, o: nat, others: Slot -> bool)
    requires DistinctServants(s.servants) && forall p :: able(p) == Able(p, task, s.minMemory)
    requires var free := Filter(s.servants, able); OwnHost(free, task.requesterIp) < |free|
    requires o < |s.servants| && SetAside(s, task, o)
    requires var free := Filter(s.servants, able); s.servants[o] == free[OwnHost(free, task.requesterIp)]
    requires forall p :: others(p) == (able(p) && p != s.servants[o])
    ensures Lists(s, task, others, Others(Filter(s.servants, able), task.requesterIp))
  {
    hide Filter, Able, OnHost, OwnHost;
    var free := Filter(s.servants, able);
    ServantsDiffer(s.servants);
    FilterDistinct(s.servants, able);
    var differs := p => p != s.servants[o];
    var k := OwnHost(free, task.requesterIp);
    Elsewhere(free, k);
    FilterAround(free[..k], free[k], free[k + 1..], differs);
    FilterTwice(s.servants, able, differs, others);
    forall j | 0 <= j < |s.servants| ensures others(s.servants[j]) <==> AbleAt(s, task, j) && !SetAside(s, task, j) {
      if j != o {
        assert s.servants[j] != s.servants[o];
      }
    }
  }

  /** The servant at a place of the rest, and what stands before it in the list. */
  lemma RestAt(s: State, task: TaskInfo, others: Slot -> bool, rest: seq<Slot>, at: nat) returns (i: nat)
    requires Lists(s, task, others, rest) && at < |rest|
    ensures i < |s.servants| && s.servants[i] == rest[at] && AbleAt(s, task, i) && !SetAside(s, task, i)
    ensures forall j :: 0 <= j < i && AbleAt(s, task, j) && !SetAside(s, task, j) ==> s.servants[j] in rest[..at]
  {
    hide Filter, Able, SetAside;
    i := FilterAt(s.servants, others, at);
    assert rest[at] in rest;
    forall j | 0 <= j < i && AbleAt(s, task, j) && !SetAside(s, task, j) ensures s.servants[j] in rest[..at] {
      assert s.servants[..i][j] == s.servants[j] && s.servants[..i][j] in Filter(s.servants[..i], others);
    }
  }

  lemma PickOfRest(s: State, task: TaskInfo, others: Slot -> bool, rest: seq<Slot>, at: nat) returns (i: nat)
    requires Lists(s, task, others, rest) && at < |rest|
    requires var d := FirstIndex(rest, DedicatedIdle); at == if d < |rest| then d else 0
    ensures 0 <= i < |s.servants| && s.servants[i] == rest[at] && Preferred(s, task, i)
  {
    hide Filter, SetAside, FirstIndex, DedicatedIdle, Dedication;
    i := RestAt(s, task, others, rest, at);
    DedicationIsIdle(s.servants[i]);
    forall j | AbleAt(s, task, j) && !SetAside(s, task, j) && Dedication(s.servants[j])
      ensures Dedication(s.servants[i]) && i <= j
    {
      DedicationIsIdle(s.servants[j]);
      assert others(s.servants[j]) && s.servants[j] in rest;
    }
  }

  lemma OnlyTheOneSetAside(s: State, task: TaskInfo, others: Slot -> bool)
    requires Lists(s, task, others, [])
    ensures forall j :: AbleAt(s, task, j) ==> SetAside(s, task, j)
  {
    hide Filter, Able, SetAside;
    forall j | AbleAt(s, task, j) ensures SetAside(s, task, j) {
      assert s.servants[j] in s.servants;
    }
  }

  lemma SetAsideIsOne(s: State, task: TaskInfo, i: int, j: int)
    requires SetAside(s, task, i) && SetAside(s, task, j)
    ensures i == j
  {
  }

  lemma PickIsPreferred(s: State, task: TaskInfo) returns (i: nat)
    requires DistinctServants(s.servants) && Free(Eligible(s.servants, task), s.minMemory) != []
    ensures i < |s.servants| && Preferred(s, task, i)
    ensures s.servants[i] == Pick(Free(Eligible(s.servants, task), s.minMemory), task.requesterIp)
  {
    hide Filter, Able, OwnHost, Others, FirstIndex, SetAside, Lists, Eligible, Free, Dedication, DedicatedIdle;
    var able := (p: Slot) => Able(p, task, s.minMemory);
    FreeAreAble(s, task, able);
    var free := Filter(s.servants, able);
    var rest, others, o := Others(free, task.requesterIp), able, 0;
    if OwnHost(free, task.requesterIp) == |free| {
      NobodySetAside(s, task, able);
    } else {
      o := OwnIsSetAside(s, task, able);
      others := p => able(p) && p != s.servants[o];
      OneSetAside(s, task, able, o, others);
    }
    if rest != [] {
      var d := FirstIndex(rest, DedicatedIdle);
      i := PickOfRest(s, task, others, rest, if d < |rest| then d else 0);
    } else {
      OnlyTheOneSetAside(s, task, others);
      i := FilterAt(s.servants, able, 0);
      assert free[0] in free;
      Alone(s, task, i);
    }
  }

  lemma Alone(s: State, task: TaskInfo, i: nat)
    requires AbleAt(s, task, i) && forall j :: AbleAt(s, task, j) ==> SetAside(s, task, j)
    ensures Preferred(s, task, i)
  {
    hide Able, SetAside, Dedication;
    forall j | AbleAt(s, task, j) ensures j == i {
      SetAsideIsOne(s, task, i, j);
    }
  }

  lemma PlaceGoesTo(s: State, task: TaskInfo, expires: int, prefetch: bool, i: nat)
    requires Inv(s) && AbleAt(s, task, i)
    ensures GoesTo(s, Place(s, Grant(s.servants[i].sid, task, expires, prefetch, false)), task, expires, prefetch, i)
  {
    hide Owned;
    assert s.nextId !in s.tasks;
  }

  /** A scan answers NoEnv when no servant has the compiler, Busy when none of those has a slot to spare, and otherwise
      gives the task to the preferred servant: the first dedicated one less than half busy, then the first
      one, then the one on the requester's own host. */
  lemma AdmitsExactly(s: State, task: TaskInfo, expires: int, prefetch: bool)
    requires Inv(s)
    ensures var (t, reply) := DoStart(s, task, expires, prefetch);
      Admits(s, t, reply, task, expires, prefetch)
  {
    hide Inv, Pick, Place, Eligible, Free, Preferred, GoesTo, Serves, Able, CanServe, IsFree;
    SchedulerProperties.AnyEligible(s.servants, task);
    SchedulerProperties.AnyFree(s.servants, task, s.minMemory);
    forall p: Slot {
      AbleIsFree(p, task, s.minMemory);
    }
    if Free(Eligible(s.servants, task), s.minMemory) != [] {
      Distinctness(s);
      var i := PickIsPreferred(s, task);
      PreferredIsAble(s, task, i);
      PlaceGoesTo(s, task, expires, prefetch, i);
      assert Serves(s.servants[i], task);
    } else {
      assert forall j :: AbleAt(s, task, j) ==> s.servants[j] in s.servants;
    }
  }

  lemma Distinctness(s: State)
    requires Inv(s)
    ensures DistinctServants(s.servants)
  {
  }

  lemma PreferredIsAble(s: State, task: TaskInfo, i: int)
    requires Preferred(s, task, i)
    ensures AbleAt(s, task, i) && Serves(s.servants[i], task)
  {
  }
}
