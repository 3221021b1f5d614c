/** What registration, keep-alive, freeing and expiry change, entry by entry. */
module SchedulerEffects {
  import opened Seqs
  import opened SchedulerTypes
  import opened SchedulerSpec
  import SchedulerInvariant
  import SchedulerProperties

  /** Reporting in renews the one servant at the observed location, whose identity and counter stay, or lists a new one
      last; nobody else is touched. */
  lemma RegistersExactly(s: State, info: ServantInfo, expires: int)
    requires Inv(s)
    ensures var t := DoKeepServant(s, info, expires);
      && t.tasks == s.tasks && t.book == s.book && t.nextId == s.nextId && t.minMemory == s.minMemory
      && |t.servants| >= |s.servants|
      && (forall j :: 0 <= j < |s.servants| ==>
            t.servants[j] == if s.servants[j].info.observed != info.observed then s.servants[j]
                             else Slot(s.servants[j].sid, info, expires, s.servants[j].running))
      && if (exists j :: 0 <= j < |s.servants| && s.servants[j].info.observed == info.observed) then
           |t.servants| == |s.servants| && t.nextSid == s.nextSid
         else
           && |t.servants| == |s.servants| + 1 && t.nextSid == s.nextSid + 1
           && t.servants[|s.servants|] == Slot(s.nextSid, info, expires, 0)
           && forall j :: 0 <= j < |s.servants| ==> s.servants[j].sid != s.nextSid
  {
    hide SlotsConserved, Registered;
    var k := IndexOf(s.servants, info.observed);
    assert forall j :: 0 <= j < |s.servants| && s.servants[j].info.observed == info.observed ==> j == k;
  }

  /** Keeping a grant alive moves the lease of a live grant and of nothing else, and says whether it was one. */
  lemma KeepsExactly(s: State, id: nat, expires: int)
    ensures var (t, reply) := DoKeepTask(s, id, expires);
      && reply == Alive(id in s.tasks && !s.tasks[id].zombie)
      && t == s.(tasks := t.tasks) && t.tasks.Keys == s.tasks.Keys
      && forall other <- s.tasks :: t.tasks[other] ==
           if other == id && !s.tasks[id].zombie then s.tasks[id].(expires := expires) else s.tasks[other]
  {
  }

  /** A batch is freed up to the first id that is not in the table. */
  lemma {:induction false} BatchStopsAtUnknown(s: State, known: seq<nat>, id: nat, rest: seq<nat>)
    requires id !in s.tasks
    ensures FreeBatch(s, known + [id] + rest) == FreeBatch(s, known)
    decreases |known|
  {
    var ids := known + [id] + rest;
    if known != [] {
      assert ids[0] == known[0] && ids[1..] == known[1..] + [id] + rest;
      if known[0] in s.tasks {
        BatchStopsAtUnknown(Drop(s, known[0]), known[1..], id, rest);
      }
    }
  }

  predicate Lives(s: State, sid: nat, now: int) {
    exists j :: 0 <= j < |s.servants| && s.servants[j].sid == sid && s.servants[j].expires >= now
  }

  predicate LivesAt(s: State, location: string, now: int) {
    exists j :: 0 <= j < |s.servants| && s.servants[j].info.observed == location && s.servants[j].expires >= now
  }

  /** An expiry keeps the servants whose lease holds, in order, the grants on them and their book entries; of the grants
      kept exactly those whose own lease has run out become zombies, and zombies stay so. */
  lemma ExpiresExactly(s: State, now: int)
    requires Inv(s)
    ensures var t := DoTick(s, now);
      && t.nextId == s.nextId && t.nextSid == s.nextSid && t.minMemory == s.minMemory
      && t.servants == Filter(s.servants, (x: Slot) => x.expires >= now)
      && (forall id :: id in t.tasks <==> id in s.tasks && Lives(s, s.tasks[id].sid, now))
      && (forall id <- t.tasks :: t.tasks[id] ==
            if s.tasks[id].expires < now then s.tasks[id].(zombie := true) else s.tasks[id])
      && (forall l :: l in t.book <==> l in s.book && LivesAt(s, l, now))
      && (forall l <- t.book :: t.book[l] == s.book[l])
  {
    hide SlotsConserved, Living;
    var t := DoTick(s, now);
    SchedulerInvariant.LivingAmong(s.servants, now);
    assert Living(s.servants, now) == Filter(s.servants, (x: Slot) => x.expires >= now) by { LivingIs(s.servants, now); }
    forall id <- s.tasks ensures s.tasks[id].sid in Sids(t.servants) <==> Lives(s, s.tasks[id].sid, now) {
      OnLiving(s, s.tasks[id].sid, now);
    }
    forall l <- s.book ensures l in ExpiredLocations(s.servants, now) <==> !LivesAt(s, l, now) {
      AtLiving(s, l, now);
    }
  }

  lemma LivingIs(servants: seq<Slot>, now: int)
    ensures Living(servants, now) == Filter(servants, (x: Slot) => x.expires >= now)
  {
  }

  lemma OnLiving(s: State, sid: nat, now: int)
    ensures sid in Sids(Living(s.servants, now)) <==> Lives(s, sid, now)
  {
    hide Living;
    SchedulerInvariant.LivingAmong(s.servants, now);
    var living := Living(s.servants, now);
    LivingLive(s.servants, now);
    if sid in Sids(living) {
      var x :| x in living && x.sid == sid;
      var j :| 0 <= j < |s.servants| && s.servants[j] == x;
    }
    if Lives(s, sid, now) {
      var j :| 0 <= j < |s.servants| && s.servants[j].sid == sid && s.servants[j].expires >= now;
      assert s.servants[j] in living;
    }
  }

  lemma LivingLive(servants: seq<Slot>, now: int)
    ensures forall x <- Living(servants, now) :: x.expires >= now
  {
  }

  lemma AtLiving(s: State, location: string, now: int)
    requires Registered(s) && DistinctServants(s.servants) && location in s.book
    ensures location in ExpiredLocations(s.servants, now) <==> !LivesAt(s, location, now)
  {
    var x :| x in s.servants && x.info.observed == location;
    var j :| 0 <= j < |s.servants| && s.servants[j] == x;
    assert forall i :: 0 <= i < |s.servants| && s.servants[i].info.observed == location ==> i == j;
  }
}
