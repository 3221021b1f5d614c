/** What holds of every local task however the performing threads, callers and timers interleave. */
module LocalProperties {
  import opened Seqs
  import opened LocalSpec

  // ---------------------------------------------------------------------------------------------
  // One descriptor
  // ---------------------------------------------------------------------------------------------

  /** The grant the performing thread holds. */
  function HeldGrant(p: Phase): seq<nat> {
    match p
    case Starting(g) => [g]
    case NewWait(g) => [g]
    case NewFree(g) => [g]
    case Releasing(g) => [g]
    case _ => []
  }

  predicate HoldsReference(p: Phase) {
    p.ExistWait? || p.ExistFree? || p.NewWait? || p.NewFree?
  }

  predicate BeforeGrant(p: Phase) {
    p.Created? || p.CacheCheck? || p.ExistCheck? || p.GrantTest? || p.GrantWait?
  }

  /** Status follows the phase; grants and servant references taken are those given back and those held. */
  ghost predicate Coherent(d: Desc) {
    && (d.status == Done <==> d.phase == Finished)
    && (d.signalled ==> d.phase == Finished)
    && (d.status == Pending ==> HeldGrant(d.phase) == [] && !HoldsReference(d.phase))
    && (BeforeGrant(d.phase) ==> d.status == Pending && d.granted == [] && d.joined == [])
    && (d.phase.Starting? ==> d.status == Ready && d.joined == [])
    && (HoldsReference(d.phase) ==> d.status == Dispatched)
    && ((d.phase.ExistWait? || d.phase.ExistFree?) ==> d.granted == [] && d.grant == 0)
    && (HeldGrant(d.phase) != [] ==> HeldGrant(d.phase) == [d.grant])
    && |d.granted| <= 1 && |d.joined| <= 1
    && (if d.threw then
          && (d.phase == Finishing || d.phase == Finished)
          && |d.joined| == 1 && d.released == d.left == []
        else
          && d.granted == d.released + HeldGrant(d.phase)
          && d.joined == d.left + if HoldsReference(d.phase) then [d.servantTask] else [])
    && d.completions == if d.phase == Finished then 1 else 0
  }

  lemma PerformKeepsCoherent(d: Desc, e: Event)
    requires OfPerformer(e) && Coherent(d)
    ensures Coherent(Perform(d, e))
  {
    hide OfPerformer;
  }

  lemma PerformAdvancesStatus(d: Desc, e: Event)
    requires OfPerformer(e) && Coherent(d)
    ensures var r := Perform(d, e);
      && Rank(r.status) >= Rank(d.status)
      && (d.status == Done ==> r == d)
      && r.present == d.present && r.deliveries == d.deliveries && r.aborted == d.aborted && r.deadline == d.deadline
      && (r.completions - d.completions == (if r.signalled then 1 else 0) - (if d.signalled then 1 else 0))
  {
  }

  /** The states a task passes through are only ever later ones. */
  lemma PerformMovesForward(d: Desc, e: Event)
    requires OfPerformer(e) && Coherent(d)
    ensures var r := Perform(d, e);
      && Coherent(r)
      && Rank(r.status) >= Rank(d.status)
      && (d.status == Done ==> r == d)
      && r.present == d.present && r.deliveries == d.deliveries && r.aborted == d.aborted && r.deadline == d.deadline
      && (r.completions - d.completions == (if r.signalled then 1 else 0) - (if d.signalled then 1 else 0))
  {
    hide Coherent, Perform, Rank;
    PerformKeepsCoherent(d, e);
    PerformAdvancesStatus(d, e);
  }

  lemma TimerTouchesFlagsOnly(d: Desc, id: nat, e: Event)
    requires OfTimer(e)
    ensures Timed(d, id, e) == d.(aborted := Timed(d, id, e).aborted, lastKeepAlive := Timed(d, id, e).lastKeepAlive)
    ensures d.aborted ==> Timed(d, id, e).aborted
  {
  }

  // ---------------------------------------------------------------------------------------------
  // The whole daemon
  // ---------------------------------------------------------------------------------------------

  /** The callers that have the completion of `id` and have not yet taken the task. */
  function Claimants(callers: map<nat, Waiting>, id: nat): set<nat> {
    set c | c in callers && callers[c] in {Claimed(id), Taking(id)}
  }

  /** The one completion of a task is with the event, with one caller, or delivered; the task object is
      there until then, and once a caller has erased the entry it is never in the table again. */
  ghost predicate Conserved(s: State, id: nat)
    requires id in s.descs
  {
    var d := s.descs[id];
    && d.completions == (if d.signalled then 1 else 0) + |Claimants(s.callers, id)| + d.deliveries
    && (d.present <==> d.deliveries == 0)
    && (d.deliveries > 0 ==> id !in s.table)
  }

  ghost predicate Inv(s: State) {
    && s.table <= s.descs.Keys
    && (forall id <- s.descs :: 0 < id <= s.nextId && Coherent(s.descs[id]) && Conserved(s, id))
    && (forall c <- s.callers :: s.callers[c].id in s.descs)
    && (forall c <- s.callers :: s.callers[c].Taking? ==> s.callers[c].id !in s.table)
  }

  lemma ClaimantsChange(callers: map<nat, Waiting>, c: nat, w: Waiting, id: nat)
    ensures |Claimants(callers[c := w], id)| ==
      |Claimants(callers - {c}, id)| + if w == Claimed(id) || w == Taking(id) then 1 else 0
    ensures |Claimants(callers, id)| ==
      |Claimants(callers - {c}, id)| + if c in callers && callers[c] in {Claimed(id), Taking(id)} then 1 else 0
  {
    hide Claimants;
    ClaimantsPlus(callers, c, w, id);
    if c in callers {
      ClaimantsPlus(callers, c, callers[c], id);
      assert callers[c := callers[c]] == callers;
    } else {
      assert callers - {c} == callers;
    }
  }

  lemma ClaimantsPlus(callers: map<nat, Waiting>, c: nat, w: Waiting, id: nat)
    ensures |Claimants(callers[c := w], id)| ==
      |Claimants(callers - {c}, id)| + if w == Claimed(id) || w == Taking(id) then 1 else 0
  {
    hide Claimants;
    var rest := Claimants(callers - {c}, id);
    ClaimantsWith(callers, c, w, id);
    if w == Claimed(id) || w == Taking(id) {
      assert |rest + {c}| == |rest| + 1;
    }
  }

  lemma ClaimantsWith(callers: map<nat, Waiting>, c: nat, w: Waiting, id: nat)
    ensures var rest := Claimants(callers - {c}, id);
      c !in rest && Claimants(callers[c := w], id) == if w == Claimed(id) || w == Taking(id) then rest + {c} else rest
  {
  }

  lemma NewIsCoherent(deadline: int)
    ensures Coherent(NewDesc(deadline))
  {
  }

  lemma NobodyClaims(s: State, id: nat)
    requires Inv(s) && id !in s.descs
    ensures |Claimants(s.callers, id)| == 0
  {
    hide Coherent;
    assert Claimants(s.callers, id) == {};
  }

  lemma QueueKeepsInv(s: State, e: Event)
    requires Inv(s) && e.Queue?
    ensures Inv(Step(s, e))
  {
    hide Coherent, Claimants;
    NewIsCoherent(e.deadline);
    assert s.nextId + 1 !in s.descs;
    NobodyClaims(s, s.nextId + 1);
  }

  lemma RewriteKeepsInv(s: State, id: nat, d: Desc)
    requires Inv(s) && id in s.descs && Coherent(d)
    requires d.present == s.descs[id].present && d.deliveries == s.descs[id].deliveries
    requires d.completions - s.descs[id].completions ==
      (if d.signalled then 1 else 0) - (if s.descs[id].signalled then 1 else 0)
    ensures Inv(s.(descs := s.descs[id := d]))
  {
    hide Coherent, Claimants;
  }

  lemma CoherentAt(s: State, id: nat)
    requires Inv(s) && id in s.descs
    ensures Coherent(s.descs[id])
  {
  }

  lemma PerformKeepsInv(s: State, e: Event)
    requires Inv(s) && OfPerformer(e)
    ensures Inv(Step(s, e))
  {
    hide Perform, Coherent, Inv, Conserved, OnCaller, OnTimer, DoClear, Claimants;
    if e.id in s.descs {
      CoherentAt(s, e.id);
      PerformMovesForward(s.descs[e.id], e);
      RewriteKeepsInv(s, e.id, Perform(s.descs[e.id], e));
    }
  }

  lemma TimerKeepsInv(s: State, e: Event)
    requires Inv(s) && OfTimer(e)
    ensures Inv(Step(s, e))
  {
    forall id <- s.descs ensures Coherent(Step(s, e).descs[id]) && Conserved(Step(s, e), id) {
      TimerTouchesFlagsOnly(s.descs[id], id, e);
    }
  }

  /** The claimants of one task after one caller moves on to `w`. */
  lemma ClaimantsMove(callers: map<nat, Waiting>, c: nat, w: Waiting, id: nat)
    requires c in callers && callers[c].id == w.id
    ensures |Claimants(callers[c := w], id)| - |Claimants(callers, id)| ==
      if w.id != id then 0 else (if w.Listening? then 0 else 1) - (if callers[c].Listening? then 0 else 1)
  {
    ClaimantsChange(callers, c, w, id);
  }

  lemma ClaimantsLeave(callers: map<nat, Waiting>, c: nat, id: nat)
    requires c in callers
    ensures |Claimants(callers - {c}, id)| - |Claimants(callers, id)| ==
      if callers[c].id == id && !callers[c].Listening? then -1 else 0
  {
    ClaimantsChange(callers, c, callers[c], id);
  }

  lemma ClaimantsJoin(callers: map<nat, Waiting>, c: nat, x: nat, id: nat)
    requires c !in callers
    ensures |Claimants(callers[c := Listening(x)], id)| == |Claimants(callers, id)|
  {
    ClaimantsChange(callers, c, Listening(x), id);
    assert callers - {c} == callers;
  }

  lemma FindKeepsInv(s: State, e: Event)
    requires Inv(s) && (e.WaitFind? || e.WaitTimeout?)
    ensures Inv(Step(s, e))
  {
    hide Coherent, Claimants, Perform, OnTimer, DoClear;
    forall id <- s.descs ensures Conserved(Step(s, e), id) {
      if e.caller in s.callers {
        ClaimantsLeave(s.callers, e.caller, id);
      } else if e.WaitFind? {
        ClaimantsJoin(s.callers, e.caller, e.id, id);
      }
    }
  }

  lemma HandlingKeepsCoherent(d: Desc, signalled: bool, present: bool, deliveries: nat)
    requires Coherent(d) && (signalled ==> d.signalled)
    ensures Coherent(d.(signalled := signalled, present := present, deliveries := deliveries))
  {
  }

  lemma ClaimKeepsInv(s: State, e: Event)
    requires Inv(s) && e.WaitClaim?
    ensures Inv(Step(s, e))
  {
    hide Coherent, Claimants, Perform, OnTimer, DoClear;
    forall id <- s.descs ensures Coherent(Step(s, e).descs[id]) && Conserved(Step(s, e), id) {
      HandlingKeepsCoherent(s.descs[id], false, s.descs[id].present, s.descs[id].deliveries);
      if e.caller in s.callers {
        ClaimantsMove(s.callers, e.caller, Claimed(s.callers[e.caller].id), id);
      }
    }
  }

  lemma EraseKeepsInv(s: State, e: Event)
    requires Inv(s) && e.WaitErase?
    ensures Inv(Step(s, e))
  {
    hide Coherent, Claimants, Perform, OnTimer, DoClear;
    forall id <- s.descs ensures Conserved(Step(s, e), id) {
      if e.caller in s.callers {
        ClaimantsMove(s.callers, e.caller, Taking(s.callers[e.caller].id), id);
      }
    }
  }

  lemma TakeKeepsInv(s: State, e: Event)
    requires Inv(s) && e.WaitTake?
    ensures Inv(Step(s, e))
  {
    hide Coherent, Claimants, Perform, OnTimer, DoClear;
    forall id <- s.descs ensures Coherent(Step(s, e).descs[id]) && Conserved(Step(s, e), id) {
      HandlingKeepsCoherent(s.descs[id], s.descs[id].signalled, false, s.descs[id].deliveries + 1);
      if e.caller in s.callers {
        ClaimantsLeave(s.callers, e.caller, id);
      }
    }
  }

  lemma StepKeepsInv(s: State, e: Event)
    requires Inv(s)
    ensures Inv(Step(s, e))
  {
    hide Inv, Step;
    if e.Queue? { QueueKeepsInv(s, e); }
    else if e.Clear? { ClearKeepsInv(s, e); }
    else if OfTimer(e) { TimerKeepsInv(s, e); }
    else if OfPerformer(e) { PerformKeepsInv(s, e); }
    else if e.WaitClaim? { ClaimKeepsInv(s, e); }
    else if e.WaitErase? { EraseKeepsInv(s, e); }
    else if e.WaitTake? { TakeKeepsInv(s, e); }
    else { FindKeepsInv(s, e); }
  }

  lemma ClearKeepsInv(s: State, e: Event)
    requires Inv(s) && e.Clear?
    ensures Inv(Step(s, e))
  {
    hide Coherent, Claimants;
  }

  /** Past its start deadline, or its requester gone, or started and not heard of for a minute: as the timer asks. */
  predicate Overdue(d: Desc, id: nat, e: Event) {
    match e
    case TimeoutAbort(now) => d.deadline < now
    case KilledAbort(dead) => id in dead
    case KeepAliveAbort(now) => (d.status == Ready || d.status == Dispatched) && now - d.lastKeepAlive > 60_000
    case _ => false
  }

  /** Each timer aborts exactly the overdue entries of the table, and an acknowledged task was heard of.  Nothing else of
      any task changes, and no flag is cleared. */
  lemma TimersExactly(s: State, e: Event, id: nat)
    requires id in s.descs && OfTimer(e)
    ensures var t := Step(s, e);
      var d := s.descs[id];
      && t == s.(descs := t.descs) && t.descs.Keys == s.descs.Keys
      && t.descs[id] == d.(aborted := t.descs[id].aborted, lastKeepAlive := t.descs[id].lastKeepAlive)
      && (t.descs[id].aborted <==> d.aborted || (id in s.table && Overdue(d, id, e)))
      && t.descs[id].lastKeepAlive ==
           if e.KeepAliveDone? && id in s.table && id in e.acknowledged then e.now else d.lastKeepAlive
  {
    hide Perform, OnCaller, DoClear;
  }

  lemma {:induction false} RunKeepsInv(s: State, es: seq<Event>)
    requires Inv(s)
    ensures Inv(Run(s, es))
  {
    hide Step, Inv;
    if es != [] {
      RunKeepsInv(s, es[..|es| - 1]);
      StepKeepsInv(Run(s, es[..|es| - 1]), es[|es| - 1]);
    }
  }

  lemma InvAlways(es: seq<Event>)
    ensures Inv(Run(Init(), es))
  {
    RunKeepsInv(Init(), es);
  }

  /** What no step undoes: statuses and deliveries only advance, a set abort flag stays set, and an id once
      issued never comes into the table again. */
  ghost predicate Advances(s: State, t: State, id: nat)
    requires id in s.descs
  {
    && id in t.descs
    && Rank(t.descs[id].status) >= Rank(s.descs[id].status)
    && t.descs[id].deliveries >= s.descs[id].deliveries
    && (s.descs[id].aborted ==> t.descs[id].aborted)
    && (id !in s.table ==> id !in t.table)
  }

  /** What only the performing thread writes. */
  predicate SameBooks(d: Desc, r: Desc) {
    && r.status == d.status && r.phase == d.phase && r.threw == d.threw
    && r.granted == d.granted && r.released == d.released && r.joined == d.joined && r.left == d.left
  }

  lemma StepAdvances(s: State, e: Event, id: nat)
    requires Inv(s) && id in s.descs
    ensures Advances(s, Step(s, e), id)
  {
    hide Step, Inv, Coherent, Advances;
    if e.Queue? || e.Clear? { TableAdvances(s, e, id); }
    else if OfTimer(e) { TimerAdvances(s, e, id); }
    else if OfPerformer(e) { PerformAdvances(s, e, id); }
    else { CallerAdvances(s, e, id); }
  }

  lemma TableAdvances(s: State, e: Event, id: nat)
    requires Inv(s) && id in s.descs && (e.Queue? || e.Clear?)
    ensures Advances(s, Step(s, e), id)
    ensures SameBooks(s.descs[id], Step(s, e).descs[id])
  {
    hide Perform, OnTimer, OnCaller, Coherent, Claimants, Clearable;
  }

  lemma TimerAdvances(s: State, e: Event, id: nat)
    requires id in s.descs && OfTimer(e)
    ensures Advances(s, Step(s, e), id)
    ensures SameBooks(s.descs[id], Step(s, e).descs[id])
  {
    hide Perform, OnCaller, DoClear, Timed;
    TimerTouchesFlagsOnly(s.descs[id], id, e);
  }

  lemma PerformAdvances(s: State, e: Event, id: nat)
    requires Inv(s) && id in s.descs && OfPerformer(e)
    ensures Advances(s, Step(s, e), id)
  {
    hide Perform, OnTimer, OnCaller, DoClear, Coherent, Inv;
    if e.id in s.descs {
      CoherentAt(s, e.id);
      PerformMovesForward(s.descs[e.id], e);
    }
  }

  lemma CallerAdvances(s: State, e: Event, id: nat)
    requires id in s.descs && (e.WaitFind? || e.WaitTimeout? || e.WaitClaim? || e.WaitErase? || e.WaitTake?)
    ensures Advances(s, Step(s, e), id)
  {
    hide Perform, OnTimer, DoClear;
  }

  lemma {:induction false} RunAdvances(s: State, es: seq<Event>, id: nat)
    requires Inv(s) && id in s.descs
    ensures Inv(Run(s, es)) && Advances(s, Run(s, es), id)
  {
    hide Step, Inv;
    if es != [] {
      RunAdvances(s, es[..|es| - 1], id);
      StepKeepsInv(Run(s, es[..|es| - 1]), es[|es| - 1]);
      StepAdvances(Run(s, es[..|es| - 1]), es[|es| - 1], id);
    }
  }

  /** Over every interleaving: completion is signalled at most once and exactly when the task is done; the
      task is handed to a caller at most once, only after that, and is then gone from the table; a task that is
      done has given back, once and in order, each grant and each servant reference it took, exactly when its wait
      for the servant did not throw.  When it did, the one reference stays out, and so does the grant taken if it
      ran on a servant of its own. */
  lemma Lifecycle(es: seq<Event>, id: nat)
    requires id in Run(Init(), es).descs
    ensures var s := Run(Init(), es);
      var d := s.descs[id];
      && d.completions == (if d.status == Done then 1 else 0)
      && d.deliveries <= 1 && |d.granted| <= 1 && |d.joined| <= 1
      && (d.deliveries > 0 ==> d.status == Done && id !in s.table)
      && (d.status == Done ==> (d.granted == d.released && d.joined == d.left <==> !d.threw))
      && (d.threw ==> d.released == d.left == [] && |d.joined| == 1)
  {
    hide Run;
    InvAlways(es);
    CoherentAt(Run(Init(), es), id);
    DeliveredOnce(Run(Init(), es), id);
    var d := Run(Init(), es).descs[id];
    if d.status == Done {
      DoneIsCoherent(d);
    }
  }

  lemma DoneIsCoherent(d: Desc)
    requires Coherent(d) && d.status == Done
    ensures d.granted == d.released && d.joined == d.left <==> !d.threw
  {
  }

  // ---------------------------------------------------------------------------------------------
  // An exception out of the wait
  // ---------------------------------------------------------------------------------------------

  /** Callers, timers and the threads of other tasks leave a task's books alone. */
  lemma OthersKeepBooks(s: State, e: Event, id: nat)
    requires Inv(s) && id in s.descs && !(OfPerformer(e) && e.id == id)
    ensures id in Step(s, e).descs && SameBooks(s.descs[id], Step(s, e).descs[id])
  {
    hide Step, Inv, Coherent, SameBooks;
    if e.Queue? || e.Clear? { TableAdvances(s, e, id); }
    else if OfTimer(e) { TimerAdvances(s, e, id); }
    else if OfPerformer(e) { PerformLeavesOthers(s, e, id); }
    else { CallerKeepsBooks(s, e, id); }
  }

  lemma CallerKeepsBooks(s: State, e: Event, id: nat)
    requires id in s.descs && (e.WaitFind? || e.WaitTimeout? || e.WaitClaim? || e.WaitErase? || e.WaitTake?)
    ensures id in Step(s, e).descs && SameBooks(s.descs[id], Step(s, e).descs[id])
  {
    hide Perform, OnTimer, DoClear, Signalled;
  }

  lemma PerformLeavesOthers(s: State, e: Event, id: nat)
    requires id in s.descs && OfPerformer(e) && e.id != id
    ensures id in Step(s, e).descs && SameBooks(s.descs[id], Step(s, e).descs[id])
  {
    hide Perform, OnTimer, OnCaller, DoClear;
  }

  /** The step with which an exception leaves the wait of task `id`. */
  predicate Throws(s: State, e: Event, id: nat) {
    e == WaitThrew(id) && id in s.descs && (s.descs[id].phase.ExistWait? || s.descs[id].phase.NewWait?)
  }

  function TimesThrown(s: State, es: seq<Event>, id: nat): nat {
    if es == [] then 0
    else
      var front := es[..|es| - 1];
      TimesThrown(s, front, id) + if Throws(Run(s, front), es[|es| - 1], id) then 1 else 0
  }

  predicate Threw(s: State, id: nat) {
    id in s.descs && s.descs[id].threw
  }

  lemma StepThrows(s: State, e: Event, id: nat)
    requires Inv(s)
    ensures Threw(Step(s, e), id) <==> Threw(s, id) || Throws(s, e, id)
    ensures !(Threw(s, id) && Throws(s, e, id))
  {
    hide Step, Inv, Coherent;
    if id !in s.descs {
      NewHasNotThrown(s, e, id);
    } else if OfPerformer(e) && e.id == id {
      OwnStepThrows(s, e, id);
    } else {
      OthersKeepBooks(s, e, id);
    }
  }

  lemma OwnStepThrows(s: State, e: Event, id: nat)
    requires Inv(s) && id in s.descs && OfPerformer(e) && e.id == id
    ensures Threw(Step(s, e), id) <==> Threw(s, id) || Throws(s, e, id)
    ensures !(Threw(s, id) && Throws(s, e, id))
  {
    hide Step, Inv, Coherent, Perform;
    CoherentAt(s, id);
    if s.descs[id].threw {
      ThrownIsPast(s.descs[id]);
    }
    PerformStep(s, e);
    PerformThrows(s.descs[id], e);
  }

  lemma ThrownIsPast(d: Desc)
    requires Coherent(d) && d.threw
    ensures !d.phase.ExistWait? && !d.phase.NewWait?
  {
  }

  lemma PerformThrows(d: Desc, e: Event)
    requires OfPerformer(e)
    ensures Perform(d, e).threw <==> d.threw || (e.WaitThrew? && (d.phase.ExistWait? || d.phase.NewWait?))
  {
  }

  lemma NewHasNotThrown(s: State, e: Event, id: nat)
    requires id !in s.descs
    ensures !Threw(Step(s, e), id)
  {
    hide Perform, Timed, Clearable;
  }

  lemma NothingThrown(id: nat)
    ensures !Threw(Run(Init(), []), id)
  {
  }

  /** The flag tells whether the run holds such a step; it holds at most one for each task. */
  lemma {:induction false} ThrewExactly(es: seq<Event>, id: nat)
    ensures TimesThrown(Init(), es, id) == if Threw(Run(Init(), es), id) then 1 else 0
  {
    hide Step, Throws, Threw, Inv;
    if es == [] {
      NothingThrown(id);
    } else {
      var front := es[..|es| - 1];
      ThrewExactly(front, id);
      InvAlways(front);
      StepThrows(Run(Init(), front), es[|es| - 1], id);
    }
  }

  /** Nothing is given back any more once a task is done. */
  lemma {:induction false} DoneKeepsBooks(s: State, es: seq<Event>, id: nat)
    requires Inv(s) && id in s.descs && s.descs[id].status == Done
    ensures id in Run(s, es).descs && SameBooks(s.descs[id], Run(s, es).descs[id])
  {
    hide Step, Inv;
    if es != [] {
      var front := es[..|es| - 1];
      var t, e := Run(s, front), es[|es| - 1];
      DoneKeepsBooks(s, front, id);
      RunKeepsInv(s, front);
      if OfPerformer(e) && e.id == id {
        CoherentAt(t, id);
        PerformMovesForward(t.descs[id], e);
        PerformStep(t, e);
      } else {
        OthersKeepBooks(t, e, id);
      }
    }
  }

  /** Whenever the wait of a task on its own servant throws, the task ends done and signalled with grant and reference
      out, and they stay out over any further run. */
  lemma ThrownKeepsGrant(s: State, id: nat, es: seq<Event>)
    requires Inv(s) && id in s.descs && s.descs[id].phase.NewWait?
    ensures var d := s.descs[id];
      var done := Run(s, [WaitThrew(id), Complete(id)]).descs;
      var t := Run(Run(s, [WaitThrew(id), Complete(id)]), es);
      && id in done && done[id].signalled
      && id in t.descs && t.descs[id].status == Done
      && t.descs[id].granted == [d.phase.grant] && t.descs[id].released == []
      && t.descs[id].joined == [d.servantTask] && t.descs[id].left == []
  {
    hide Run, Step, Inv, Coherent;
    CoherentAt(s, id);
    var d := s.descs[id];
    RunNothing(s);
    RunOn(s, [], WaitThrew(id));
    RunOn(s, [WaitThrew(id)], Complete(id));
    assert [] + [WaitThrew(id)] == [WaitThrew(id)];
    assert [WaitThrew(id)] + [Complete(id)] == [WaitThrew(id), Complete(id)];
    PerformStep(s, WaitThrew(id));
    PerformStep(Step(s, WaitThrew(id)), Complete(id));
    BreaksOff(d, id);
    var t := Run(s, [WaitThrew(id), Complete(id)]);
    RunKeepsInv(s, [WaitThrew(id), Complete(id)]);
    DoneKeepsBooks(t, es, id);
  }

  lemma BreaksOff(d: Desc, id: nat)
    requires Coherent(d) && d.phase.NewWait?
    ensures var r := Perform(Perform(d, WaitThrew(id)), Complete(id));
      && r.status == Done && r.signalled
      && r.granted == [d.phase.grant] && r.released == []
      && r.joined == [d.servantTask] && r.left == []
  {
  }

  /** A task queued, granted 7, started as 3, whose wait throws. */
  function BreakingRun(): seq<Event> {
    [Queue(5), Begin(1), CacheRead(1, false), ExistNone(1), TestAborted(1), GrantTaken(1, 7, 0), Started(1, 3)]
  }

  function OneTask(d: Desc): State {
    State(1, map[1 := d], {1}, map[])
  }

  lemma OneTaskOn(es: seq<Event>, d: Desc, e: Event)
    requires Run(Init(), es) == OneTask(d) && OfPerformer(e) && e.id == 1
    ensures Run(Init(), es + [e]) == OneTask(Perform(d, e))
  {
    hide Run, Perform, Step;
    RunOn(Init(), es, e);
    PerformStep(OneTask(d), e);
  }

  lemma OneTaskQueued()
    ensures Run(Init(), [Queue(5)]) == OneTask(NewDesc(5))
  {
    hide Run, Step;
    RunNothing(Init());
    RunOn(Init(), [], Queue(5));
    assert [] + [Queue(5)] == [Queue(5)];
    QueueStep(Init(), 5);
  }

  lemma UntilAsked(d: Desc)
    requires d == NewDesc(5).(phase := GrantWait)
    ensures Run(Init(), BreakingRun()[..5]) == OneTask(d)
  {
    hide Run, Step;
    OneTaskQueued();
    var es, t := [Queue(5)], NewDesc(5);
    OneTaskOn(es, t, Begin(1));
    es, t := es + [Begin(1)], Perform(t, Begin(1));
    OneTaskOn(es, t, CacheRead(1, false));
    es, t := es + [CacheRead(1, false)], Perform(t, CacheRead(1, false));
    OneTaskOn(es, t, ExistNone(1));
    es, t := es + [ExistNone(1)], Perform(t, ExistNone(1));
    OneTaskOn(es, t, TestAborted(1));
    assert es + [TestAborted(1)] == BreakingRun()[..5];
  }

  lemma UntilWait()
    ensures Run(Init(), BreakingRun()) ==
      OneTask(NewDesc(5).(phase := NewWait(7), status := Dispatched, grant := 7, servantTask := 3,
                          granted := [7], joined := [3]))
  {
    hide Run, Step;
    var es, d := BreakingRun()[..5], NewDesc(5).(phase := GrantWait);
    UntilAsked(d);
    OneTaskOn(es, d, GrantTaken(1, 7, 0));
    var ready := d.(phase := Starting(7), status := Ready, grant := 7, granted := [7]);
    assert d.granted + [7] == [7] && ready.joined + [3] == [3];
    assert Perform(d, GrantTaken(1, 7, 0)) == ready;
    OneTaskOn(es + [GrantTaken(1, 7, 0)], ready, Started(1, 3));
    assert es + [GrantTaken(1, 7, 0)] + [Started(1, 3)] == BreakingRun();
  }

  /** So a run from the start leads to a done task whose grant is never given back. */
  lemma GrantStaysOut(es: seq<Event>)
    ensures var t := Run(Init(), BreakingRun() + [WaitThrew(1), Complete(1)] + es);
      1 in t.descs && t.descs[1].status == Done && t.descs[1].granted == [7] && t.descs[1].released == []
  {
    hide Run, Step, Inv, BreakingRun;
    UntilWait();
    InvAlways(BreakingRun());
    RunAppend(Init(), BreakingRun(), [WaitThrew(1), Complete(1)]);
    RunAppend(Init(), BreakingRun() + [WaitThrew(1), Complete(1)], es);
    ThrownKeepsGrant(Run(Init(), BreakingRun()), 1, es);
  }

  // ---------------------------------------------------------------------------------------------
  // A task that has been given up
  // ---------------------------------------------------------------------------------------------

  /** Aborted before it asks for a grant, or on its way out: `early` if it may still join a running task. */
  predicate GivenUp(d: Desc, early: bool) {
    && d.aborted && d.granted == []
    && (d.phase.GrantTest? || d.phase.Finishing? || d.phase.Finished?
        || (early && (d.phase.Created? || d.phase.CacheCheck? || d.phase.ExistCheck? || d.phase.ExistWait?
                      || d.phase.ExistFree?)))
    && (!early ==> d.joined == [] && (d.status == Pending || d.status == Done))
  }

  lemma PerformKeepsGivenUp(d: Desc, e: Event, early: bool)
    requires OfPerformer(e) && GivenUp(d, early)
    ensures GivenUp(Perform(d, e), early)
  {
  }

  lemma {:induction false} StaysGivenUp(s: State, es: seq<Event>, id: nat, early: bool)
    requires Inv(s) && id in s.descs && GivenUp(s.descs[id], early)
    ensures id in Run(s, es).descs && GivenUp(Run(s, es).descs[id], early)
  {
    hide Step, Inv, GivenUp;
    if es != [] {
      var front := es[..|es| - 1];
      var t, e := Run(s, front), es[|es| - 1];
      StaysGivenUp(s, front, id, early);
      RunKeepsInv(s, front);
      if OfPerformer(e) && e.id == id {
        PerformKeepsGivenUp(t.descs[id], e, early);
        PerformStep(t, e);
      } else {
        OthersKeepBooks(t, e, id);
        StepAdvances(t, e, id);
        SameGivenUp(t.descs[id], Step(t, e).descs[id], early);
      }
    }
  }

  lemma SameGivenUp(d: Desc, r: Desc, early: bool)
    requires GivenUp(d, early) && SameBooks(d, r) && (d.aborted ==> r.aborted)
    ensures GivenUp(r, early)
  {
  }

  /** A task aborted before it has asked for a grant never gets one, whatever follows; aborted when it is about to ask,
      it is never ready or dispatched either, and no servant is asked to run it. */
  lemma AbortedGetsNoGrant(s: State, es: seq<Event>, id: nat)
    requires Inv(s) && id in s.descs && s.descs[id].aborted
    requires var p := s.descs[id].phase; p.Created? || p.CacheCheck? || p.ExistCheck? || p.GrantTest?
    ensures var t := Run(s, es);
      && id in t.descs && t.descs[id].aborted && t.descs[id].granted == []
      && (s.descs[id].phase.GrantTest? ==>
            t.descs[id].joined == [] && t.descs[id].status != Ready && t.descs[id].status != Dispatched)
  {
    hide Step, Run;
    CoherentAt(s, id);
    StaysGivenUp(s, es, id, !s.descs[id].phase.GrantTest?);
  }

  /** While a task holds a grant, that is the grant kept alive for it; while it has joined another's, there is none. */
  lemma KeptAliveGrantIsHeld(es: seq<Event>, id: nat)
    requires id in Run(Init(), es).descs
    ensures var d := Run(Init(), es).descs[id];
      && (d.phase.Starting? || d.phase.NewWait? || d.phase.NewFree? || d.phase.Releasing? ==> d.granted == [d.grant])
      && (d.phase.ExistWait? || d.phase.ExistFree? ==> d.granted == [] && d.grant == 0)
  {
    hide Run;
    InvAlways(es);
    CoherentAt(Run(Init(), es), id);
  }

  // ---------------------------------------------------------------------------------------------
  // How often a task is taken
  // ---------------------------------------------------------------------------------------------

  /** A caller about to take its task finds it done, not yet taken, out of the table, and is the only one. */
  lemma TakesWhatIsThere(es: seq<Event>, caller: nat)
    requires caller in Run(Init(), es).callers && !Run(Init(), es).callers[caller].Listening?
    ensures var s := Run(Init(), es);
      var id := s.callers[caller].id;
      && id in s.descs && s.descs[id].status == Done && s.descs[id].present
      && !s.descs[id].signalled && s.descs[id].deliveries == 0
      && Claimants(s.callers, id) == {caller}
  {
    InvAlways(es);
    OnlyClaimant(Run(Init(), es), caller);
  }

  lemma OnlyClaimant(s: State, caller: nat)
    requires Inv(s) && caller in s.callers && !s.callers[caller].Listening?
    ensures var d := s.descs[s.callers[caller].id];
      && d.status == Done && d.present && !d.signalled && d.deliveries == 0
      && Claimants(s.callers, s.callers[caller].id) == {caller}
  {
    var id := s.callers[caller].id;
    var claimants := Claimants(s.callers, id);
    assert caller in claimants;
    SubsetCard({caller}, claimants);
    assert s.descs[id].completions <= 1;
  }

  /** The step with which a caller takes task `id`. */
  predicate Takes(s: State, e: Event, id: nat) {
    e.WaitTake? && e.caller in s.callers && s.callers[e.caller] == Taking(id) && id in s.descs
  }

  function TimesTaken(s: State, es: seq<Event>, id: nat): nat {
    if es == [] then 0
    else
      var front := es[..|es| - 1];
      TimesTaken(s, front, id) + if Takes(Run(s, front), es[|es| - 1], id) then 1 else 0
  }

  function Deliveries(s: State, id: nat): nat {
    if id in s.descs then s.descs[id].deliveries else 0
  }

  lemma StepDelivers(s: State, e: Event, id: nat)
    requires Inv(s)
    ensures Deliveries(Step(s, e), id) == Deliveries(s, id) + if Takes(s, e, id) then 1 else 0
  {
    hide Step, Inv, Takes, Deliveries;
    if e.Queue? || e.Clear? { TableDelivers(s, e, id); }
    else if OfTimer(e) { TimerDelivers(s, e, id); }
    else if OfPerformer(e) { PerformDelivers(s, e, id); }
    else { CallerDelivers(s, e, id); }
  }

  lemma TableDelivers(s: State, e: Event, id: nat)
    requires Inv(s) && (e.Queue? || e.Clear?)
    ensures Deliveries(Step(s, e), id) == Deliveries(s, id) && !Takes(s, e, id)
  {
    hide Perform, OnTimer, OnCaller, Coherent, Conserved, Clearable;
  }

  lemma TimerDelivers(s: State, e: Event, id: nat)
    requires OfTimer(e)
    ensures Deliveries(Step(s, e), id) == Deliveries(s, id) && !Takes(s, e, id)
  {
    hide Perform, OnCaller, DoClear, Timed;
    if id in s.descs {
      TimerTouchesFlagsOnly(s.descs[id], id, e);
    }
  }

  lemma PerformDelivers(s: State, e: Event, id: nat)
    requires Inv(s) && OfPerformer(e)
    ensures Deliveries(Step(s, e), id) == Deliveries(s, id) && !Takes(s, e, id)
  {
    hide Perform, OnTimer, OnCaller, DoClear, Coherent, Inv;
    if e.id in s.descs {
      CoherentAt(s, e.id);
      PerformMovesForward(s.descs[e.id], e);
    }
  }

  lemma CallerDelivers(s: State, e: Event, id: nat)
    requires e.WaitFind? || e.WaitTimeout? || e.WaitClaim? || e.WaitErase? || e.WaitTake?
    ensures Deliveries(Step(s, e), id) == Deliveries(s, id) + if Takes(s, e, id) then 1 else 0
  {
    hide Perform, OnTimer, DoClear;
  }

  /** The delivery counter is the number of times a caller has taken the task; that is at most once in any run,
      so WaitForTask answers OK at most once for each id. */
  lemma {:induction false} TakenAtMostOnce(es: seq<Event>, id: nat)
    ensures Deliveries(Run(Init(), es), id) == TimesTaken(Init(), es, id) <= 1
  {
    hide Step, Takes, Inv;
    if es != [] {
      var front := es[..|es| - 1];
      TakenAtMostOnce(front, id);
      InvAlways(front);
      StepDelivers(Run(Init(), front), es[|es| - 1], id);
    }
    InvAlways(es);
    DeliveredOnce(Run(Init(), es), id);
  }

  lemma DeliveredOnce(s: State, id: nat)
    requires Inv(s)
    ensures Deliveries(s, id) <= 1
  {
  }

  /** A task that has been taken stays taken: done, without its object, and out of the table for good. */
  lemma TakenForGood(s: State, es: seq<Event>, id: nat)
    requires Inv(s) && id in s.descs && s.descs[id].deliveries > 0
    ensures var t := Run(s, es);
      && id in t.descs && t.descs[id].deliveries == 1 && t.descs[id].status == Done && !t.descs[id].present
      && id !in t.table
  {
    hide Step, Run;
    RunAdvances(s, es, id);
    DeliveredOnce(Run(s, es), id);
  }

  /** The only two ways out of the table: a caller with the completion erases the entry, or the clearing
      timer meets a task that is done and either aborted or a minute past its deadline. */
  lemma LeavesTableExactly(s: State, e: Event, id: nat)
    requires Inv(s) && id in s.table
    ensures id !in Step(s, e).table <==>
      || (e.WaitErase? && e.caller in s.callers && s.callers[e.caller] == Claimed(id))
      || (e.Clear? && s.descs[id].status == Done
          && (s.descs[id].aborted || s.descs[id].deadline + 60_000 < e.now))
  {
    hide Coherent, Perform, Timed, OnCaller, DoClear;
    if e.Clear? {
      ClearLeaves(s, e.now, id);
    } else if e.WaitFind? || e.WaitTimeout? || e.WaitClaim? || e.WaitErase? || e.WaitTake? {
      CallerLeaves(s, e, id);
    }
  }

  lemma ClearLeaves(s: State, now: int, id: nat)
    requires Inv(s) && id in s.table
    ensures id !in DoClear(s, now).table <==> Clearable(s.descs[id], now)
  {
    hide Coherent, Clearable;
  }

  lemma CallerLeaves(s: State, e: Event, id: nat)
    requires id in s.table && (e.WaitFind? || e.WaitTimeout? || e.WaitClaim? || e.WaitErase? || e.WaitTake?)
    ensures id !in OnCaller(s, e).table <==> e.WaitErase? && e.caller in s.callers && s.callers[e.caller] == Claimed(id)
  {
  }
}
