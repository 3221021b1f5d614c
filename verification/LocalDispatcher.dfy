/** The client daemon's task table as the program keeps it: descriptors shared between the table, the
    performing thread and the callers, updated in place.  Every method is proved to be steps of `LocalSpec`. */
module LocalDispatcher {
  import opened Seqs
  import Spec = LocalSpec
  import Decimal
  import LocalProperties
  import PackFiles

  class TaskDesc {
    var state: Spec.Status
    var aborted: bool
    var signalled: bool        // the auto-reset completion event
    var hasTask: bool
    var startDeadline: int
    var lastKeepAlive: int
    var grantId: nat
    var servantTaskId: nat
    // where the performing thread stands, and what it and the callers have done
    ghost var phase: Spec.Phase
    ghost var granted: seq<nat>
    ghost var released: seq<nat>
    ghost var joined: seq<nat>
    ghost var left: seq<nat>
    ghost var threw: bool
    ghost var completions: nat
    ghost var deliveries: nat

    ghost function View(): Spec.Desc
      reads this
    {
      Spec.Desc(state, phase, aborted, signalled, hasTask, startDeadline, lastKeepAlive, grantId, servantTaskId,
                granted, released, joined, left, threw, completions, deliveries)
    }

    constructor (deadline: int)
      ensures View() == Spec.NewDesc(deadline)
    {
      state, aborted, signalled, hasTask, startDeadline := Spec.Pending, false, false, true, deadline;
      lastKeepAlive, grantId, servantTaskId := 0, 0, 0;
      phase, granted, released, joined, left, threw := Spec.Created, [], [], [], [], false;
      completions, deliveries := 0, 0;
    }

    lemma Fields()
      ensures View().status == state && View().aborted == aborted && View().deadline == startDeadline
      ensures View().lastKeepAlive == lastKeepAlive && View().grant == grantId && View().signalled == signalled
      ensures View().present == hasTask && View().deliveries == deliveries
    {
    }

    lemma KeptAliveInFields()
      ensures View().grant == grantId
      ensures Spec.KeptAlive(View()) <==> (state == Spec.Ready || state == Spec.Dispatched) && !aborted
    {
    }

    lemma NewFields(deadline: int)
      requires View() == Spec.NewDesc(deadline)
      ensures state == Spec.Pending && !aborted && !signalled && hasTask && startDeadline == deadline
    {
    }

    /** A caller's wait takes the event, which resets itself. */
    method TakeSignal()
      modifies this`signalled
      ensures View() == old(View()).(signalled := false)
    {
      signalled := false;
    }

    /** The task object moves to the caller. */
    method HandOver()
      modifies this`hasTask, this`deliveries
      ensures View() == old(View()).(present := false, deliveries := old(View()).deliveries + 1)
      ensures !hasTask && deliveries == old(deliveries) + 1
    {
      hasTask := false;
      deliveries := deliveries + 1;
    }

    method KeepAlive(now: int)
      modifies this`lastKeepAlive
      ensures lastKeepAlive == now && View() == old(View()).(lastKeepAlive := now)
    {
      lastKeepAlive := now;
    }

    /** Gives the task up; nothing else changes. */
    method Abort()
      modifies this`aborted
      ensures View() == old(View()).(aborted := true)
    {
      aborted := true;
    }

    /** Moves the bookkeeping of the performing thread on by one step. */
    ghost method Record(before: Spec.Desc, e: Spec.Event)
      requires Spec.OfPerformer(e)
      requires var after := Spec.Perform(before, e);
        View() == after.(phase := phase, granted := granted, released := released, joined := joined, left := left,
                         threw := threw, completions := completions, deliveries := deliveries)
      modifies this`phase, this`granted, this`released, this`joined, this`left, this`threw
      modifies this`completions, this`deliveries
      ensures View() == Spec.Perform(before, e)
    {
      var after := Spec.Perform(before, e);
      phase, granted, released := after.phase, after.granted, after.released;
      joined, left, threw := after.joined, after.left, after.threw;
      completions, deliveries := after.completions, after.deliveries;
    }

    /** A step that no other thread can see. */
    ghost method Note(e: Spec.Event)
      requires Spec.Quiet(e)
      modifies this`phase, this`released, this`left, this`threw
      ensures View() == Spec.Perform(old(View()), e)
      ensures phase == Spec.NextPhase(old(phase), aborted, e)
      ensures threw == (old(threw) || (e.WaitThrew? && phase != old(phase)))
    {
      hide Spec.Perform, Spec.NextPhase;
      Spec.QuietStep(View(), e);
      var after := Spec.Perform(View(), e);
      phase, released, left, threw := after.phase, after.released, after.left, after.threw;
    }

    method SetJoined(ghost id: nat, servantTask: nat, now: int)
      requires phase == Spec.ExistCheck
      modifies this
      ensures View() == Spec.Perform(old(View()), Spec.ExistJoined(id, servantTask, now)) && phase == Spec.ExistWait
      ensures threw == old(threw) && granted == old(granted) && joined == old(joined) + [servantTask]
      ensures state == Spec.Dispatched && lastKeepAlive == now && grantId == 0 && servantTaskId == servantTask
      ensures aborted == old(aborted)
    {
      ghost var before := View();
      lastKeepAlive := now;
      grantId := 0;
      servantTaskId := servantTask;
      state := Spec.Dispatched;
      Record(before, Spec.ExistJoined(id, servantTask, now));
    }

    method SetReady(ghost id: nat, grant: nat, now: int)
      requires phase == Spec.GrantWait
      modifies this
      ensures View() == Spec.Perform(old(View()), Spec.GrantTaken(id, grant, now)) && phase == Spec.Starting(grant)
      ensures joined == old(joined) && threw == old(threw) && granted == old(granted) + [grant]
      ensures state == Spec.Ready && lastKeepAlive == now && grantId == grant && aborted == old(aborted)
    {
      ghost var before := View();
      lastKeepAlive := now;
      grantId := grant;
      state := Spec.Ready;
      Record(before, Spec.GrantTaken(id, grant, now));
    }

    method SetDispatched(ghost id: nat, servantTask: nat)
      requires phase.Starting?
      modifies this
      ensures View() == Spec.Perform(old(View()), Spec.Started(id, servantTask)) && phase == Spec.NewWait(old(phase.grant))
      ensures threw == old(threw) && granted == old(granted) && joined == old(joined) + [servantTask]
      ensures state == Spec.Dispatched && servantTaskId == servantTask && aborted == old(aborted)
    {
      ghost var before := View();
      state := Spec.Dispatched;
      servantTaskId := servantTask;
      Record(before, Spec.Started(id, servantTask));
    }

    method SetDone(ghost id: nat)
      requires phase == Spec.Finishing
      modifies this
      ensures View() == Spec.Perform(old(View()), Spec.Complete(id)) && phase == Spec.Finished && signalled
      ensures state == Spec.Done && threw == old(threw) && joined == old(joined) && granted == old(granted)
      ensures aborted == old(aborted)
    {
      ghost var before := View();
      state := Spec.Done;
      signalled := true;
      Record(before, Spec.Complete(id));
    }
  }

  datatype WaitStatus = OK | Timeout | NotFound

  /** What the wait for a servant's task came to: no output, or an exit code and the text of the output files. */
  datatype Reply = NoOutput | Output(exitCode: int, file: string)

  predicate Breaks(reply: Reply) {
    reply.Output? && reply.exitCode == 0 && PackFiles.Unpack(reply.file) == PackFiles.Throws
  }

  /** An answer of a servant breaks the wait exactly when the compilation succeeded without output files. */
  lemma BreaksExactly(exitCode: int, files: seq<PackFiles.File>)
    requires |PackFiles.Packed(files)| <= Decimal.LONG_MAX && forall f <- files :: PackFiles.Nameable(f.suffix)
    ensures Breaks(Output(exitCode, PackFiles.Packed(files))) <==> exitCode == 0 && files == []
  {
    hide PackFiles.Packed, PackFiles.Unpack;
    if files == [] {
      PackFiles.NoFilesThrow();
    } else {
      PackFiles.UnpackInvertsPack(files);
    }
  }

  /** The output files of a compilation that succeeded are unpacked while its answer is read, and nothing there
      catches an exception. */
  method ReadReply(reply: Reply) returns (threw: bool)
    ensures threw <==> Breaks(reply)
  {
    threw := false;
    if reply.Output? && reply.exitCode == 0 {
      var files := PackFiles.TryUnpack(reply.file);
      threw := files == PackFiles.Throws;
    }
  }

  predicate Settles(entry: Option<string>) {
    entry.Some? && PackFiles.Unpack(entry.value) != PackFiles.Malformed
  }

  /** Whatever text the files come as: an answer breaks the wait exactly when the compilation succeeded and the text is
      unreadable; a cache entry ends the work exactly when there is one, and it is unreadable or unpacks into files. */
  lemma TextsDecide(exitCode: int, text: string)
    requires |text| <= Decimal.LONG_MAX
    ensures Breaks(Output(exitCode, text)) <==> exitCode == 0 && PackFiles.Unreadable(text)
    ensures !Breaks(NoOutput) && !Settles(None)
    ensures Settles(Some(text)) <==> PackFiles.Unreadable(text) || PackFiles.Unpack(text).Files?
  {
    hide PackFiles.Unpack, PackFiles.Unreadable;
    PackFiles.ThrowsExactly(text);
  }

  /** A cache entry that cannot be unpacked counts as none; one whose unpacking throws ends the work there. */
  method ReadCache(entry: Option<string>) returns (over: bool)
    ensures over <==> Settles(entry)
  {
    over := false;
    if entry.Some? {
      var files := PackFiles.TryUnpack(entry.value);
      over := files != PackFiles.Malformed;
    }
  }

  class TaskDispatcher {
    var nextId: nat
    var tasks: map<nat, TaskDesc>
    ghost var descs: map<nat, TaskDesc>   // every descriptor made, in the table or still held by a thread
    ghost var callers: map<nat, Spec.Waiting>

    ghost function Descs(): map<nat, Spec.Desc>
      reads this`descs, descs.Values
    {
      map id | id in descs :: descs[id].View()
    }

    ghost function View(): Spec.State
      reads this, descs.Values
    {
      Spec.State(nextId, Descs(), tasks.Keys, callers)
    }

    ghost predicate Valid()
      reads this
    {
      && (forall a, b :: a in descs && b in descs && descs[a] == descs[b] ==> a == b)
      && (forall id <- descs :: id <= nextId)
      && (forall id <- tasks :: id in descs && descs[id] == tasks[id])
    }

    constructor ()
      ensures Valid() && View() == Spec.Init()
    {
      nextId, tasks, descs, callers := 0, map[], map[], map[];
    }

    method QueueTask(deadline: int) returns (id: nat)
      requires Valid()
      modifies this
      ensures Valid() && id == nextId == old(nextId) + 1
      ensures id in tasks && fresh(tasks[id]) && tasks == old(tasks)[id := tasks[id]]
      ensures tasks[id].state == Spec.Pending && !tasks[id].aborted && !tasks[id].signalled && tasks[id].hasTask
      ensures tasks[id].startDeadline == deadline
      ensures View() == Spec.Step(old(View()), Spec.Queue(deadline))
    {
      hide Spec.Step, Spec.NewDesc, TaskDesc.View, Descs;
      Spec.QueueStep(View(), deadline);
      var desc := new TaskDesc(deadline);
      id := nextId + 1;
      Enlist(id, desc);
      nextId := id;
      desc.NewFields(deadline);
    }

    method Enlist(id: nat, desc: TaskDesc)
      requires id !in descs && desc !in descs.Values
      modifies this`tasks, this`descs
      ensures tasks == old(tasks)[id := desc] && descs == old(descs)[id := desc]
      ensures Descs() == old(Descs())[id := desc.View()]
    {
      hide TaskDesc.View;
      tasks := tasks[id := desc];
      descs := descs[id := desc];
      assert Descs().Keys == old(Descs()).Keys + {id};
    }

    // -------------------------------------------------------------------------------------------
    // The timers
    // -------------------------------------------------------------------------------------------

    /** The descriptors of the table outside `todo` have been met by the timer. */
    ghost predicate Visited(before: map<nat, Spec.Desc>, e: Spec.Event, todo: set<nat>)
      requires Spec.OfTimer(e)
      reads this, descs.Values
    {
      before.Keys == descs.Keys && forall id <- descs ::
        descs[id].View() == if id in tasks && id !in todo then Spec.Timed(before[id], id, e) else before[id]
    }

    lemma Skip(before: map<nat, Spec.Desc>, e: Spec.Event, todo: set<nat>, id: nat)
      requires Valid() && Spec.OfTimer(e) && Visited(before, e, todo) && id in todo && id in tasks
      requires Spec.Timed(before[id], id, e) == before[id]
      ensures Visited(before, e, todo - {id})
    {
      hide TaskDesc.View, Spec.Timed;
    }

    method AbortEntry(desc: TaskDesc, ghost id: nat, ghost before: map<nat, Spec.Desc>, ghost e: Spec.Event,
                      ghost todo: set<nat>)
      requires Valid() && Spec.OfTimer(e) && Visited(before, e, todo) && id in todo && id in tasks
      requires tasks[id] == desc && Spec.Timed(before[id], id, e) == before[id].(aborted := true)
      modifies desc`aborted
      ensures Visited(before, e, todo - {id})
      ensures desc.View() == old(desc.View()).(aborted := true)
      ensures forall other <- tasks :: other != id ==> tasks[other].View() == old(tasks[other].View())
    {
      hide TaskDesc.View, Spec.Timed, Spec.OfTimer;
      desc.Abort();
    }

    lemma AllVisited(before: Spec.State, e: Spec.Event)
      requires Valid() && Spec.OfTimer(e) && Visited(before.descs, e, {})
      requires before == View().(descs := before.descs)
      ensures View() == Spec.OnTimer(before, e)
    {
      hide TaskDesc.View, Spec.Timed, Spec.OfTimer;
      var after := Spec.OnTimer(before, e).descs;
      forall id ensures id in Descs() <==> id in after {
      }
      forall id | id in descs ensures Descs()[id] == after[id] {
        assert descs[id].View() == if id in tasks then Spec.Timed(before.descs[id], id, e) else before.descs[id];
      }
    }

    method OnTimerTimeoutAbort(now: int)
      requires Valid()
      modifies tasks.Values
      ensures Valid()
      ensures View() == Spec.OnTimer(old(View()), Spec.TimeoutAbort(now))
    {
      hide TaskDesc.View, Spec.OnTimer, Visited;
      ghost var e := Spec.TimeoutAbort(now);
      var todo := tasks.Keys;
      FirstVisit(e);
      while todo != {}
        invariant todo <= tasks.Keys
        invariant Visited(old(Descs()), e, todo)
        decreases |todo|
      {
        var id :| id in todo;
        tasks[id].Fields();
        NotYet(old(Descs()), e, todo, id);
        if tasks[id].startDeadline < now {
          AbortEntry(tasks[id], id, old(Descs()), e, todo);
        } else {
          Skip(old(Descs()), e, todo, id);
        }
        todo := todo - {id};
      }
      AllVisited(old(View()), e);
    }

    method OnTimerKilledAbort(dead: set<nat>)
      requires Valid()
      modifies tasks.Values
      ensures Valid()
      ensures View() == Spec.OnTimer(old(View()), Spec.KilledAbort(dead))
    {
      hide TaskDesc.View, Spec.OnTimer, Visited;
      ghost var e := Spec.KilledAbort(dead);
      var todo := tasks.Keys;
      FirstVisit(e);
      while todo != {}
        invariant todo <= tasks.Keys
        invariant Visited(old(Descs()), e, todo)
        decreases |todo|
      {
        var id :| id in todo;
        tasks[id].Fields();
        NotYet(old(Descs()), e, todo, id);
        if !tasks[id].aborted && id in dead {
          AbortEntry(tasks[id], id, old(Descs()), e, todo);
        } else {
          Skip(old(Descs()), e, todo, id);
        }
        todo := todo - {id};
      }
      AllVisited(old(View()), e);
    }

    /** Collects the grants to keep alive: those of the started, undone, unaborted tasks heard of within a
        minute; the others of them are aborted. */
    method CollectKeepAlive(now: int) returns (requests: map<nat, nat>)
      requires Valid()
      modifies tasks.Values
      ensures Valid()
      ensures View() == Spec.OnTimer(old(View()), Spec.KeepAliveAbort(now))
      ensures forall id :: id in requests <==>
        id in tasks && (tasks[id].state == Spec.Ready || tasks[id].state == Spec.Dispatched) && !tasks[id].aborted
      ensures forall id <- requests :: requests[id] == tasks[id].grantId
    {
      hide TaskDesc.View, Spec.OnTimer, Visited, Spec.KeptAlive, Descs;
      requests := map[];
      ghost var e := Spec.KeepAliveAbort(now);
      var todo := tasks.Keys;
      FirstVisit(e);
      while todo != {}
        invariant todo <= tasks.Keys
        invariant Visited(old(Descs()), e, todo)
        invariant forall id :: id in requests <==> id in tasks && id !in todo && Spec.KeptAlive(tasks[id].View())
        invariant forall id <- requests :: requests[id] == tasks[id].View().grant
        decreases |todo|
      {
        var id :| id in todo;
        var keep := VisitForKeepAlive(tasks[id], id, now, old(Descs()), todo);
        if keep {
          requests := requests[id := tasks[id].grantId];
          tasks[id].Fields();
        }
        todo := todo - {id};
      }
      AllVisited(old(View()), e);
      forall id <- tasks ensures tasks[id].View().grant == tasks[id].grantId && (Spec.KeptAlive(tasks[id].View()) <==>
        (tasks[id].state == Spec.Ready || tasks[id].state == Spec.Dispatched) && !tasks[id].aborted)
      {
        tasks[id].KeptAliveInFields();
      }
    }

    method VisitForKeepAlive(desc: TaskDesc, ghost id: nat, now: int, ghost before: map<nat, Spec.Desc>,
                             ghost todo: set<nat>)
      returns (keep: bool)
      requires Valid() && Visited(before, Spec.KeepAliveAbort(now), todo) && id in todo && id in tasks && tasks[id] == desc
      modifies desc`aborted
      ensures Visited(before, Spec.KeepAliveAbort(now), todo - {id})
      ensures keep <==> Spec.KeptAlive(desc.View())
      ensures desc.View().grant == old(desc.View()).grant
      ensures forall other <- tasks :: other != id ==> tasks[other].View() == old(tasks[other].View())
    {
      hide TaskDesc.View, Visited;
      ghost var e := Spec.KeepAliveAbort(now);
      desc.Fields();
      NotYet(before, e, todo, id);
      keep := false;
      if desc.state == Spec.Pending || desc.state == Spec.Done {
        Skip(before, e, todo, id);
      } else if desc.aborted {
        Skip(before, e, todo, id);
      } else if now - desc.lastKeepAlive > Spec.MINUTE {
        AbortEntry(desc, id, before, e, todo);
        desc.Fields();
      } else {
        keep := true;
        Skip(before, e, todo, id);
      }
    }

    /** The answer to the request: every task still in the table whose grant was kept alive was heard of at the
        time of asking; an answer of another length was dropped before. */
    method ConfirmKeepAlive(ids: seq<nat>, statuses: seq<bool>, now: int)
      requires Valid() && |ids| == |statuses|
      modifies tasks.Values
      ensures Valid()
      ensures View() == Spec.OnTimer(old(View()), Spec.KeepAliveDone(Acknowledged(ids, statuses, |ids|), now))
      ensures forall i :: 0 <= i < |ids| && statuses[i] && ids[i] in tasks ==> tasks[ids[i]].lastKeepAlive == now
      ensures forall id <- tasks :: (forall i :: 0 <= i < |ids| && ids[i] == id ==> !statuses[i]) ==>
        tasks[id].lastKeepAlive == old(tasks[id].lastKeepAlive)
    {
      hide TaskDesc.View, Spec.OnTimer, Descs;
      NoneAcknowledged(ids, statuses, now);
      for i := 0 to |ids|
        invariant forall k :: 0 <= k < i && statuses[k] && ids[k] in tasks ==> tasks[ids[k]].lastKeepAlive == now
        invariant forall id <- tasks :: (forall k :: 0 <= k < i && ids[k] == id ==> !statuses[k]) ==>
          tasks[id].lastKeepAlive == old(tasks[id].lastKeepAlive)
        invariant View() == Spec.OnTimer(old(View()), Spec.KeepAliveDone(Acknowledged(ids, statuses, i), now))
      {
        OneMoreAcknowledged(old(View()), ids, statuses, i, now);
        if statuses[i] {
          if ids[i] in tasks {
            HeardOf(tasks[ids[i]], ids[i], now);
          }
        }
      }
    }

    static function Acknowledged(ids: seq<nat>, statuses: seq<bool>, n: nat): set<nat>
      requires n <= |ids| == |statuses|
    {
      set i | 0 <= i < n && statuses[i] :: ids[i]
    }

    lemma NoneAcknowledged(ids: seq<nat>, statuses: seq<bool>, now: int)
      requires Valid() && |ids| == |statuses|
      ensures View() == Spec.OnTimer(View(), Spec.KeepAliveDone(Acknowledged(ids, statuses, 0), now))
      ensures View().table <= View().descs.Keys
    {
      hide TaskDesc.View;
      var t := Spec.OnTimer(View(), Spec.KeepAliveDone(Acknowledged(ids, statuses, 0), now));
      assert t.descs == Descs();
    }

    static lemma OneMoreAcknowledged(s: Spec.State, ids: seq<nat>, statuses: seq<bool>, i: nat, now: int)
      requires i < |ids| == |statuses| && s.table <= s.descs.Keys
      ensures var t := Spec.OnTimer(s, Spec.KeepAliveDone(Acknowledged(ids, statuses, i), now));
        t.descs.Keys == s.descs.Keys &&
        Spec.OnTimer(s, Spec.KeepAliveDone(Acknowledged(ids, statuses, i + 1), now)) ==
          if statuses[i] && ids[i] in s.table then
            t.(descs := t.descs[ids[i] := t.descs[ids[i]].(lastKeepAlive := now)])
          else t
    {
      var more := Acknowledged(ids, statuses, i + 1);
      assert more == Acknowledged(ids, statuses, i) + if statuses[i] then {ids[i]} else {};
    }

    method HeardOf(desc: TaskDesc, ghost id: nat, now: int)
      requires Valid() && id in tasks && tasks[id] == desc
      modifies desc`lastKeepAlive
      ensures desc.lastKeepAlive == now
      ensures id in old(Descs()) && Descs() == old(Descs())[id := old(Descs())[id].(lastKeepAlive := now)]
    {
      hide TaskDesc.View;
      ghost var before := Descs();
      desc.KeepAlive(now);
      assert Descs() == before[id := before[id].(lastKeepAlive := now)];
    }

    lemma FirstVisit(e: Spec.Event)
      requires Valid() && Spec.OfTimer(e)
      ensures Visited(Descs(), e, tasks.Keys)
    {
      hide TaskDesc.View, Spec.Timed;
    }

    lemma NotYet(before: map<nat, Spec.Desc>, e: Spec.Event, todo: set<nat>, id: nat)
      requires Valid() && Spec.OfTimer(e) && Visited(before, e, todo) && id in todo && id in tasks
      ensures id in before && tasks[id].View() == before[id]
    {
      hide TaskDesc.View, Spec.Timed;
    }

    /** Erases the entries of tasks that are done and nobody will ask for. */
    method OnTimerClear(now: int)
      requires Valid()
      modifies this`tasks
      ensures Valid()
      ensures View() == Spec.DoClear(old(View()), now)
    {
      hide TaskDesc.View;
      ghost var before := tasks;
      var todo := tasks.Keys;
      while todo != {}
        invariant todo <= tasks.Keys
        invariant forall id :: id in tasks <==> id in before && (id in todo || !Spec.Clearable(before[id].View(), now))
        invariant forall id <- tasks :: tasks[id] == before[id]
        decreases |todo|
      {
        var id :| id in todo;
        todo := todo - {id};
        tasks[id].Fields();
        if tasks[id].state != Spec.Done {
          // not over yet
        } else if tasks[id].aborted {
          tasks := tasks - {id};
        } else if tasks[id].startDeadline + Spec.MINUTE < now {
          tasks := tasks - {id};
        }
      }
      assert tasks.Keys == Spec.DoClear(old(View()), now).table;
    }

    // -------------------------------------------------------------------------------------------
    // The thread performing a task
    // -------------------------------------------------------------------------------------------

    ghost predicate Holds(desc: TaskDesc, id: nat)
      reads this
    {
      Valid() && id in descs && descs[id] == desc
    }

    /** When only this descriptor has changed, and by one step of its thread, the run is one event longer. */
    lemma Performed(start: Spec.State, events: seq<Spec.Event>, before: map<nat, Spec.Desc>, id: nat, e: Spec.Event)
      requires id in descs && Spec.OfPerformer(e) && e.id == id
      requires Spec.Run(start, events) == Spec.State(nextId, before, tasks.Keys, callers) && before.Keys == descs.Keys
      requires forall other <- descs ::
        descs[other].View() == if other == id then Spec.Perform(before[id], e) else before[other]
      ensures View() == Spec.Run(start, events + [e])
    {
      hide TaskDesc.View, Spec.Perform, Spec.Run, Spec.Step, Descs;
      Spec.RunOn(start, events, e);
      Spec.PerformStep(Spec.Run(start, events), e);
      OneChanged(before, id, e);
    }

    lemma OneChanged(before: map<nat, Spec.Desc>, id: nat, e: Spec.Event)
      requires id in descs && Spec.OfPerformer(e) && before.Keys == descs.Keys
      requires forall other <- descs ::
        descs[other].View() == if other == id then Spec.Perform(before[id], e) else before[other]
      ensures Descs() == before[id := Spec.Perform(before[id], e)]
    {
      hide TaskDesc.View, Spec.Perform, Spec.OfPerformer;
    }

    /** One quiet step of the performing thread, appended to the run. */
    ghost method Advance(desc: TaskDesc, id: nat, e: Spec.Event, start: Spec.State, events: seq<Spec.Event>)
      returns (longer: seq<Spec.Event>)
      requires Holds(desc, id) && Spec.Quiet(e) && e.id == id && View() == Spec.Run(start, events)
      modifies desc`phase, desc`released, desc`left, desc`threw
      ensures Holds(desc, id) && longer == events + [e] && View() == Spec.Run(start, longer)
      ensures desc.phase == Spec.NextPhase(old(desc.phase), desc.aborted, e)
      ensures desc.threw == (old(desc.threw) || (e.WaitThrew? && desc.phase != old(desc.phase)))
    {
      hide TaskDesc.View, Spec.Run, Spec.Perform;
      var before := Descs();
      desc.Note(e);
      Performed(start, events, before, id, e);
      longer := events + [e];
    }

    /** Between two steps of this thread the callers, the timers and the other threads may go on. */
    method Interleave(desc: TaskDesc, ghost id: nat, ghost start: Spec.State, ghost events: seq<Spec.Event>)
      returns (ghost longer: seq<Spec.Event>)
      requires Holds(desc, id) && View() == Spec.Run(start, events)
      modifies this, descs.Values
      ensures Holds(desc, id) && fresh(descs.Values - old(descs.Values))
      ensures events <= longer && View() == Spec.Run(start, longer)
      ensures forall i :: |events| <= i < |longer| && Spec.OfPerformer(longer[i]) ==> longer[i].id != id
      ensures desc.phase == old(desc.phase) && desc.threw == old(desc.threw)
      ensures desc.granted == old(desc.granted) && desc.joined == old(desc.joined)
      ensures old(desc.aborted) ==> desc.aborted
    {
      longer := events;
    }

    /** Joins a task already running elsewhere, waits for it, and gives its reference back unless the wait throws. */
    method TryGetExistedResult(desc: TaskDesc, ghost id: nat, existed: Option<nat>, reply: Reply, now: int,
                               ghost start: Spec.State, ghost events: seq<Spec.Event>)
      returns (ok: bool, ghost longer: seq<Spec.Event>)
      requires Holds(desc, id) && desc.phase == Spec.ExistCheck && !desc.threw && View() == Spec.Run(start, events)
      modifies this, descs.Values
      ensures Holds(desc, id) && fresh(descs.Values - old(descs.Values))
      ensures View() == Spec.Run(start, longer)
      ensures desc.phase == if ok then Spec.Finishing else Spec.GrantTest
      ensures ok <==> existed.Some?
      ensures desc.threw <==> ok && Breaks(reply)
      ensures desc.granted == old(desc.granted)
      ensures desc.joined == if ok then old(desc.joined) + [existed.value] else old(desc.joined)
      ensures old(desc.aborted) ==> desc.aborted
    {
      hide TaskDesc.View, View, Valid, Spec.Run, Breaks;
      if existed == None {
        longer := Advance(desc, id, Spec.ExistNone(id), start, events);
        ok := false;
      } else {
        longer := MarkJoined(desc, id, existed.value, now, start, events);
        longer := Interleave(desc, id, start, longer);
        longer := AwaitJoined(desc, id, reply, start, longer);
        ok := true;
      }
    }

    /** The wait for the task joined, and the release of the reference behind it. */
    method AwaitJoined(desc: TaskDesc, ghost id: nat, reply: Reply, ghost start: Spec.State, ghost events: seq<Spec.Event>)
      returns (ghost longer: seq<Spec.Event>)
      requires Holds(desc, id) && desc.phase == Spec.ExistWait && !desc.threw && View() == Spec.Run(start, events)
      modifies desc`phase, desc`released, desc`left, desc`threw
      ensures Holds(desc, id) && View() == Spec.Run(start, longer) && desc.phase == Spec.Finishing
      ensures desc.threw <==> Breaks(reply)
    {
      hide TaskDesc.View, View, Valid, Spec.Run, Breaks;
      var threw := ReadReply(reply);
      if threw {
        longer := Advance(desc, id, Spec.WaitThrew(id), start, events);
      } else {
        longer := Advance(desc, id, Spec.ExistWaited(id), start, events);
        longer := Advance(desc, id, Spec.ExistFreed(id), start, longer);
      }
    }

    method MarkJoined(desc: TaskDesc, ghost id: nat, servantTask: nat, now: int,
                      ghost start: Spec.State, ghost events: seq<Spec.Event>)
      returns (ghost longer: seq<Spec.Event>)
      requires Holds(desc, id) && desc.phase == Spec.ExistCheck && View() == Spec.Run(start, events)
      modifies desc
      ensures Holds(desc, id) && View() == Spec.Run(start, longer) && desc.phase == Spec.ExistWait
      ensures desc.threw == old(desc.threw) && desc.granted == old(desc.granted)
      ensures desc.joined == old(desc.joined) + [servantTask]
      ensures desc.state == Spec.Dispatched && desc.lastKeepAlive == now
      ensures desc.grantId == 0 && desc.servantTaskId == servantTask && desc.aborted == old(desc.aborted)
    {
      hide TaskDesc.View, Spec.Run, Spec.Perform;
      ghost var before := Descs();
      ghost var e := Spec.ExistJoined(id, servantTask, now);
      desc.SetJoined(id, servantTask, now);
      Performed(start, events, before, id, e);
      longer := events + [e];
    }

    method MarkReady(desc: TaskDesc, ghost id: nat, grant: nat, now: int,
                     ghost start: Spec.State, ghost events: seq<Spec.Event>)
      returns (ghost longer: seq<Spec.Event>)
      requires Holds(desc, id) && desc.phase == Spec.GrantWait && View() == Spec.Run(start, events)
      modifies desc
      ensures Holds(desc, id) && View() == Spec.Run(start, longer) && desc.phase == Spec.Starting(grant)
      ensures desc.joined == old(desc.joined) && desc.threw == old(desc.threw)
      ensures desc.granted == old(desc.granted) + [grant]
      ensures desc.state == Spec.Ready && desc.lastKeepAlive == now && desc.grantId == grant
    {
      hide TaskDesc.View, Spec.Run, Spec.Perform;
      ghost var before := Descs();
      ghost var e := Spec.GrantTaken(id, grant, now);
      desc.SetReady(id, grant, now);
      Performed(start, events, before, id, e);
      longer := events + [e];
    }

    method MarkDispatched(desc: TaskDesc, ghost id: nat, servantTask: nat,
                          ghost start: Spec.State, ghost events: seq<Spec.Event>)
      returns (ghost longer: seq<Spec.Event>)
      requires Holds(desc, id) && desc.phase.Starting? && View() == Spec.Run(start, events)
      modifies desc
      ensures Holds(desc, id) && View() == Spec.Run(start, longer) && desc.phase == Spec.NewWait(old(desc.phase.grant))
      ensures desc.threw == old(desc.threw) && desc.granted == old(desc.granted)
      ensures desc.joined == old(desc.joined) + [servantTask]
      ensures desc.state == Spec.Dispatched && desc.servantTaskId == servantTask
    {
      hide TaskDesc.View, Spec.Run, Spec.Perform;
      ghost var before := Descs();
      ghost var e := Spec.Started(id, servantTask);
      desc.SetDispatched(id, servantTask);
      Performed(start, events, before, id, e);
      longer := events + [e];
    }

    method MarkDone(desc: TaskDesc, ghost id: nat, ghost start: Spec.State, ghost events: seq<Spec.Event>)
      returns (ghost longer: seq<Spec.Event>)
      requires Holds(desc, id) && desc.phase == Spec.Finishing && View() == Spec.Run(start, events)
      modifies desc
      ensures Holds(desc, id) && View() == Spec.Run(start, longer) && desc.phase == Spec.Finished
      ensures desc.signalled && desc.threw == old(desc.threw) && desc.aborted == old(desc.aborted)
      ensures desc.granted == old(desc.granted) && desc.joined == old(desc.joined)
    {
      hide TaskDesc.View, Spec.Run, Spec.Perform;
      ghost var before := Descs();
      desc.SetDone(id);
      Performed(start, events, before, id, Spec.Complete(id));
      longer := events + [Spec.Complete(id)];
    }

    /** Asks for a grant, once for each of `offers`, until one comes or the task is aborted; runs the task on
        the granted servant; gives back the servant's reference and the grant unless the wait throws.  An aborted
        task asks for none.  It stops short, still asking, only when the offers run out. */
    method StartNewServantTask(desc: TaskDesc, ghost id: nat, offers: seq<Option<nat>>, started: Option<nat>, reply: Reply,
                               now: int, ghost start: Spec.State, ghost events: seq<Spec.Event>)
      returns (over: bool, ghost longer: seq<Spec.Event>)
      requires Holds(desc, id) && desc.phase == Spec.GrantTest && !desc.threw && View() == Spec.Run(start, events)
      modifies this, descs.Values
      ensures Holds(desc, id) && fresh(descs.Values - old(descs.Values))
      ensures View() == Spec.Run(start, longer)
      ensures desc.phase == if over then Spec.Finishing else Spec.GrantWait
      ensures !over ==> FirstOffer(offers) == None
      ensures old(desc.aborted) ==> over && desc.granted == old(desc.granted)
      ensures desc.granted == old(desc.granted) ==> desc.joined == old(desc.joined) && (over ==> desc.aborted)
      ensures desc.granted != old(desc.granted) ==>
        && over && FirstOffer(offers).Some? && desc.granted == old(desc.granted) + [FirstOffer(offers).value]
        && desc.joined == old(desc.joined) + if started.Some? then [started.value] else []
      ensures desc.threw <==> desc.joined != old(desc.joined) && Breaks(reply)
    {
      hide TaskDesc.View, View, Valid, Spec.Run, Breaks;
      var grant, gaveUp;
      grant, gaveUp, longer := AwaitGrant(desc, id, offers, start, events);
      if gaveUp {
        over := true;
      } else if grant == None {
        over := false;
      } else {
        longer := MarkReady(desc, id, grant.value, now, start, longer);
        longer := Interleave(desc, id, start, longer);
        longer := RunOnServant(desc, id, started, reply, start, longer);
        over := true;
      }
    }

    /** The first of the answers that is a grant. */
    static function FirstOffer(offers: seq<Option<nat>>): (r: Option<nat>)
      ensures r == None <==> forall k :: 0 <= k < |offers| ==> offers[k] == None
      ensures r != None ==> exists k :: 0 <= k < |offers| && offers[k] == r && forall j :: 0 <= j < k ==> offers[j] == None
    {
      if offers == [] then None else if offers[0] != None then offers[0] else FirstOffer(offers[1..])
    }

    /** The test of the abort flag that comes before every request. */
    method TestAborted(desc: TaskDesc, ghost id: nat, ghost start: Spec.State, ghost events: seq<Spec.Event>)
      returns (gaveUp: bool, ghost longer: seq<Spec.Event>)
      requires Holds(desc, id) && desc.phase == Spec.GrantTest && View() == Spec.Run(start, events)
      modifies desc`phase, desc`released, desc`left, desc`threw
      ensures Holds(desc, id) && View() == Spec.Run(start, longer) && desc.threw == old(desc.threw)
      ensures gaveUp <==> desc.aborted
      ensures desc.phase == if gaveUp then Spec.Finishing else Spec.GrantWait
    {
      hide TaskDesc.View, View, Valid, Spec.Run;
      gaveUp := desc.aborted;
      longer := Advance(desc, id, Spec.TestAborted(id), start, events);
    }

    method AwaitGrant(desc: TaskDesc, ghost id: nat, offers: seq<Option<nat>>,
                      ghost start: Spec.State, ghost events: seq<Spec.Event>)
      returns (grant: Option<nat>, gaveUp: bool, ghost longer: seq<Spec.Event>)
      requires Holds(desc, id) && desc.phase == Spec.GrantTest && View() == Spec.Run(start, events)
      modifies this, descs.Values
      ensures Holds(desc, id) && fresh(descs.Values - old(descs.Values))
      ensures View() == Spec.Run(start, longer)
      ensures desc.phase == if gaveUp then Spec.Finishing else Spec.GrantWait
      ensures old(desc.aborted) ==> gaveUp
      ensures gaveUp ==> desc.aborted && grant == None
      ensures !gaveUp ==> grant == FirstOffer(offers)
      ensures desc.granted == old(desc.granted) && desc.joined == old(desc.joined) && desc.threw == old(desc.threw)
    {
      hide TaskDesc.View, View, Valid, Spec.Run, Spec.NextPhase;
      grant, gaveUp, longer := None, false, events;
      gaveUp, longer := TestAborted(desc, id, start, longer);
      var k := 0;
      assert offers[0..] == offers;
      while grant == None && !gaveUp && k < |offers|
        invariant Holds(desc, id) && fresh(descs.Values - old(descs.Values))
        invariant View() == Spec.Run(start, longer)
        invariant desc.phase == if gaveUp then Spec.Finishing else Spec.GrantWait
        invariant old(desc.aborted) ==> gaveUp
        invariant gaveUp ==> desc.aborted && grant == None
        invariant desc.granted == old(desc.granted) && desc.joined == old(desc.joined) && desc.threw == old(desc.threw)
        invariant k <= |offers|
        invariant !gaveUp ==> FirstOffer(offers) == if grant == None then FirstOffer(offers[k..]) else grant
        decreases |offers| - k
      {
        assert offers[k..][1..] == offers[k + 1..];
        longer := Interleave(desc, id, start, longer);
        grant := offers[k];
        if grant == None {
          gaveUp, longer := AskAgain(desc, id, start, longer);
        }
        k := k + 1;
      }
    }

    /** The request timed out: the flag is tested before the next one. */
    method AskAgain(desc: TaskDesc, ghost id: nat, ghost start: Spec.State, ghost events: seq<Spec.Event>)
      returns (gaveUp: bool, ghost longer: seq<Spec.Event>)
      requires Holds(desc, id) && desc.phase == Spec.GrantWait && View() == Spec.Run(start, events)
      modifies desc`phase, desc`released, desc`left, desc`threw
      ensures Holds(desc, id) && View() == Spec.Run(start, longer) && desc.threw == old(desc.threw)
      ensures gaveUp <==> desc.aborted
      ensures desc.phase == if gaveUp then Spec.Finishing else Spec.GrantWait
    {
      hide TaskDesc.View, View, Valid, Spec.Run;
      longer := Advance(desc, id, Spec.GrantNone(id), start, events);
      gaveUp, longer := TestAborted(desc, id, start, longer);
    }

    /** Starts the task on the granted servant and gives the grant back, whether or not it could be started, unless
        the wait throws. */
    method RunOnServant(desc: TaskDesc, ghost id: nat, started: Option<nat>, reply: Reply,
                        ghost start: Spec.State, ghost events: seq<Spec.Event>)
      returns (ghost longer: seq<Spec.Event>)
      requires Holds(desc, id) && desc.phase.Starting? && !desc.threw && View() == Spec.Run(start, events)
      modifies this, descs.Values
      ensures Holds(desc, id) && fresh(descs.Values - old(descs.Values))
      ensures View() == Spec.Run(start, longer) && desc.phase == Spec.Finishing
      ensures desc.threw <==> started.Some? && Breaks(reply)
      ensures desc.granted == old(desc.granted)
      ensures desc.joined == old(desc.joined) + if started.Some? then [started.value] else []
    {
      hide TaskDesc.View, View, Valid, Spec.Run, Breaks;
      var threw := false;
      if started == None {
        longer := Advance(desc, id, Spec.StartFailed(id), start, events);
      } else {
        threw, longer := UseServant(desc, id, started.value, reply, start, events);
      }
      if !threw {
        longer := Advance(desc, id, Spec.Released(id), start, longer);
      }
    }

    /** The task runs on the servant; its reference is given back unless the wait throws. */
    method UseServant(desc: TaskDesc, ghost id: nat, servantTask: nat, reply: Reply,
                      ghost start: Spec.State, ghost events: seq<Spec.Event>)
      returns (threw: bool, ghost longer: seq<Spec.Event>)
      requires Holds(desc, id) && desc.phase.Starting? && !desc.threw && View() == Spec.Run(start, events)
      modifies this, descs.Values
      ensures Holds(desc, id) && fresh(descs.Values - old(descs.Values))
      ensures View() == Spec.Run(start, longer) && (desc.threw <==> threw) && (threw <==> Breaks(reply))
      ensures desc.phase == if threw then Spec.Finishing else Spec.Releasing(old(desc.phase.grant))
      ensures desc.granted == old(desc.granted) && desc.joined == old(desc.joined) + [servantTask]
    {
      hide TaskDesc.View, View, Valid, Spec.Run, Breaks;
      longer := MarkDispatched(desc, id, servantTask, start, events);
      longer := Interleave(desc, id, start, longer);
      threw, longer := AwaitServant(desc, id, reply, start, longer);
    }

    /** The wait for the servant's answer, and the release of the reference behind it. */
    method AwaitServant(desc: TaskDesc, ghost id: nat, reply: Reply, ghost start: Spec.State, ghost events: seq<Spec.Event>)
      returns (threw: bool, ghost longer: seq<Spec.Event>)
      requires Holds(desc, id) && desc.phase.NewWait? && !desc.threw && View() == Spec.Run(start, events)
      modifies desc`phase, desc`released, desc`left, desc`threw
      ensures Holds(desc, id) && View() == Spec.Run(start, longer) && (desc.threw <==> threw) && (threw <==> Breaks(reply))
      ensures desc.phase == if threw then Spec.Finishing else Spec.Releasing(old(desc.phase.grant))
    {
      hide TaskDesc.View, View, Valid, Spec.Run, Breaks;
      threw := ReadReply(reply);
      if threw {
        longer := Advance(desc, id, Spec.WaitThrew(id), start, events);
      } else {
        longer := Advance(desc, id, Spec.NewWaited(id), start, events);
        longer := Advance(desc, id, Spec.NewFreed(id), start, longer);
      }
    }

    method TryReadCache(desc: TaskDesc, ghost id: nat, entry: Option<string>, ghost start: Spec.State)
      returns (over: bool, ghost events: seq<Spec.Event>)
      requires Holds(desc, id) && desc.phase == Spec.Created && View() == start == Spec.Run(start, [])
      modifies this, descs.Values
      ensures Holds(desc, id) && fresh(descs.Values - old(descs.Values)) && View() == Spec.Run(start, events)
      ensures desc.phase == if over then Spec.Finishing else Spec.ExistCheck
      ensures over <==> Settles(entry)
      ensures desc.granted == old(desc.granted) && desc.joined == old(desc.joined) && desc.threw == old(desc.threw)
      ensures old(desc.aborted) ==> desc.aborted
    {
      hide TaskDesc.View, View, Valid, Spec.Run, Settles;
      events := Advance(desc, id, Spec.Begin(id), start, []);
      events := Interleave(desc, id, start, events);
      over := ReadCache(entry);
      events := Advance(desc, id, Spec.CacheRead(id, over), start, events);
    }

    /** Without a cached result: joins a running task, or else asks for a grant. */
    method Compile(desc: TaskDesc, ghost id: nat, existed: Option<nat>, offers: seq<Option<nat>>, started: Option<nat>,
                   reply: Reply, now: int, ghost start: Spec.State, ghost events: seq<Spec.Event>)
      returns (over: bool, ghost longer: seq<Spec.Event>)
      requires Holds(desc, id) && desc.phase == Spec.ExistCheck && !desc.threw && View() == Spec.Run(start, events)
      requires desc.granted == desc.joined == []
      modifies this, descs.Values
      ensures Holds(desc, id) && fresh(descs.Values - old(descs.Values)) && View() == Spec.Run(start, longer)
      ensures desc.phase == if over then Spec.Finishing else Spec.GrantWait
      ensures desc.threw <==> desc.joined != [] && Breaks(reply)
      ensures existed.Some? ==> over && desc.granted == [] && desc.joined == [existed.value]
      ensures existed == None && old(desc.aborted) ==> over && desc.granted == desc.joined == []
      ensures existed == None && over && desc.granted == [] ==> desc.aborted && desc.joined == []
      ensures desc.granted != [] ==>
        && existed == None && FirstOffer(offers).Some? && desc.granted == [FirstOffer(offers).value]
        && desc.joined == if started.Some? then [started.value] else []
      ensures !over ==> existed == None && FirstOffer(offers) == None
    {
      hide TaskDesc.View, View, Valid, Spec.Run, Breaks;
      over, longer := TryGetExistedResult(desc, id, existed, reply, now, start, events);
      if !over {
        over, longer := StartNewServantTask(desc, id, offers, started, reply, now, start, longer);
      }
    }

    /** Performs a queued task from end to end, whatever goes on in between: cache, then a task running
        elsewhere, then a grant of its own; on every way out the completion is signalled.  The grant and the
        servant's reference are given back exactly when no wait broke off; one breaks off exactly when it was
        entered and its answer cannot be unpacked without an exception. */
    method PerformTask(desc: TaskDesc, ghost id: nat, entry: Option<string>, existed: Option<nat>, offers: seq<Option<nat>>,
                       started: Option<nat>, reply: Reply, now: int)
      returns (over: bool, ghost events: seq<Spec.Event>)
      requires Holds(desc, id) && desc.phase == Spec.Created && LocalProperties.Inv(View())
      modifies this, descs.Values
      ensures Holds(desc, id) && View() == Spec.Run(old(View()), events) && LocalProperties.Inv(View())
      ensures desc.phase == if over then Spec.Finished else Spec.GrantWait
      ensures over ==> desc.state == Spec.Done && desc.signalled && desc.completions == 1
      ensures over ==> (desc.granted == desc.released && desc.joined == desc.left <==> !desc.threw)
      ensures over ==> (desc.threw <==> desc.joined != [] && Breaks(reply))
      ensures Settles(entry) ==> over && desc.granted == desc.joined == []
      ensures !Settles(entry) && existed.Some? ==> over && desc.granted == [] && desc.joined == [existed.value]
      ensures !Settles(entry) && existed == None && old(desc.aborted) ==> over && desc.granted == desc.joined == []
      ensures !Settles(entry) && existed == None && over && desc.granted == [] ==> desc.aborted && desc.joined == []
      ensures desc.granted != [] ==>
        && FirstOffer(offers).Some? && desc.granted == [FirstOffer(offers).value]
        && desc.joined == if started.Some? then [started.value] else []
      ensures !over ==> !Settles(entry) && existed == None && FirstOffer(offers) == None
    {
      hide TaskDesc.View, View, Valid, LocalProperties.Inv, Spec.Run, Breaks, Settles;
      ghost var start := View();
      NothingYet(desc, id);
      over, events := TryReadCache(desc, id, entry, start);
      if !over {
        over, events := Compile(desc, id, existed, offers, started, reply, now, start, events);
      }
      if over {
        events := MarkDone(desc, id, start, events);
      }
      StillSound(start, events);
      if over {
        GivenBackUnlessThrown(desc, id);
      }
    }

    lemma NothingYet(desc: TaskDesc, id: nat)
      requires Holds(desc, id) && LocalProperties.Inv(View()) && desc.phase == Spec.Created
      ensures !desc.threw && desc.granted == desc.joined == []
      ensures View() == Spec.Run(View(), [])
    {
      LocalProperties.CoherentAt(View(), id);
      assert View().descs[id] == desc.View();
    }

    lemma GivenBackUnlessThrown(desc: TaskDesc, id: nat)
      requires Holds(desc, id) && LocalProperties.Inv(View()) && desc.phase == Spec.Finished
      ensures desc.state == Spec.Done && desc.completions == 1
      ensures desc.granted == desc.released && desc.joined == desc.left <==> !desc.threw
      ensures desc.threw ==> desc.joined != []
    {
      LocalProperties.CoherentAt(View(), id);
      assert View().descs[id] == desc.View();
    }

    // -------------------------------------------------------------------------------------------
    // A caller waiting for a task
    // -------------------------------------------------------------------------------------------

    /** Lets everything but this caller go on. */
    method Await(ghost caller: nat, ghost start: Spec.State, ghost events: seq<Spec.Event>)
      returns (ghost longer: seq<Spec.Event>)
      requires Valid() && caller in callers && View() == Spec.Run(start, events)
      modifies this, descs.Values
      ensures Valid() && fresh(descs.Values - old(descs.Values))
      ensures events <= longer && View() == Spec.Run(start, longer)
      ensures caller in callers && callers[caller] == old(callers[caller])
      ensures forall id <- old(descs) :: id in descs && descs[id] == old(descs[id])
      ensures Spec.CallerSteps(longer, caller) == Spec.CallerSteps(events, caller)
    {
      longer := events;
    }

    method Claim(desc: TaskDesc, ghost id: nat, ghost caller: nat, ghost start: Spec.State, ghost events: seq<Spec.Event>)
      returns (ghost longer: seq<Spec.Event>)
      requires Holds(desc, id) && desc.signalled && View() == Spec.Run(start, events)
      requires caller in callers && callers[caller] == Spec.Listening(id)
      modifies desc`signalled, this`callers
      ensures Holds(desc, id) && View() == Spec.Run(start, longer) && callers == old(callers)[caller := Spec.Claimed(id)]
      ensures longer == events + [Spec.WaitClaim(caller)]
    {
      hide Spec.Run, Spec.Perform, Spec.OnTimer, Spec.DoClear, TaskDesc.View;
      ghost var before := Descs();
      desc.Fields();
      Spec.RunOn(start, events, Spec.WaitClaim(caller));
      desc.TakeSignal();
      callers := callers[caller := Spec.Claimed(id)];
      assert Descs() == before[id := before[id].(signalled := false)];
      longer := events + [Spec.WaitClaim(caller)];
    }

    method Erase(ghost desc: TaskDesc, id: nat, ghost caller: nat, ghost start: Spec.State, ghost events: seq<Spec.Event>)
      returns (ghost longer: seq<Spec.Event>)
      requires Holds(desc, id) && View() == Spec.Run(start, events)
      requires caller in callers && callers[caller] == Spec.Claimed(id)
      modifies this`tasks, this`callers
      ensures Holds(desc, id) && View() == Spec.Run(start, longer) && callers == old(callers)[caller := Spec.Taking(id)]
      ensures longer == events + [Spec.WaitErase(caller)]
      ensures id !in tasks
    {
      hide Spec.Run, Spec.Perform, Spec.OnTimer, Spec.DoClear, TaskDesc.View;
      Spec.RunOn(start, events, Spec.WaitErase(caller));
      tasks := tasks - {id};
      callers := callers[caller := Spec.Taking(id)];
      longer := events + [Spec.WaitErase(caller)];
    }

    /** The caller holds the completion: the object is still there, and nobody has taken it. */
    method TakeTask(desc: TaskDesc, ghost id: nat, ghost caller: nat,
                    ghost start: Spec.State, ghost events: seq<Spec.Event>)
      returns (ghost longer: seq<Spec.Event>)
      requires Holds(desc, id) && View() == Spec.Run(start, events) && LocalProperties.Inv(View())
      requires caller in callers && callers[caller] == Spec.Taking(id)
      modifies desc`hasTask, desc`deliveries, this`callers
      ensures Holds(desc, id) && View() == Spec.Run(start, longer) && callers == old(callers) - {caller}
      ensures longer == events + [Spec.WaitTake(caller)]
      ensures old(desc.hasTask) && old(desc.deliveries) == 0
      ensures desc.state == Spec.Done && !desc.hasTask && desc.deliveries == 1 && id !in tasks
    {
      hide Spec.Run, Spec.Perform, Spec.OnTimer, Spec.DoClear, TaskDesc.View, LocalProperties.Inv;
      ghost var before := Descs();
      ReadyToTake(desc, id, caller);
      Spec.RunOn(start, events, Spec.WaitTake(caller));
      desc.HandOver();
      callers := callers - {caller};
      assert Descs() == before[id := before[id].(present := false, deliveries := before[id].deliveries + 1)];
      longer := events + [Spec.WaitTake(caller)];
    }

    lemma ReadyToTake(desc: TaskDesc, id: nat, caller: nat)
      requires Holds(desc, id) && LocalProperties.Inv(View())
      requires caller in callers && callers[caller] == Spec.Taking(id)
      ensures desc.state == Spec.Done && desc.hasTask && desc.deliveries == 0 && id !in tasks
    {
      LocalProperties.OnlyClaimant(View(), caller);
      desc.Fields();
      assert View().descs[id] == desc.View() && id !in View().table;
    }

    /** Finds the task, waits for its completion, erases the entry and takes the task, everything else going on in
        between.  OK is answered after exactly these four steps of the caller: the task is then done and out of the
        table, its object has moved to the caller, and this was its one delivery.  Otherwise the caller has taken
        nothing. */
    method WaitForTask(id: nat, ghost caller: nat) returns (status: WaitStatus, ghost events: seq<Spec.Event>)
      requires Valid() && LocalProperties.Inv(View()) && caller !in callers
      modifies this, descs.Values
      ensures Valid() && LocalProperties.Inv(View()) && View() == Spec.Run(old(View()), events) && caller !in callers
      ensures status == NotFound <==> id !in old(tasks)
      ensures status == OK ==>
        && id !in tasks && id in descs && descs[id] == old(tasks)[id]
        && old(tasks)[id].state == Spec.Done && !old(tasks)[id].hasTask
        && old(tasks)[id].deliveries == old(tasks[id].deliveries) + 1
      ensures status == Timeout ==> !old(tasks)[id].signalled
      ensures Spec.CallerSteps(events, caller) ==
        match status
        case NotFound => []
        case Timeout => [Spec.WaitFind(caller, id), Spec.WaitTimeout(caller)]
        case OK => [Spec.WaitFind(caller, id), Spec.WaitClaim(caller), Spec.WaitErase(caller), Spec.WaitTake(caller)]
    {
      hide Spec.Run, Spec.Perform, Spec.OnTimer, Spec.DoClear, TaskDesc.View, LocalProperties.Inv, Spec.CallerSteps;
      ghost var start := View();
      events := [];
      Spec.RunNothing(start);
      if id !in tasks {
        Spec.CallerStepsOn([], Spec.WaitFind(caller, id), caller);
        status := NotFound;
      } else {
        var desc := tasks[id];
        NotDelivered(desc, id);
        events := Listen(desc, id, caller, start);
        status, events := AwaitCompletion(desc, id, caller, start, events);
      }
    }

    lemma NotDelivered(desc: TaskDesc, id: nat)
      requires Holds(desc, id) && id in tasks && LocalProperties.Inv(View())
      ensures desc.deliveries == 0
    {
      desc.Fields();
      assert View().descs[id] == desc.View() && id in View().table;
    }

    ghost method Listen(desc: TaskDesc, id: nat, caller: nat, start: Spec.State) returns (events: seq<Spec.Event>)
      requires Valid() && View() == start && id in tasks && tasks[id] == desc && caller !in callers
      modifies this`callers
      ensures Holds(desc, id) && callers == old(callers)[caller := Spec.Listening(id)]
      ensures events == [Spec.WaitFind(caller, id)] && View() == Spec.Run(start, events)
      ensures Spec.CallerSteps(events, caller) == events
    {
      hide Spec.Run, Spec.Perform, Spec.OnTimer, Spec.DoClear, TaskDesc.View, Spec.CallerSteps;
      Spec.RunNothing(start);
      Spec.RunOn(start, [], Spec.WaitFind(caller, id));
      Spec.CallerStepsOn([], Spec.WaitFind(caller, id), caller);
      callers := callers[caller := Spec.Listening(id)];
      events := [Spec.WaitFind(caller, id)];
      assert [] + events == events;
    }

    lemma StillSound(start: Spec.State, events: seq<Spec.Event>)
      requires LocalProperties.Inv(start) && View() == Spec.Run(start, events)
      ensures LocalProperties.Inv(View())
    {
      hide Spec.Run, LocalProperties.Inv;
      LocalProperties.RunKeepsInv(start, events);
    }

    method AwaitCompletion(desc: TaskDesc, id: nat, ghost caller: nat,
                           ghost start: Spec.State, ghost events: seq<Spec.Event>)
      returns (status: WaitStatus, ghost longer: seq<Spec.Event>)
      requires Holds(desc, id) && View() == Spec.Run(start, events) && LocalProperties.Inv(start)
      requires caller in callers && callers[caller] == Spec.Listening(id)
      modifies this, descs.Values
      ensures Holds(desc, id) && View() == Spec.Run(start, longer) && LocalProperties.Inv(View()) && caller !in callers
      ensures status != NotFound
      ensures status == OK ==> id !in tasks && desc.state == Spec.Done && !desc.hasTask && desc.deliveries == 1
      ensures status == Timeout ==> !desc.signalled
      ensures Spec.CallerSteps(longer, caller) == Spec.CallerSteps(events, caller) +
        if status == OK then [Spec.WaitClaim(caller), Spec.WaitErase(caller), Spec.WaitTake(caller)]
        else [Spec.WaitTimeout(caller)]
    {
      hide TaskDesc.View, View, Valid, Spec.Run, Spec.CallerSteps, LocalProperties.Inv;
      longer := Await(caller, start, events);
      if !desc.signalled {
        Spec.CallerStepsOn(longer, Spec.WaitTimeout(caller), caller);
        longer := GiveUp(desc, id, caller, start, longer);
        status := Timeout;
      } else {
        longer := Collect(desc, id, caller, start, longer);
        status := OK;
      }
      StillSound(start, longer);
    }

    /** The event is claimed, the entry erased and the task taken, with gaps in between. */
    method Collect(desc: TaskDesc, id: nat, ghost caller: nat, ghost start: Spec.State, ghost events: seq<Spec.Event>)
      returns (ghost longer: seq<Spec.Event>)
      requires Holds(desc, id) && desc.signalled && View() == Spec.Run(start, events) && LocalProperties.Inv(start)
      requires caller in callers && callers[caller] == Spec.Listening(id)
      modifies this, descs.Values
      ensures Holds(desc, id) && View() == Spec.Run(start, longer) && caller !in callers
      ensures id !in tasks && desc.state == Spec.Done && !desc.hasTask && desc.deliveries == 1
      ensures Spec.CallerSteps(longer, caller) ==
        Spec.CallerSteps(events, caller) + [Spec.WaitClaim(caller), Spec.WaitErase(caller), Spec.WaitTake(caller)]
    {
      hide TaskDesc.View, View, Valid, Spec.Run, Spec.CallerSteps, LocalProperties.Inv;
      Spec.CallerStepsOn(events, Spec.WaitClaim(caller), caller);
      longer := Claim(desc, id, caller, start, events);
      longer := Await(caller, start, longer);
      Spec.CallerStepsOn(longer, Spec.WaitErase(caller), caller);
      longer := Erase(desc, id, caller, start, longer);
      longer := Await(caller, start, longer);
      StillSound(start, longer);
      Spec.CallerStepsOn(longer, Spec.WaitTake(caller), caller);
      longer := TakeTask(desc, id, caller, start, longer);
    }

    ghost method GiveUp(desc: TaskDesc, id: nat, caller: nat, start: Spec.State, events: seq<Spec.Event>)
      returns (longer: seq<Spec.Event>)
      requires Holds(desc, id) && !desc.signalled && View() == Spec.Run(start, events)
      requires caller in callers && callers[caller] == Spec.Listening(id)
      modifies this`callers
      ensures Valid() && longer == events + [Spec.WaitTimeout(caller)] && View() == Spec.Run(start, longer)
      ensures callers == old(callers) - {caller}
    {
      hide Spec.Run, Spec.Perform, Spec.OnTimer, Spec.DoClear, TaskDesc.View;
      desc.Fields();
      assert View().descs[id] == desc.View();
      Spec.RunOn(start, events, Spec.WaitTimeout(caller));
      callers := callers - {caller};
      longer := events + [Spec.WaitTimeout(caller)];
    }
  }
}
