# Distribuild: a verified model of its coordination core

Distribuild spreads C++ compilations over machines. A scheduler hands out leased *grants*, each holding one slot of
one servant; servants run the granted compilations in an executor; a daemon on the client's machine takes grants and
follows every local task to its end; small text formats carry files, sizes and command lines between them.

This project models that core in Dafny and proves what it promises. Each component that updates its state in place
is a class over heap objects (`Scheduler`, `Executor`, `LocalDispatcher`, `GrantKeeper`, `Tokens`,
`CompilerCommand`), whose methods are proved against a state machine on values (`SchedulerSpec`, `ExecutorSpec`,
`LocalSpec`, and the machine in `GrantKeeper`; `GrantFlow` runs the daemon and its grant keepers together).
`SchedulerAdmission` and `SchedulerEffects` say what single operations do, in terms of what was reported and stored;
the `*Invariant` and `*Properties` files prove what holds over every run of the machines, that is over every sequence of
their events, however the threads interleave. The codecs are loops proved against functions, with exact round-trip
theorems about the functions. Clock readings, memory readings, forked pids, exit codes, grants on offer and answers of
remote calls are inputs of the steps.

Where the code does something else than its comments or checks suggest, the model follows the code, and a lemma says
exactly when the intention is met:

- The slot formula is meant to stop at zero; it wraps modulo 2^64, so a machine whose load exceeds its cores by more
  than the tasks it runs looks free (`SaturatesExactly`, `OverloadedLooksFree`).
- `DISTBU_CHECK` only logs (distribuild/common/spdlogging.h:21-26). The conditions checked in the modelled state
  machines are proved, except one that is false: the waiter count of a grant queue is zero after a wait exactly when
  nobody else waits (`LoneWaiterExactly`, `TwoWaitersFailTheCheck`).
- `Stop` between a request's exit check and its reservation can leave a child that nobody waits for
  (`LeaksExactly`, `LateEntryLeaks`).
- The semaphore of the executor is declared for one token; requests queued faster than their children are waited for
  exceed it (`SemaphoreBoundExactly`, `BoundKeptExactly`).
- The scheduler compares servants with the peer's name instead of its address, so it never sets aside a servant on the
  requester's own host (`PeerHasNoOwnHost`).
- `TryUnpackFiles` throws on an empty text, which is what a servant sends for a compilation that succeeded without
  output files. The exception leaves the wait of a local task past the lines that free the servant's task and the
  grant, so both stay out (`BreaksExactly`, `ThrowsExactly`, `Lifecycle`, `ThrownKeepsGrant`, `GrantStaysOut`).
- Lapsed grants are dropped before the wait for one and not after it (`HandsLapsedExactly`, `WokenGetsLapsed`).
- `FreeTask` kills after unlocking, and callbacks find their task by pid. A callback or such a signal hits the wrong task
  exactly when its pid is handed out again while it is still to come (`AttributedExactly`, `MisleadsExactly`,
  `EarlyReuseMisleads`).
- `MakeMultiChunk` puts two commas between sizes; the reader tolerates it (`RoundTripsExactly`). Declared sizes whose
  sum wraps around to the right one are the only way into undefined behaviour (`OverrunsExactly`, `OverrunHappens`).
- `TryUnpackFiles` checks the total but not that the sizes add up to it: pieces can come out shorter than declared, and
  a size near 2^64 moves the position back so that pieces overlap (`AcceptsExactly`, `UnpacksExactly`,
  `LongSizeIsCut`, `HugeSizeMovesBack`). It also accepts a few texts without a complete header, as no files
  (`HeaderlessTextAccepted`).
- A file pack is recovered only when no suffix is empty or holds a comma or a line feed, and a chunk list only when no
  chunk is empty (`PackFiles.RoundTripExactly`, `MultiChunk.RoundTripsExactly`).
- A rewritten command is read back wrongly exactly when the added arguments end in an option without its value and a
  filename follows (`ReparsesExactly`, `AddedOptionSwallowsFilename`).

`dafny verify dfyconfig.toml` checks everything.

## Model

| member | source | states |
|---|---|---|
| `SchedulerInvariant.SlotConservation` | distribuild/scheduler/task_dispatcher.cpp:53-346 | in every state reached from the empty scheduler each servant's counter equals the number of table entries on it, every entry's servant is registered, observed locations are pairwise distinct, every id is below the next one, and the book only knows registered locations |
| `SchedulerInvariant.StepKeepsInv` | distribuild/scheduler/task_dispatcher.cpp:53-346 | each of the six operations keeps that invariant from any state that has it, wrapping counters included |
| `SchedulerInvariant.WithoutConserves` | distribuild/scheduler/task_dispatcher.cpp:290-303 | removing any set of grants lowers each counter by exactly the grants its servant loses; the unsigned decrement never passes below zero |
| `SchedulerInvariant.BatchIsWholeSet` | distribuild/scheduler/task_dispatcher.cpp:290-303 | a batch of distinct ids from the table is freed to its end and as one set: the early return on an unknown id is not met |
| `SchedulerInvariant.FreeOne` | distribuild/scheduler/task_dispatcher.cpp:202-205 | freeing one id removes exactly that grant and gives back its slot, and changes nothing when the id is unknown |
| `SchedulerInvariant.OrphansCostNothing` | distribuild/scheduler/task_dispatcher.cpp:321-337 | freeing the tasks of evicted servants changes the counter of no servant still listed |
| `SchedulerInvariant.TickKeepsInv` | distribuild/scheduler/task_dispatcher.cpp:305-346 | evicting servants, dropping their book entries and tasks, and marking zombies keeps counters, registration and book consistent |
| `SchedulerProperties.FreeExactly` | distribuild/scheduler/task_dispatcher.cpp:110-121 | a servant is free iff it has enough memory, runs fewer tasks than its concurrency, and its load is below its cores or above cores plus running tasks |
| `SchedulerProperties.SaturatesExactly` | distribuild/scheduler/task_dispatcher.cpp:156-167 | the wrapping slot formula equals the saturating one iff memory is short, or running <= load <= running + cores, or one of two degenerate cases at the edges |
| `SchedulerProperties.OverloadedLooksFree` | distribuild/scheduler/task_dispatcher.cpp:163-164 | an idle servant with load 9 on 4 cores offers all its 8 slots where the saturating formula offers none |
| `SchedulerProperties.GrantedExactly` | distribuild/scheduler/task_dispatcher.cpp:28-71 | NoEnv iff no registered servant can serve; a grant iff some servant that can serve is free; the servant granted is registered, able, not short of memory and below its concurrency; the id is new; refusals change nothing |
| `SchedulerAdmission.AdmitsExactly` | distribuild/scheduler/task_dispatcher.cpp:28-154 | in what the servants reported: NoEnv iff none has the compiler, Busy iff none of those has a slot to spare; otherwise, the first able servant on the requester's host being set aside unless it is alone, the task goes to the first able dedicated servant less than half busy, or else to the first able one; exactly one entry is added, with the deadline and prefetch flag asked for and no zombie, one slot taken, all other grants and servants unchanged |
| `SchedulerProperties.NeverOverCommitted` | distribuild/scheduler/task_dispatcher.cpp:53-56 | over every run no servant runs more tasks than the largest concurrency it has ever advertised |
| `SchedulerProperties.DeadStaysDead` | distribuild/scheduler/task_dispatcher.cpp:185-200 | once an issued grant is a zombie or gone, after any further run keeping it alive fails, its id is not issued again, and a heartbeat listing it gets it back as expired as often as listed |
| `SchedulerProperties.LeavesExactly` | distribuild/scheduler/task_dispatcher.cpp:169-183 | a grant leaves the table in a step iff it is freed by name, its servant expires, or it is a zombie missing from its own servant's heartbeat; a zombie still reported keeps its slot |
| `SchedulerProperties.OmittedZombieGivesSlotBack` | distribuild/scheduler/task_dispatcher.cpp:260-346 | after lease expiry and any run that leaves the grant in the table, it is a zombie still on its servant, and the next heartbeat of that servant omitting it removes it; the counter falls by exactly the zombies omitted |
| `SchedulerProperties.NotifyFreesGone` | distribuild/scheduler/task_dispatcher.cpp:260 | a heartbeat removes exactly its servant's unreported zombies and returns exactly their slots |
| `SchedulerProperties.GrantStaysOverRun` | distribuild/scheduler/task_dispatcher.cpp:53-346 | over any run an issued id never comes back into the table, and a grant never moves to another servant |
| `SchedulerProperties.HeartbeatReconciles` | distribuild/scheduler/task_dispatcher.cpp:233-284 | the ids returned are exactly the reported ones that are not in the table on this servant with their lease unlapsed, order and repeats kept; the book keeps exactly the complement; permissions do not change |
| `SchedulerProperties.RejectedListsAll` | distribuild/scheduler/task_dispatcher.cpp:270-280 | each id not permitted is returned as many times as it was reported, each permitted one never |
| `SchedulerProperties.HeartBeatFindsServant` | distribuild/scheduler/scheduler_service_impl.cpp:143-155 | a servant seen at the address it reports is always found; with no servant registered at the reported address everything reported is returned as expired and nothing changes |
| `SchedulerProperties.HeartBeatExactly` | distribuild/scheduler/scheduler_service_impl.cpp:143-155 | with a servant registered at the reported address, its own or another's, exactly that servant's unreported zombies go and its book entry is rewritten; seen at a different address, the reporting servant keeps its own grants and entry |
| `SchedulerProperties.LivingExactly` | distribuild/scheduler/task_dispatcher.cpp:310-319 | a servant stays listed iff its lease has not run out |
| `SchedulerEffects.ExpiresExactly` | distribuild/scheduler/task_dispatcher.cpp:305-346 | a tick keeps the servants whose lease holds, in order, exactly the grants on them and their book entries; of the grants kept exactly those whose own lease has run out become zombies, and none stops being one |
| `SchedulerEffects.RegistersExactly` | distribuild/scheduler/task_dispatcher.cpp:207-231 | reporting in gives the one servant at the observed location the new information and lease, its identity and counter kept, or lists a new one last with a new identity and no task; nothing else changes |
| `SchedulerEffects.KeepsExactly` | distribuild/scheduler/task_dispatcher.cpp:185-200 | a keep-alive answers whether the grant is live, and moves the deadline of a live one and of nothing else |
| `SchedulerEffects.BatchStopsAtUnknown` | distribuild/scheduler/task_dispatcher.cpp:290-303 | a batch is freed up to its first id that is not in the table, and what follows there is left |
| `SchedulerSpec.LeastIsFirst` | distribuild/scheduler/task_dispatcher.h:171-190 | when every servant is below its concurrency the integer quotients are all zero, so the least utilised servant is the first that passes the filter |
| `SchedulerSpec.PickPrefers` | distribuild/scheduler/task_dispatcher.cpp:123-154 | among any free servants the pick is the requester's own host only when it is alone, a dedicated servant less than half busy whenever another than the own host is, then the first such, and otherwise the first that is not the own host |
| `SchedulerSpec.PeerHasNoOwnHost` | distribuild/scheduler/scheduler_service_impl.cpp:185-189 | with the peer's name, which starts with "ipv4:", for the requester's address no servant is ever on the requester's own host, and the pick is the first dedicated servant less than half busy or else the first of all; by the bare address it would be the servants located at that address |
| `Scheduler.PickUpServant` | distribuild/scheduler/task_dispatcher.h:171-190 | null only for an empty list; the first servant when none passes; otherwise the first one of least integer utilisation among those that pass |
| `Scheduler.FirstOf` | distribuild/scheduler/task_dispatcher.h:171-190 | with free slots everywhere the utilisation scan is a search for the first that passes, or the first of all |
| `Scheduler.PickUpFreeServant` | distribuild/scheduler/task_dispatcher.cpp:123-154 | never null, from the list given, with a slot to offer: the first dedicated servant less than half busy, else the first remaining, with the first servant on the requester's host set aside unless it is alone |
| `Scheduler.SetOwnAside` | distribuild/scheduler/task_dispatcher.cpp:124-135 | the first servant on the requester's host leaves the list, the others keep their order |
| `Scheduler.RunningTaskBookkeeper.SetRunningTask` | distribuild/scheduler/running_task_bookkeeper.cpp:5-9 | replaces one servant's tasks and no other |
| `Scheduler.RunningTaskBookkeeper.GetRunningTasks` | distribuild/scheduler/running_task_bookkeeper.cpp:16-23 | every servant's list exactly once, in some order of the servants |
| `Scheduler.TaskDispatcher.UnsafeFreeTask` | distribuild/scheduler/task_dispatcher.cpp:290-303 | the shared heap objects change as freeing the batch one by one up to the first unknown id |
| `Scheduler.TaskDispatcher.FreeTask` | distribuild/scheduler/task_dispatcher.cpp:202-205 | the state becomes that after freeing the one id; the heap invariant is kept |
| `Scheduler.TaskDispatcher.KeepTaskAlive` | distribuild/scheduler/task_dispatcher.cpp:185-200 | the lease is moved and true answered iff the task is known and no zombie; nothing else changes |
| `Scheduler.TaskDispatcher.KeepServantAlive` | distribuild/scheduler/task_dispatcher.cpp:207-231 | the first servant at the observed location is updated in place with its counter kept, or a new one is listed last with counter zero |
| `Scheduler.TaskDispatcher.UnsafeClearZombies` | distribuild/scheduler/task_dispatcher.cpp:169-183 | exactly the servant's zombies missing from the report are removed, their slots given back |
| `Scheduler.TaskDispatcher.PermittedIds` | distribuild/scheduler/task_dispatcher.cpp:262-268 | the set holds exactly the ids with a live grant on the servant |
| `Scheduler.TaskDispatcher.Reconcile` | distribuild/scheduler/task_dispatcher.cpp:270-280 | the loop splits the report into the permitted tasks and the ids of the others, order and repeats kept |
| `Scheduler.TaskDispatcher.NotifyServantRunningTasks` | distribuild/scheduler/task_dispatcher.cpp:233-284 | state and answer are those of the heartbeat on values, whose exact meaning `HeartbeatReconciles` gives |
| `Scheduler.TaskDispatcher.EraseExpired` | distribuild/scheduler/task_dispatcher.cpp:310-319 | erasing while scanning leaves exactly the servants whose lease holds, in order, and takes exactly the others' locations out of the book |
| `Scheduler.TaskDispatcher.ClearOrphans` | distribuild/scheduler/task_dispatcher.cpp:321-337 | the tasks whose servant object is no longer listed are removed, found by object identity |
| `Scheduler.TaskDispatcher.MarkZombies` | distribuild/scheduler/task_dispatcher.cpp:339-345 | exactly the tasks whose lease ran out become zombies; zombies stay zombies |
| `Scheduler.TaskDispatcher.OnTimerExpiration` | distribuild/scheduler/task_dispatcher.cpp:305-346 | the three phases in order are the one atomic tick on values |
| `Scheduler.TaskDispatcher.UnsafeGetServantsHasEnv` | distribuild/scheduler/task_dispatcher.cpp:73-108 | exactly the servants with the compiler, with a positive concurrency and not newer than the caller, in order |
| `Scheduler.TaskDispatcher.UnsafeGetFreeServants` | distribuild/scheduler/task_dispatcher.cpp:110-121 | exactly the servants running fewer tasks than the wrapping formula allows, in order |
| `Scheduler.TaskDispatcher.CreateTask` | distribuild/scheduler/task_dispatcher.cpp:53-70 | one new entry under an unused id on the picked servant, whose counter grows by one |
| `Scheduler.TaskDispatcher.TryStart` | distribuild/scheduler/task_dispatcher.cpp:36-70 | one scan under the lock grants, refuses or asks to wait exactly as on values, and on the heap's own view as `AdmitsExactly` says: who gets the grant, what is entered, and that nothing else changes |
| `Scheduler.TaskDispatcher.WaitForStartingNewTask` | distribuild/scheduler/task_dispatcher.cpp:28-71 | the first scan takes place at once and each further one after a notification, with anything happening in between; every scan but the deciding one found all able servants busy; the answer is one admission in the state then reached, to the preferred servant with the entry `AdmitsExactly` describes, or a timeout, which changes nothing and follows only when all scans found them busy |
| `Tokens.TokenWindow.ActiveDaemonTokens` | distribuild/scheduler/scheduler_service_impl.cpp:266-279 | when the rollout is overdue the oldest token goes, one new draw comes last and the next rollout is due an interval from now; otherwise nothing changes; the answer is the window, always three consecutive draws |
| `Tokens.TokenWindow.GetConfig` | distribuild/scheduler/scheduler_service_impl.cpp:160-169 | the client is given the middle token of the window, after the rotation if one is due |
| `Tokens.OverlapExactly` | distribuild/scheduler/scheduler_service_impl.cpp:146-149 | with distinct draws the token served after k rotations is in the set published after j rotations iff they differ by at most one |
| `Tokens.AtMostOneRotation` | distribuild/scheduler/scheduler_service_impl.cpp:270-275 | any calls within one rollout interval rotate at most once |
| `Tokens.ServedTokenAccepted` | distribuild/scheduler/scheduler_service_impl.cpp:146-166 | over any ordered sequence of calls a token served at one call is published at every other call at most one interval away, earlier or later |
| `Tokens.SpacedCallsRotate` | distribuild/scheduler/scheduler_service_impl.cpp:270-275 | calls more than an interval apart rotate once each, and each puts the next rollout an interval behind itself |
| `Tokens.ServedTokenLapses` | distribuild/scheduler/scheduler_service_impl.cpp:266-279 | over such calls a token served before them is still published after the first and no longer after two or more |
| `ExecutorSpec.ReapingAlways` | distribuild/daemon/cloud/executor.cpp:326-358 | over every interleaving the running count equals unreaped children plus pending callbacks and never exceeds the maximum; before Stop the tokens of the semaphore and the waiter in or before its wait match the children announced |
| `ExecutorSpec.StepKeepsReaping` | distribuild/daemon/cloud/executor.cpp:79-358 | every single step of a queueing thread, child, waiter, callback, client or stopper keeps that invariant |
| `ExecutorSpec.WaitsOnlyWithChild` | distribuild/daemon/cloud/executor.cpp:341-347 | before Stop the waiter is never in its wait without a child, so the checked failure of wait cannot happen |
| `ExecutorProperties.NoChildLeftBehind` | distribuild/daemon/cloud/executor.cpp:326-358 | once the waiter is gone every child has been waited for and none will come, in every run that keeps Stop out of the gap between a request's exit check and its reservation |
| `ExecutorProperties.LeaksExactly` | distribuild/daemon/cloud/executor.cpp:235-259 | once the waiter has gone with nothing left, some continuation leaves a child iff a request still stands in that gap with a slot free; otherwise no continuation does |
| `ExecutorProperties.LateEntryLeaks` | distribuild/daemon/cloud/executor.cpp:202-214 | a four-step run ends with a child that stays unreaped whatever follows |
| `ExecutorProperties.OneCallbackEach` | distribuild/daemon/cloud/executor.cpp:326-355 | over every run each task is forked at most once, and its child is unreaped, or its callback pends, or its callback has run: exactly one of the three |
| `ExecutorProperties.ReferencesBalance` | distribuild/daemon/cloud/executor.cpp:104-171 | over every run an entry of the table holds one reference plus the successful adds minus the frees, and at least one |
| `ExecutorProperties.LeavesExactly` | distribuild/daemon/cloud/executor.cpp:150-288 | an entry leaves the table iff its last reference is freed or the cleaner finds it completed more than a minute ago; a signal to its process becomes owed iff it leaves while running |
| `ExecutorProperties.CallbackFindsItsTask` | distribuild/daemon/cloud/executor.cpp:290-324 | without early pid reuse a callback completes the descriptor its process was forked for and no other, finds none iff that one was freed, and gives the slot back all the same |
| `ExecutorProperties.SignalFindsItsProcess` | distribuild/daemon/cloud/executor.cpp:150-171 | without early pid reuse the signal sent after unlocking reaches no process but that of the freed task: any child with the pid is its own and no descriptor holds it |
| `ExecutorProperties.AttributedExactly` | distribuild/daemon/cloud/executor.cpp:79-114 | in every state a fork keeps callbacks and owed signals with their own tasks iff its pid belongs to no callback and no signal still to come |
| `ExecutorProperties.MisleadsExactly` | distribuild/daemon/cloud/executor.cpp:290-303 | in every state, once the new process has been started, some callback or owed signal hits the new task at once iff its pid was handed out that early |
| `ExecutorProperties.AttributedAlways` | distribuild/daemon/cloud/executor.cpp:290-303 | over every such run each child and pending callback belongs to at most one descriptor, which holds its pid and counts as running |
| `ExecutorProperties.EarlyReuseMisleads` | distribuild/daemon/cloud/executor.cpp:295-303 | a run from the start leads to a state in which reusing a pid makes the waiting callback complete the new task whose process still runs |
| `ExecutorProperties.PidsAlwaysDistinct` | distribuild/daemon/cloud/executor.cpp:79-114 | over every run no two descriptors of the table hold the same pid |
| `ExecutorProperties.QueueInOne` | distribuild/daemon/cloud/executor.cpp:79-114 | the three steps of queueing together enter one descriptor, one child, one slot and one semaphore token, or refuse at each of the checks; a refusal past the exit check uses up the id |
| `ExecutorProperties.SignalsExactly` | distribuild/daemon/cloud/executor.cpp:150-214 | a step signals a process iff it kills listed grants and the process is that of a running task with one of them, or stops and the process is that of a running task, or owes it to a task freed while running |
| `ExecutorProperties.WaiterEndsExactly` | distribuild/daemon/cloud/executor.cpp:326-347 | the waiter thread ends iff it is stopping and finds nothing running at one of its two tests, or its wait fails |
| `Executor.Executor.TryStartingNewTask` | distribuild/daemon/cloud/executor.cpp:235-259 | refusal on exit, on the limit or for memory leaves the count as it was; acceptance adds one; the id is consumed unless exiting |
| `Executor.Executor.TryQueueTask` | distribuild/daemon/cloud/executor.cpp:79-114 | the heap changes as queueing on values; in fields: one descriptor with the pid and the grant, one reference, running, under the id answered, one child, one slot, one token, or nothing but the id |
| `Executor.Executor.TryAddTaskRef` | distribuild/daemon/cloud/executor.cpp:116-124 | one reference more and true iff the task is known |
| `Executor.Executor.FreeTask` | distribuild/daemon/cloud/executor.cpp:150-171 | the reference count falls by one and the entry goes with the last one; the process of a task freed while running, and no other, is signalled after the unlock, whatever goes on in between |
| `Executor.Executor.Release` | distribuild/daemon/cloud/executor.cpp:153-167 | under the mutex the descriptor leaves the table iff this was its last reference, and is then shared with nobody; the signal is owed iff it was running |
| `Executor.Executor.GetAllTasks` | distribuild/daemon/cloud/executor.cpp:173-182 | every entry of the table once with its grant, and nothing else |
| `Executor.Executor.KillExpiredTasks` | distribuild/daemon/cloud/executor.cpp:184-200 | a process is signalled iff it is that of a task of the table that still runs and whose grant is listed |
| `Executor.Executor.OnTimerClean` | distribuild/daemon/cloud/executor.cpp:267-288 | exactly the entries completed over a minute ago are erased, the others stay as they are |
| `Executor.Executor.FindByPid` | distribuild/daemon/cloud/executor.cpp:295-303 | an entry holding the pid, or none iff no entry holds it |
| `Executor.Executor.OnExitCallback` | distribuild/daemon/cloud/executor.cpp:290-324 | the slot is given back in any case; the one descriptor with the pid, if any, is completed at the given time; no other changes |
| `Executor.Executor.Stop` | distribuild/daemon/cloud/executor.cpp:202-214 | the flag is raised, a process is signalled iff it is that of a running task of the table, the waiter is woken once more |
| `Executor.Executor.WaiterProc` | distribuild/daemon/cloud/executor.cpp:326-358 | with anything else going on between its steps the loop is a run of the machine; it leaves only while stopping, and otherwise stops blocked or after the given number of full rounds; the reaping protocol holds, and no callback is ever posted for no process |
| `Executor.Executor.WaitOnce` | distribuild/daemon/cloud/executor.cpp:336-354 | one round consists of exactly these steps: a token taken, the test repeated, one child reaped or a failed wait; it leaves after the test or the failed wait, and is blocked only without a token or with children none of which has exited |
| `Executor.Executor.WaitForChild` | distribuild/daemon/cloud/executor.cpp:339-354 | wait yields a child that has exited, fails only when there are no children, and blocks only while there are some and none has exited |
| `Executor.Executor.Reap` | distribuild/daemon/cloud/executor.cpp:341-354 | a reaped child leaves the process table and exactly one callback with its exit code is posted |
| `ExecutorSpec.RunKeepsReaping` | distribuild/daemon/cloud/executor.cpp:79-358 | the reaping protocol survives any run from any state that keeps it |
| `ExecutorProperties.SemaphoreBoundExactly` | distribuild/daemon/cloud/executor.h:141 | on every run before Stop the semaphore holds at most the one token it is declared for iff at most one child waits for the waiter, besides the one it holds a token for and the one not yet announced |
| `ExecutorProperties.BurstFills` | distribuild/daemon/cloud/executor.cpp:79-114 | any number of requests up to the limit, queued before the waiter moves, leave that many tokens |
| `ExecutorProperties.BoundKeptExactly` | distribuild/daemon/cloud/executor.h:141 | no run breaks that bound before Stop iff the executor is limited to one task |
| `Reconciliation.RefusedExactly` | distribuild/daemon/cloud/daemon_service_impl.cpp:63-82 | a running task's grant is among the ids returned by the scheduler iff it is not a live grant of this servant |
| `Reconciliation.KilledExactly` | distribuild/daemon/cloud/executor.cpp:184-200 | a running task's process is signalled iff its grant is in the list |
| `Reconciliation.HeartbeatKillsExactly` | distribuild/daemon/cloud/daemon_service_impl.cpp:63-82 | an uninterrupted heartbeat of a registered servant signals a process iff it is that of a running task without a live grant: none of a task that has one, and none of a task that is over |
| `Reconciliation.ListedIsReported` | distribuild/daemon/cloud/daemon_service_impl.cpp:63-70 | what the executor lists makes a report holding every task of its table and nothing else |
| `Reconciliation.Heartbeat` | distribuild/daemon/cloud/daemon_service_impl.cpp:63-82 | on the heaps of both programs, list, reconciliation and kill together signal a process iff it is that of a running task without a live grant; completed tasks still in the table are not signalled |
| `LocalProperties.Lifecycle` | distribuild/daemon/local/task_dispatcher.cpp:57-266 | over every interleaving completion is signalled once and exactly when the task is done; a task is handed out at most once, only when done, and is then gone from the table; a done task has released each grant and each servant reference it took, once and in order, iff its wait for the servant did not throw, and otherwise has released neither |
| `LocalProperties.ThrewExactly` | distribuild/daemon/local/task_dispatcher.cpp:261-264 | over every run a task counts as thrown iff the run holds a step in which an exception leaves its wait; there is at most one |
| `LocalProperties.ThrownKeepsGrant` | distribuild/daemon/local/task_dispatcher.cpp:128-136 | whenever the wait of a task on its own servant throws, the task ends done and signalled, and its grant and its reference stay out over any further run |
| `LocalProperties.GrantStaysOut` | distribuild/daemon/local/task_dispatcher.cpp:242-264 | a run from the start leads to a done task whose grant is never released, whatever follows |
| `LocalProperties.AbortedGetsNoGrant` | distribuild/daemon/local/task_dispatcher.cpp:218-228 | a task aborted before it has asked for a grant never gets one over any further run; aborted when about to ask, it is never ready or dispatched and no servant runs it |
| `LocalProperties.KeptAliveGrantIsHeld` | distribuild/daemon/local/task_dispatcher.cpp:392-427 | over every run the grant kept alive for a task is the one it holds, and none while it has joined another's task |
| `LocalProperties.TimersExactly` | distribuild/daemon/local/task_dispatcher.cpp:373-472 | each abort timer aborts exactly the entries of the table past their start deadline, with a dead requester, or started and not heard of for a minute; an acknowledged keep-alive moves the time heard of; nothing else changes and no flag is cleared |
| `LocalProperties.RunAdvances` | distribuild/daemon/local/task_dispatcher.cpp:57-510 | over every run statuses and deliveries only advance, a set abort flag stays set, and an id that has left the table never returns |
| `LocalProperties.PerformMovesForward` | distribuild/daemon/local/task_dispatcher.cpp:121-266 | each step of the performing thread keeps status, phase, grants and references in step and never moves the status back; a done task is not touched again |
| `LocalProperties.InvAlways` | distribuild/daemon/local/task_dispatcher.cpp:57-510 | over every interleaving the one completion of a task is with the event, with one caller, or delivered |
| `LocalProperties.StepKeepsInv` | distribuild/daemon/local/task_dispatcher.cpp:57-510 | every step of a performing thread, caller or timer keeps that |
| `LocalProperties.TakesWhatIsThere` | distribuild/daemon/local/task_dispatcher.cpp:95-101 | a caller past its wait finds the task done, still there and not delivered, and is the only such caller |
| `LocalProperties.TakenAtMostOnce` | distribuild/daemon/local/task_dispatcher.cpp:90-101 | over every run the steps by which callers take a task are counted by its delivery counter and number at most one, so OK is answered at most once per id |
| `LocalProperties.TakenForGood` | distribuild/daemon/local/task_dispatcher.cpp:95-101 | a task once taken stays done, without its object and out of the table over any further run |
| `LocalProperties.LeavesTableExactly` | distribuild/daemon/local/task_dispatcher.cpp:95-99 | an entry leaves the table iff a caller holding the completion erases it or the clearing timer finds it done and either aborted or a minute past its deadline |
| `LocalDispatcher.TaskDispatcher.QueueTask` | distribuild/daemon/local/task_dispatcher.cpp:57-75 | one new pending, unaborted descriptor with the given start deadline under the next id, in the table; the other entries stay |
| `LocalDispatcher.TaskDispatcher.OnTimerTimeoutAbort` | distribuild/daemon/local/task_dispatcher.cpp:373-390 | exactly the entries past their start deadline are aborted |
| `LocalDispatcher.TaskDispatcher.OnTimerKilledAbort` | distribuild/daemon/local/task_dispatcher.cpp:455-472 | exactly the entries whose requester is gone are aborted |
| `LocalDispatcher.TaskDispatcher.CollectKeepAlive` | distribuild/daemon/local/task_dispatcher.cpp:392-427 | the request holds the grant of exactly the started, undone, unaborted tasks heard of within a minute; the started ones not heard of are aborted |
| `LocalDispatcher.TaskDispatcher.ConfirmKeepAlive` | distribuild/daemon/local/task_dispatcher.cpp:438-452 | exactly the tasks still in the table whose grant the scheduler kept alive are marked as heard of at the time of asking |
| `LocalDispatcher.TaskDispatcher.OnTimerClear` | distribuild/daemon/local/task_dispatcher.cpp:474-510 | erasing while scanning leaves exactly the entries not done, or done, unaborted and within a minute of their deadline |
| `LocalDispatcher.TaskDispatcher.TryGetExistedResult` | distribuild/daemon/local/task_dispatcher.cpp:176-216 | false leaves the task to ask for a grant; true means it joined a running task and waited; the reference is given back unless the answer makes the wait throw, which then ends the work; the state is that of a run of the machine |
| `LocalDispatcher.TaskDispatcher.AwaitGrant` | distribuild/daemon/local/task_dispatcher.cpp:219-228 | the flag is tested before every request, so an aborted task gives up without asking; the loop ends with the first grant among the answers, or with none because the flag was seen set, or because no answer was a grant |
| `LocalDispatcher.TaskDispatcher.StartNewServantTask` | distribuild/daemon/local/task_dispatcher.cpp:218-266 | an aborted task takes no grant; otherwise it takes the first one offered, or none because it was aborted while asking; on every way out but a still-pending request it is ready to complete, its grant and its reference given back unless it was started and the answer made the wait throw |
| `LocalDispatcher.TaskDispatcher.RunOnServant` | distribuild/daemon/local/task_dispatcher.cpp:242-266 | the grant is released when the start fails and after a wait that returned, the reference before it; both stay out iff the task was started and the answer makes the wait throw |
| `LocalDispatcher.TaskDispatcher.PerformTask` | distribuild/daemon/local/task_dispatcher.cpp:121-155 | with anything else going on between its steps the thread ends with the task done and signalled once: with a usable cache entry no grant and no servant was taken, with a task to join that one and no grant, aborted before neither, and else the first grant offered and the task started on it; every grant and reference is given back iff no wait threw, and one threw iff a servant was waited for and its answer unpacks with an exception; it stops short, still asking, only when there was no usable cache entry, no task to join and no grant among the answers |
| `LocalDispatcher.ReadReply` | distribuild/daemon/local/task_dispatcher.cpp:338-353 | reading an answer throws iff the exit code is 0 and the text of the output files cannot be unpacked without an exception |
| `LocalDispatcher.BreaksExactly` | distribuild/daemon/local/task_dispatcher.cpp:345-351 | the answer of a servant that packed files with proper suffixes makes the wait throw iff the exit code is 0 and there are no files |
| `LocalDispatcher.TextsDecide` | distribuild/daemon/local/task_dispatcher.cpp:157-174 | for any text of files, an answer makes the wait throw iff the exit code is 0 and the text is unreadable; a cache entry ends the work iff it unpacks into files or is unreadable |
| `LocalDispatcher.TaskDispatcher.WaitForTask` | distribuild/daemon/local/task_dispatcher.cpp:77-102 | NotFound iff the id is not in the table; OK after exactly the caller's steps of finding, claiming, erasing and taking, the task then done, out of the table, its object handed over and its delivery counter raised by one; on a timeout the event is not set and the caller has taken nothing |
| `LocalDispatcher.TaskDispatcher.Collect` | distribuild/daemon/local/task_dispatcher.cpp:90-101 | claim, erase and take happen in this order with anything in between; the task is then done, out of the table and delivered for the first time |
| `LocalDispatcher.TaskDispatcher.TakeTask` | distribuild/daemon/local/task_dispatcher.cpp:100-101 | a caller past the erasure finds the object in place and the task done and undelivered, and takes it |
| `GrantKeeper.StepKeepsInv` | distribuild/daemon/local/task_grant_keeper.cpp:39-67 | what has left the queue followed by what remains is what was fetched; the queue stays sorted by expiry; the waiter count is the number of blocked threads |
| `GrantKeeper.EveryGrantAccountedFor` | distribuild/daemon/local/task_grant_keeper.cpp:131-145 | over every run each fetched grant, at its own place in the order of fetching, is queued, or gone with one fate: lapsed or handed to one thread |
| `GrantKeeper.DiscardIsFilter` | distribuild/daemon/local/task_grant_keeper.cpp:41-43 | dropping the lapsed prefix drops every lapsed grant and keeps the others in order |
| `GrantKeeper.GetTakesOldestLive` | distribuild/daemon/local/task_grant_keeper.cpp:39-52 | a thread is handed the oldest grant that has not lapsed, or is blocked and takes nothing when there is none |
| `GrantKeeper.LoneWaiterExactly` | distribuild/daemon/local/task_grant_keeper.cpp:57-65 | the checked condition that no waiter is left after a wait holds iff no other thread is blocked |
| `GrantKeeper.TwoWaitersFailTheCheck` | distribuild/daemon/local/task_grant_keeper.cpp:52-65 | two threads block and one gives up: one is still counted |
| `GrantKeeper.HandsLapsedExactly` | distribuild/daemon/local/task_grant_keeper.cpp:39-67 | a step hands out a lapsed grant iff it is a blocked thread going on with a grant at the front that has lapsed by then |
| `GrantKeeper.WokenGetsLapsed` | distribuild/daemon/local/task_grant_keeper.cpp:54-66 | with any lease, a thread that blocked and goes on after the lease of the grant fetched meanwhile is handed it all the same |
| `GrantFlow.EachGrantToOneTask` | distribuild/daemon/local/task_dispatcher.cpp:218-266 | over every run of the daemon with its keepers, a grant handed to a thread is the one grant of that thread's task and of no other, and is released at most once, by that task; once the task is done it has been released iff its wait did not throw |
| `GrantFlow.GrantedWereHanded` | distribuild/daemon/local/task_dispatcher.cpp:221-239 | a task has no grant but one its keeper handed to it |
| `GrantFlow.StepKeepsInv` | distribuild/daemon/local/task_dispatcher.cpp:57-266 | every step of daemon or keepers keeps both sides in agreement: handed grants and grants written down are the same, blocked threads are those asking, every fetched id is found once |
| `GrantKeeper.RunByOthers` | distribuild/daemon/local/task_grant_keeper.cpp:39-67 | while only others go on a thread is handed nothing, and no grant that has gone comes back |
| `GrantKeeper.EnvGrantKeeper.Store` | distribuild/daemon/local/task_grant_keeper.cpp:133-139 | a fetched grant is queued last with the lease counted from now |
| `GrantKeeper.EnvGrantKeeper.DiscardLapsed` | distribuild/daemon/local/task_grant_keeper.cpp:41-43 | the loop removes the lapsed prefix and nothing else |
| `GrantKeeper.EnvGrantKeeper.Take` | distribuild/daemon/local/task_grant_keeper.cpp:39-67 | with anything going on during the wait, the call is a run of the machine; a grant answered is a new entry of what has left the queue, handed to this thread and the only one handed to it; none is answered only with an empty queue |
| `GrantKeeper.EnvGrantKeeper.Leave` | distribuild/daemon/local/task_grant_keeper.cpp:56-66 | a blocked thread leaves with the first grant, newly handed to it, or with none iff the queue is empty; it is no longer counted |
| `Decimal.ScanInvertsToString` | distribuild/common/tools.h:142-152 | reading a printed number gives the number |
| `Decimal.ConversionsInvertToString` | distribuild/common/tools.h:177 | stoul, stol and strtol invert printing on exactly their ranges; strtol clamps beyond |
| `Decimal.ConversionsExactly` | distribuild/common/tools.h:177-200 | of a number with white space and a sign in front and anything but a digit behind, strtol stops at the bounds of a long, stol refuses what lies outside them, and stoul wraps what is negative and refuses what a word cannot hold |
| `Decimal.NothingConverts` | distribuild/common/tools.h:177-200 | without a digit behind white space and sign, strtol gives zero and the others an exception |
| `Decimal.ToStringInjective` | distribuild/common/tools.h:142 | distinct numbers print differently |
| `Split.SplitText` | distribuild/common/tools.h:24-50 | the loop with both settings computes the cuts at leftmost delimiters, or the non-empty ones of them |
| `Split.Unfold` | distribuild/common/tools.h:32-47 | one round of the loop yields the first piece if wanted and leaves the rest, a delimiter at the very end yielding one empty piece when empties are kept |
| `Split.SkippingIsFiltering` | distribuild/common/tools.h:34-44 | cutting that passes over empty pieces as it goes gives the non-empty pieces of cutting that keeps them |
| `Split.JoinInvertsCuts` | distribuild/common/tools.h:24-50 | joining the pieces with the delimiter gives the text back |
| `Split.CutsInvertsJoinExactly` | distribuild/common/tools.h:24-50 | cutting recovers joined parts iff the delimiter occurs in each part and across each border no earlier than where it was put |
| `Split.SeparableByCharacter` | distribuild/common/tools.h:52-54 | for a one-character delimiter that condition is: some part, and none holding the character |
| `Split.CutsHoldNoCharacter` | distribuild/common/tools.h:52-54 | no piece holds the delimiter character, and every character of a piece comes from the text |
| `PackFiles.Pack` | distribuild/common/tools.h:130-161 | the buffers built by the loops form total size, suffixes, sizes and contents as specified |
| `PackFiles.TryUnpack` | distribuild/common/tools.h:166-206 | for every text the line-by-line reader yields the files, a refusal or an exception exactly as specified, size arithmetic wrapping |
| `PackFiles.CutFiles` | distribuild/common/tools.h:198-203 | the cursor loop yields the specified pieces or the exception of a bad size or position |
| `PackFiles.UnpackInvertsPack` | distribuild/common/tools.h:130-206 | unpacking a packed list gives back exactly the files, contents being arbitrary |
| `PackFiles.RoundTripExactly` | distribuild/common/tools.h:130-206 | the round trip holds iff the list is not empty and every suffix is non-empty without comma and line feed |
| `PackFiles.HeaderRoundTrip` | distribuild/common/tools.h:147-154 | the three header lines are read back as written and the rest is the contents |
| `PackFiles.UnpackedAreNameable` | distribuild/common/tools.h:182-203 | no unpacked suffix, of any text, is empty or holds a comma or a line feed |
| `PackFiles.AcceptsExactly` | distribuild/common/tools.h:191-203 | a text is unpacked iff its first line gives the true signed size of what follows the header, there are as many sizes as suffixes, all sizes convert, and every piece starts inside the text; a text shorter than its header only without any field |
| `PackFiles.NumbersExactly` | distribuild/common/tools.h:199-200 | all sizes convert iff each does, to what each converts to |
| `PackFiles.UnpacksExactly` | distribuild/common/tools.h:191-203 | the files have the declared lengths and make up the text behind the header iff the header is complete and right about the total and the sizes add up to it |
| `PackFiles.ThrowsExactly` | distribuild/common/tools.h:177-203 | unpacking throws iff the first line is no signed number, or the total and the counts are right and a size does not convert or a piece starts outside the text |
| `PackFiles.NoFilesThrow` | distribuild/common/tools.h:130-177 | no files are packed as the empty text, whose unpacking throws |
| `PackFiles.LongSizeIsCut` | distribuild/common/tools.h:198-203 | a declared size of 5 over one character is accepted and yields one character |
| `PackFiles.HugeSizeMovesBack` | distribuild/common/tools.h:198-203 | a size just below the machine word moves the position back, and the second piece overlaps the first and the header |
| `PackFiles.HeaderlessTextAccepted` | distribuild/common/tools.h:194-196 | the text "-3" is accepted, as no files |
| `MultiChunk.MakeHeaderLine` | distribuild/common/multi_chunk.h:14-27 | sizes joined by single commas and ended by "\r\n"; nothing for no parts |
| `MultiChunk.MakeChunked` | distribuild/common/multi_chunk.h:34-55 | sizes joined by double commas with one trailing comma, "\r\n", then the parts in order; nothing for no parts |
| `MultiChunk.HeaderIsSizes` | distribuild/common/multi_chunk.h:14-27 | cut at every comma, the header line is exactly the sizes |
| `MultiChunk.ChunkedIsSizesAndParts` | distribuild/common/multi_chunk.h:34-55 | cut at every comma, the line of the other writer is the sizes with an empty field behind each, and the body is the parts |
| `MultiChunk.TryParse` | distribuild/common/multi_chunk.h:69-110 | for every text the loops yield the specified chunks, refusal or undefined outcome |
| `MultiChunk.RoundTripsExactly` | distribuild/common/multi_chunk.h:14-110 | both writers are read back as the parts iff no part is empty; otherwise the text is refused |
| `MultiChunk.ParsesExactly` | distribuild/common/multi_chunk.h:77-109 | a non-empty text parses iff its header is readable and the declared sizes add up to the body; the chunks then have the declared lengths and concatenate to the body |
| `MultiChunk.LinesExactly` | distribuild/common/multi_chunk.h:70-83 | a text has a header line and a body iff its first line feed stands behind a carriage return, and they are what stands before and after |
| `MultiChunk.NumbersExactly` | distribuild/common/multi_chunk.h:84-95 | the sizes are readable iff each converts to a positive number below the largest long, and are then those numbers |
| `MultiChunk.OverrunsExactly` | distribuild/common/multi_chunk.h:96-107 | a chunk is cut off a shorter text iff the declared sizes wrap around to the body's size without being equal to it |
| `MultiChunk.OverrunHappens` | distribuild/common/multi_chunk.h:89-107 | three sizes whose sum wraps round to one make the reader cut a text of one character by the first size |
| `MultiChunk.CutIsExact` | distribuild/common/multi_chunk.h:104-107 | cutting succeeds iff the sizes fit, and yields pieces of those lengths making up the text cut |
| `CommandLine.EscapeCommandArgument` | distribuild/common/tools.h:58-113 | the switch in the loop writes each character's escape in order; which that is says `EscapesExactly` |
| `CommandLine.ToCommandLine` | distribuild/client/common/rewritten_args.cpp:13-25 | program as it is, arguments escaped, single spaces between, nothing for no arguments; what stands bare in the line says `LineIsSeparated` |
| `CommandLine.EscapesExactly` | distribuild/common/tools.h:58-113 | passed over from left to right, an escaped text is its characters one by one: each of the 23 listed special ones behind a backslash, each of the seven control characters as backslash and its letter, every other one bare |
| `CommandLine.LineIsSeparated` | distribuild/client/common/rewritten_args.cpp:13-25 | a line without the program is the characters of its arguments, written so, with exactly one bare space between two arguments and none at the end |
| `CommandLine.DecodeEscaped` | distribuild/common/tools.h:58-113 | a left-to-right reader recovers an escaped argument whatever comes after it |
| `CommandLine.DecodesExactly` | distribuild/client/common/rewritten_args.cpp:13-25 | the reader recovers the argument list from its line iff the list is not empty, empty arguments and trailing backslashes included |
| `CommandLine.InjectiveExactly` | distribuild/client/common/rewritten_args.cpp:13-25 | two lists give the same line iff they are equal or one is empty and the other one empty argument |
| `CommandLine.DecodesWithProgramExactly` | distribuild/client/common/rewritten_args.cpp:13-25 | with the unescaped program in front the reader recovers program and arguments iff the program holds no space and no backslash, but for one at its very end when there are no arguments |
| `CompilerCommand.CompilerArgs.constructor` | distribuild/client/cxx/compiler_args.cpp:115-137 | options with their values and filenames are those of the specified reading; the kept line is the escaped command |
| `CompilerCommand.ReadArguments` | distribuild/client/cxx/compiler_args.cpp:119-130 | the index loop reads the vector as specified, a value-taking option at the end finding no value |
| `CompilerCommand.CompilerArgs.Rewrite` | distribuild/client/cxx/compiler_args.cpp:162-196 | kept options with their values, then the added arguments, then the filenames if wanted |
| `CompilerCommand.MatchesAny` | distribuild/client/cxx/compiler_args.cpp:171-177 | the inner loop answers whether some prefix matches |
| `CompilerCommand.ValueTakersAreOptions` | distribuild/client/cxx/compiler_args.cpp:12-111 | every option of the table begins with a dash, so no filename takes a value |
| `CompilerCommand.ParsedAreWellFormed` | distribuild/client/cxx/compiler_args.cpp:119-130 | every option read has a value place iff it takes one, and no filename looks like an option |
| `CompilerCommand.ParsesExactly` | distribuild/client/cxx/compiler_args.cpp:119-130 | of the arguments that are not the value of the one before, the filenames are those that neither take a value nor begin with a dash, the options the others, with the next argument as value for those that take one |
| `CompilerCommand.KeptExactly` | distribuild/client/cxx/compiler_args.cpp:164-184 | kept are, in order, exactly the options not named for removal and beginning with none of the listed prefixes |
| `CompilerCommand.DanglesExactly` | distribuild/client/cxx/compiler_args.cpp:120-122 | for any table of value-taking options, an option is left without its value iff the last argument takes one and is not itself a value |
| `CompilerCommand.ParseFlattened` | distribuild/client/cxx/compiler_args.cpp:178-184 | written options are read back in front of whatever follows |
| `CompilerCommand.ReparsesExactly` | distribuild/client/cxx/compiler_args.cpp:115-196 | for any table of value-taking options, reading the rewritten command gives kept options then added ones, added filenames then original ones, iff not: the added arguments dangle, filenames are kept and there is one |
| `CompilerCommand.AddedOptionSwallowsFilename` | distribuild/client/cxx/compiler_args.cpp:186-194 | an added "-o" in front of "a.c" is read back as an option with the filename for its value |
| `CompilerCommand.SoundCommandsAreWritable` | distribuild/client/cxx/compiler_args.cpp:178-184 | a command that does not dangle can be rewritten whatever is removed |
| `CompilerCommand.NormalFormReadsTheSame` | distribuild/client/cxx/compiler_args.cpp:162-196 | rewriting with nothing removed or added yields a command that reads as the same options and filenames |
| `PathScan.FindPathLocations` | distribuild/daemon/cloud/compile_task/cxx_task.cpp:51-78 | the locations, ascending and disjoint, are exactly the leftmost occurrence of the prefix in each NUL-closed segment whose rest is at most PATH_MAX, with right length and suffix |
| `PathScan.LocationsAreUnique` | distribuild/daemon/cloud/compile_task/cxx_task.cpp:51-78 | only one list meets that description |
| `PathScan.Forward` | distribuild/daemon/cloud/compile_task/cxx_task.cpp:56-74 | the cursor moves on in every round, to a NUL behind the prefix or to the end |

## Left out

- Condition waits: while a thread waits, an arbitrary run of other operations happens (the contracts of `AwaitWakeup`, `AwaitAvailable`, `Interleave`, `Await` and `Meanwhile` allow any such run, and their callers are proved against the contracts); who is woken by a notification, and fairness, are not modelled.
- Scheduler.TaskDispatcher.WaitForStartingNewTask: the wait ends after a given number of wake-ups instead of at a deadline.
- LocalDispatcher.TaskDispatcher.StartNewServantTask: the loop asking for grants takes a given sequence of answers, because it has no bound of its own; it stops short, still asking, when they run out.
- LocalDispatcher.TaskDispatcher.PerformTask: the same holds of the thread as a whole.
- LocalDispatcher.TaskDispatcher.WaitForTask: liveness for several callers is not claimed, because the event wakes only one.
- Executor.Executor.OnExitCallback: output, exit status and the completion hook of a compilation are not modelled, and `Executor::WaitForTask` with its event is left out.
- Executor.Executor.TryStartingNewTask: the moment in which a refused task is counted as running is not visible to the other threads.
- Executor.Executor.WaiterProc: whether a blocked thread is ever woken is not stated; it is left blocked after the given patience, and after the given number of rounds. Moments in which a request holds the mutex are covered by the machine only.
- Reference counts are unbounded; the source's are 32 bits wide, as are waiter counts of a grant queue. Task and grant ids are unbounded.
- The bound of the semaphore once Stop has begun, `Join`, destructors, fork failures and signal delivery.
- Request building, prefetch counts, and the leaving flag of the grant fetcher; the expiry added to a grant is a constant lease, and one clock reading serves the whole discarding loop.
- The wait for a servant's result with its retries, the cache lookup and the search for a running task: each is an input, namely no output or the exit code and the text of the files, the cache entry if any, and the task found if any. An answer that the task still runs, after which the code reads an empty optional, is not modelled; the repository's own servants never give it, because they answer with an error status instead.
- GrantFlow.EachGrantToOneTask: a thread writes its grant down in the step in which it is handed out, and fetched ids are new, as `GrantStaysOverRun` proves of the scheduler.
- Assigned-task totals and start times, which nothing reads back.
- Token verification, version and timeout checks of the scheduler's remote calls, IPv4 parsing, and the demotion of servants that are not allowed to serve.
- GetOutputFile and TryGet of the compiler arguments, the compiler's own path, and `RewrittenArgs::ToString`.
- EndWith, SetTimeout and the attachment helpers of tools.h, which compare endings and set deadlines and attachments of remote calls; printing bytes in hexadecimal.
- Splitting a non-empty text at an empty delimiter, which does not terminate, and searching for an empty prefix, likewise.
- Characters are Dafny characters; the source's are bytes.
- Compression, hashing, encryption, random tokens (taken as a sequence of distinct draws), gRPC, HTTP, files, pipes, `/proc` and logging.
- The cache entry format, cache service, bloom filters, task monitor, configuration and running-task keepers, and compiler lookup.
