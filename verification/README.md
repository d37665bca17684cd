# Verification of federated-compute

A Dafny model of the concurrency core, the device-side protocol driver and the server-side plan helpers of
federated-compute, with the properties that its comments and tests promise proved for every input and every run.
`dafny verify dfyconfig.toml` checks the project.

Concurrent code is modelled as a step system: a state datatype, the events of all threads, an enabling condition
and an effect for each event.  A run is any finite sequence of enabled events, so every interleaving of the locked
sections is a run, and the theorems quantify over all of them.  Objects whose methods update fields are classes;
their methods are proved against the functions that the step systems use.  Code that only computes is functions.

* **Clock** (`WaiterMaps`, `ClockProtocol`, `Clock`).  Any number of threads insert waiters, set the simulated time
  and dispatch; the real clock's worker sleeps on the next wake-up.  Proved: no lost wake-up, each waiter woken
  once, in insertion order and never early, the real clock's arming, and that dispatching always comes to rest.
* **Thread pool, strand, future, interruptible runner** (`ThreadPool`, `Strand`, `Futures`, `InterruptibleRunner`,
  `RunnerLoop`).
  Signals may wake any waiting thread, or none if nobody waits, and threads may wake spuriously.  Proved: no
  stranded task, the idle test is exact, tasks leave in order, the join check is safe, a worker's steps neither
  overlap nor get reordered, and a run that returns has let its callable end and taken its value.
* **gRPC session and runner** (`RetryWindows`, `FederatedSession`, `GrpcFederatedProtocol`, `FlRunner`).  Replies of
  the server are arguments.  Proved: after every legal history of calls the retry window is the one that a rule
  over the history alone gives, the retry time is pinned when the acknowledgement arrives, and each run of the driver
  makes a legal history and reports the retry information of its class.
* **Aggregation service** (`Aggregations`).  Requests interleave between their locked sections.  Proved: one client
  per token, one release per session with enough inputs, no doubled notification, and exactly what a session that is
  over still has.
* **Plan building** (`GraphRewrite`, `SecureSum`, `VariableNames`, `TensorSelection`).  Proved: the control-dependency
  rewrite keeps acyclicity and puts the init op first; merging secure sums is independent of order and nesting;
  tensor names are uniquely decodable and selections find their tensors.
* **Inputs of secure aggregation** (`SecAggInputs`) and **stopwatch** (`Stopwatch`).

## Where the code and the expectation differ

Each of these is stated by the members named, with the exact condition.

* The simple retry rule holds for all histories if and only if OK is not configured as a permanent error
  (`FederatedSession.RefinementHoldsExactly`).
* A run can count as a contribution although it reported a failure, because the status of ReportNotCompleted is read
  like that of ReportCompleted (`FlRunner.ContributionWithoutResults`).
* Move assignment over a live promise drops the shared state without notifying its future, although destruction
  would have (`Futures.AssignOver`).
* Run() can return while a pool thread is still in the closure around its callable, past setting the promise; only an
  idle pool, for which the destructor waits, holds nothing of it (`InterruptibleRunner.AbortSafety`,
  `InterruptibleRunner.RunReturnsBeforeTheClosure`, `InterruptibleRunner.IdlePoolHoldsNothing`; a run that shows it:
  `InterruptibleRunner.ClosureOutlivesRun`).
* An abortion that finds the protocol closed by itself, with nobody having noted it, raises before the clean-up: the
  session keeps its tokens, clients and waits, and nobody notifies the waits but a submission still under way
  (`Aggregations.AbandonFrame`, `Aggregations.OverSessionsAreClean`, `Aggregations.NotifiedWhenOver`; a run that shows
  it: `Aggregations.AbandonedSession`).
* A client whose upload was begun before a session ended, and is registered after its clean-up, stays in the session
  for good (`Aggregations.ClientsLeftBehind`; a run that shows it: `Aggregations.LateClient`).
* A wait is accepted on a session that has failed but was not yet completed or aborted
  (`Aggregations.WaitAfterFailure`).
* The length check of a SecAgg vector uses a product that can overflow, and the vector specification keeps only 32 bits
  of the length (`SecAggInputs.LengthIsProductExactly`, `SecAggInputs.SpecLengthExactly`).
* A selection of the whole argument gets a name with a trailing slash, and a selection through a named field the
  index instead of the name (`TensorSelection.RebuiltExactly`).

## Model

| member | source | states |
|---|---|---|
| `ClockProtocol.NoLostWakeup` | fcp/base/clock.cc:71-179 | in every run, when no thread is inside or about to enter a dispatch, a simulated clock has no due waiter and has woken all due waiters in insertion order |
| `ClockProtocol.ExactlyOnceInOrder` | fcp/base/clock.cc:71-149 | at every moment, per deadline: the waiters inserted are exactly those woken, then those in a dispatcher's hands, then those pending |
| `ClockProtocol.NoEarlyWakeup` | fcp/base/clock.cc:136-149 | no waiter is collected before its deadline |
| `ClockProtocol.RealClockNeverOversleeps` | fcp/base/clock.cc:186-223 | at rest the next wake-up is the earliest deadline rounded up to whole milliseconds, and once it is reached the worker is not stuck |
| `ClockProtocol.DispatchSettles` | fcp/base/clock.cc:103-179 | without new calls every interleaving ends within a computed number of steps, and ends at rest with all due waiters of a simulated clock woken |
| `ClockProtocol.SetTimeServes` | fcp/base/simulated_clock.cc:49-63 | after every run, setting the time to t and letting the calls end wakes exactly the waiters with deadlines up to t, and leaves the others pending |
| `ClockProtocol.InsertServes` | fcp/base/clock.cc:71-89 | after every run, an inserted waiter is woken, behind the others of its deadline, once the calls have ended if it is due, and is pending behind them otherwise |
| `ClockProtocol.TickServes` | fcp/base/clock.cc:186-223 | after every run, when the real clock gets to its earliest deadline rounded up the worker dispatches, all waiters due by then are woken, and the clock is armed for the rest |
| `ClockProtocol.ServedAtRest` | fcp/base/clock.cc:103-179 | at rest exactly the due waiters are woken and the others are where they were |
| `ClockProtocol.WorkerActs` | fcp/base/clock.cc:186-203 | the worker waits for the armed time, dispatches exactly if it has come, which disarms the clock, and goes back to waiting |
| `ClockProtocol.ArmingActs` | fcp/base/clock.cc:206-223 | arming sets the rounded time and signals a sleeping worker exactly if the time changes |
| `ClockProtocol.NothingElseBlocks` | fcp/base/clock.cc:71-223 | callers are held up by the mutex alone, time and the worker by nothing |
| `ClockProtocol.SettledState` | fcp/base/clock.cc:103-179 | a clock is at rest if and only if no thread of a begun dispatch can step |
| `ClockProtocol.NoDeadlock` | fcp/base/clock.cc:103-179 | a clock that is not at rest can take a step |
| `ClockProtocol.InternalDecreases` | fcp/base/clock.cc:103-179 | each step of a dispatch decreases the bound on the steps left |
| `ClockProtocol.InvStep` | fcp/base/clock.cc:71-223 | every event of every thread keeps the invariant: one dispatcher exactly when the level is positive, a responsible thread for each due waiter, waiters conserved |
| `ClockProtocol.LevelStep` | fcp/base/clock.cc:126-179 | the dispatch level stays positive exactly while one call is dispatching |
| `ClockProtocol.DueStep` | fcp/base/clock.cc:71-179 | a due waiter of a simulated clock always has a thread that will look at it |
| `ClockProtocol.ArmedStep` | fcp/base/clock.cc:167-223 | a real clock with nobody responsible stays armed for its earliest deadline |
| `ClockProtocol.ConservedAtStep` | fcp/base/clock.cc:71-149 | no event loses, duplicates or reorders the waiters of a deadline |
| `WaiterMaps.DrainDelivers` | fcp/base/clock.cc:136-149 | collecting takes exactly the due buckets, each in insertion order, and leaves the others |
| `WaiterMaps.DrainOrdered` | fcp/base/clock.cc:134-149 | what is collected is in deadline order and due |
| `ClockObject.Clock.AddWaiter` | fcp/base/clock.cc:76-84 | appends to the bucket of the deadline |
| `ClockObject.Clock.CheckReentrancy` | fcp/base/clock.cc:129-132 | raises the level and tells whether a dispatch was going on |
| `ClockObject.Clock.GetExpiredWaiters` | fcp/base/clock.cc:136-149 | the loop returns the drained buckets and keeps the later ones |
| `ClockObject.Clock.FinishDispatch` | fcp/base/clock.cc:155-179 | resets the level; ends exactly if nothing is pending, or nobody re-entered and nothing is due, and then schedules the earliest deadline |
| `ClockObject.Clock.DispatchWakeups` | fcp/base/clock.cc:103-124 | undisturbed, the loop wakes exactly the due waiters; during another dispatch it only raises the level |
| `ThreadPool.NoStrandedTask` | fcp/base/scheduler.cc:127-167 | in every run a live pool with queued tasks has a thread running or woken, and as many woken threads as tasks while others sleep |
| `ThreadPool.IdleExactAndStable` | fcp/base/scheduler.cc:139-167 | the active count is the number of busy threads and never underflows; the idle test is exact and stays true until somebody schedules |
| `ThreadPool.DequeuedInOrder` | fcp/base/scheduler.cc:127-167 | tasks leave the queue once each, in scheduling order |
| `ThreadPool.JoinIsSafe` | fcp/base/scheduler.cc:110-167 | the join-time check fails only for a task scheduled after destruction began; otherwise every thread leaves |
| `ThreadPool.PoolConserves` | fcp/base/scheduler.cc:127-167 | every step but scheduling and finishing keeps the number of copies of a task in the pool |
| `ThreadPool.ThreadDecides` | fcp/base/scheduler.cc:144-167 | a thread at the mutex takes the first task of a live pool, sleeps if there is none, leaves a joining pool, or fails its check |
| `ThreadPool.ScheduleWakesOne` | fcp/base/scheduler.cc:127-132 | a task is queued last and one sleeping thread is woken, if there is one |
| `ThreadPool.DestroyWakesAll` | fcp/base/scheduler.cc:110-118 | destruction fails a pool that is not idle and otherwise wakes every sleeping thread |
| `ThreadPool.NothingBlocks` | fcp/base/scheduler.cc:97-193 | every thread that has not left can go on, and anybody can schedule |
| `ThreadPool.InvStep` | fcp/base/scheduler.cc:97-193 | every event keeps the pool invariant |
| `ThreadPool.Scheduler.constructor` | fcp/base/scheduler.cc:99-108 | the fields agree with an initial state of the step system, and the invariant holds |
| `ThreadPool.Scheduler.Enqueue` | fcp/base/scheduler.cc:127-132 | the critical section is the Schedule event, with its signal: the fields go on agreeing with the pool and the invariant is kept |
| `ThreadPool.Scheduler.ThreadArrives` | fcp/base/scheduler.cc:148-163 | the critical section is the Arrive event; the counter does not underflow, and the outcome is where the thread is afterwards |
| `ThreadPool.Scheduler.ThreadResumes` | fcp/base/scheduler.cc:150-163 | the end of a wait is the Resume event, and the outcome is where the thread is afterwards |
| `ThreadPool.IdleIsEmpty` | fcp/base/scheduler.cc:134-142 | an idle pool runs nothing and holds no task |
| `ThreadPool.Scheduler.BeginDestruction` | fcp/base/scheduler.cc:110-118 | the locked part is the Destroy event; it passes exactly if no thread is busy and no task is left, and then no thread stays asleep |
| `Strand.StepsNeverOverlapOrReorder` | fcp/base/scheduler.cc:57-88 | in every run the steps posted are those executed, then at most one in flight, then those queued; at most one thread is in a closure of the worker that it has not reported, and it runs the current step, although closures past their report may still be returning; a worker not running has done everything |
| `Strand.IdleWorkerIsDone` | fcp/base/scheduler.cc:57-88 | in every run, when the pool is idle the worker has executed everything posted |
| `Strand.PostIsKept` | fcp/base/scheduler.cc:57-61 | a posted step is kept, behind those before it, and the worker runs |
| `Strand.ExecuteRunsTheNext` | fcp/base/scheduler.cc:75-77 | what executes is the step in flight |
| `Strand.ReportHandsOver` | fcp/base/scheduler.cc:79-87 | a finished step hands the next one to the pool, or stops the worker if there is none |
| `Strand.PoolGoesOn` | fcp/base/scheduler.cc:57-88 | anything else in the pool, and the return of a closure, happens as it would without the worker |
| `Strand.NothingBlocks` | fcp/base/scheduler.cc:57-88 | a thread in a closure of the worker can go on, and anybody can post |
| `Strand.InvStep` | fcp/base/scheduler.cc:57-88 | every event of the worker and of the pool keeps the invariant: the pool holds the current step once and the closures that have reported |
| `Strand.Worker.RunNext` | fcp/base/scheduler.cc:64-88 | hands the first step to the pool unless running or empty |
| `Strand.Worker.Schedule` | fcp/base/scheduler.cc:57-61 | afterwards the worker runs, and what it hands over and keeps is in posting order |
| `Strand.Worker.StepFinished` | fcp/base/scheduler.cc:79-87 | hands over the next step, and stops exactly when none is queued |
| `Futures.FutureState.SetValue` | fcp/base/future.h:240-262 | sets and notifies once |
| `Futures.FutureState.TakeValue` | fcp/base/future.h:264-283 | takes once, after the notification |
| `Futures.Promise.SetOnce` | fcp/base/future.h:184-188 | consumes the promise and notifies the future with the value |
| `Futures.Promise.Destroy` | fcp/base/future.h:172-177 | abandons a promise not consumed and leaves a consumed one alone |
| `Futures.Promise.MoveFrom` | fcp/base/unique_value.h:47-49 | the source of a move is empty afterwards |
| `Futures.Promise.AssignFrom` | fcp/base/unique_value.h:51-54 | a live target of a move assignment is dropped without notification |
| `Futures.Future.Take` | fcp/base/future.h:132-136 | consumes the future and returns what was set |
| `Futures.MakeFuture` | fcp/base/future.h:225-233 | the two ends share one fresh state |
| `Futures.HandOver` | fcp/base/future.h:116-203 | through a move, the taker gets the value set, or nothing if the promise was abandoned |
| `Futures.AssignOver` | fcp/base/future.h:167-177 | the future of an assigned-over promise is notified exactly if the promise was consumed before |
| `InterruptibleRunner.AbortSafety` | fcp/client/interruptible_runner.cc:26-91 | in every run: no check fails, the callable runs and abort_function is called at most once; when Run has returned the callable was never posted, or it has ended and its value was taken; the status is its own or CANCELLED; the closure has returned to the pool, or exactly one thread is still in it, past setting the promise |
| `InterruptibleRunner.CallerDecides` | fcp/client/interruptible_runner.cc:26-91 | a run to be aborted from the start posts nothing and is CANCELLED; a poll takes a value that is there and otherwise aborts exactly if asked to; the later waits end in CANCELLED or in the end of the process |
| `InterruptibleRunner.ChecksAreRecorded` | fcp/base/future.h:240-283 | taking a value that is not set or was abandoned, and setting one twice, fail |
| `InterruptibleRunner.NothingBlocks` | fcp/client/interruptible_runner.cc:26-91 | neither the caller nor a thread of the call is ever stuck |
| `InterruptibleRunner.InvStep` | fcp/client/interruptible_runner.cc:26-91 | every event of the caller, the pool and the callable keeps the invariant |
| `InterruptibleRunner.PoolMoves` | fcp/base/future.h:209-221 | the closure is in the pool exactly from posting to its return |
| `InterruptibleRunner.RunReturnsBeforeTheClosure` | fcp/base/future.h:209-221 | a caller that polls between the notification and the return of the closure returns first |
| `InterruptibleRunner.ClosureOutlivesRun` | fcp/base/future.h:209-221 | a run at whose end Run has returned and a thread is still in the closure |
| `InterruptibleRunner.IdlePoolHoldsNothing` | fcp/client/interruptible_runner.h:70 | once the pool is idle nothing of the callable is left in it, and a posted one has been run and its promise set |
| `RunnerLoop.WaitUntilDone` | fcp/client/interruptible_runner.cc:37-55 | the polling loop ends at the first turn that decides; a finished callable wins over an abort; Abort is called at most once, and on return the value was set and taken |
| `RunnerLoop.Abort` | fcp/client/interruptible_runner.cc:57-91 | CANCELLED if the callable ends within either period, and otherwise the process exits |
| `RetryWindows.ToProto` | fcp/base/time_util.cc:41-60 | truncation to nanoseconds, with nanos in range |
| `RetryWindows.PickRetryDelayFromRange` | fcp/client/federated_protocol_util.cc:39-50 | the delay lies in the sanitised range |
| `RetryWindows.PickRetryTimeFromRange` | fcp/client/federated_protocol_util.cc:54-63 | the time lies in the sanitised range counted from now |
| `RetryWindows.GenerateRetryWindowFromTargetDelay` | fcp/client/federated_protocol_util.cc:65-79 | equal bounds within the clamped jitter around the target |
| `RetryWindows.GenerateRetryWindowFromRetryTime` | fcp/client/federated_protocol_util.cc:81-98 | equal bounds that point at the retry time, or at now if it has passed |
| `RetryWindows.DelaysCoverRange` | fcp/client/federated_protocol_util.cc:39-50 | every delay of the sanitised range is drawn for some random number |
| `RetryWindows.TimesCoverRange` | fcp/client/federated_protocol_util.cc:54-63 | every time of the sanitised range is drawn |
| `RetryWindows.WindowsCoverJitter` | fcp/client/federated_protocol_util.cc:65-79 | every delay within the clamped jitter is drawn |
| `FederatedSession.RetryWindowRefinement` | fcp/client/grpc_federated_protocol.cc:867-935 | after every legal history the window chosen by the object state is the one given by the last status, acceptance and acknowledgement in the history; no check fails |
| `FederatedSession.WindowByState` | fcp/client/grpc_federated_protocol.cc:867-935 | which window each object state gives, with an acknowledgement and without |
| `FederatedSession.RefinementHoldsExactly` | fcp/client/grpc_federated_protocol.cc:950-957 | the refinement holds for all histories if and only if OK is not a permanent code |
| `FederatedSession.OkMustNotBePermanent` | fcp/client/grpc_federated_protocol.cc:509-540 | the histories that break the rule otherwise |
| `FederatedSession.RetryTimePinned` | fcp/client/grpc_federated_protocol.cc:277-330 | one time per class, fixed at the acknowledgement within the server's range, and every later window points at it and carries the server's token |
| `FederatedSession.AckPinned` | fcp/client/grpc_federated_protocol.cc:277-330 | no later call changes what the acknowledgement fixed |
| `FederatedSession.AckFixesTimes` | fcp/client/grpc_federated_protocol.cc:277-330 | both times lie in the server's ranges and keep the server's tokens |
| `FederatedSession.WindowPoints` | fcp/client/grpc_federated_protocol.cc:867-935 | the window of a session points at the time of its class |
| `FederatedSession.LegalShape` | fcp/client/grpc_federated_protocol.cc:509-620 | a legal history is at most eligibility check-in, check-in and report, the report after acceptance |
| `FederatedSession.HistoryTracked` | fcp/client/grpc_federated_protocol.cc:277-620 | the object state records exactly acknowledgement, acceptance and permanent failure of the history |
| `FederatedSession.EvalByReplies` | fcp/client/grpc_federated_protocol.cc:332-412 | what an eligibility check-in returns and where it leaves the session, reply by reply; the first step that fails gives the status |
| `FederatedSession.CheckinByReplies` | fcp/client/grpc_federated_protocol.cc:414-507 | accepted exactly if a task arrives and its payloads can be fetched; the server alone decides on secure aggregation; the status of each failure |
| `FederatedSession.ReportByReplies` | fcp/client/grpc_federated_protocol.cc:769-865 | OK exactly if the report is of the form its aggregation takes, is sent, and a response arrives; the status of each failure |
| `FederatedSession.AckTimesCoverRange` | fcp/client/grpc_federated_protocol.cc:277-330 | every time of the server range is picked for some draw at the acknowledgement |
| `FederatedSession.AckComesFirst` | fcp/client/grpc_federated_protocol.cc:277-330 | only the first call can bring the acknowledgement |
| `FederatedSession.EvalEffect` | fcp/client/grpc_federated_protocol.cc:509-540 | what an eligibility check-in changes in those facts |
| `FederatedSession.CheckinEffect` | fcp/client/grpc_federated_protocol.cc:546-582 | what a check-in changes in those facts |
| `FederatedSession.ReportEffect` | fcp/client/grpc_federated_protocol.cc:592-620 | what a report changes in those facts |
| `GrpcProtocolObject.GrpcFederatedProtocol.constructor` | fcp/client/federated_protocol.h:334-391 | starts in INITIALIZED with an empty history |
| `GrpcProtocolObject.GrpcFederatedProtocol.UpdateObjectStateIfPermanentError` | fcp/client/grpc_federated_protocol.cc:950-957 | moves to the permanent state exactly for a permanent code |
| `GrpcProtocolObject.GrpcFederatedProtocol.ReceiveCheckinRequestAck` | fcp/client/grpc_federated_protocol.cc:277-330 | fixes the two retry times, or returns the error and fixes none |
| `GrpcProtocolObject.GrpcFederatedProtocol.ReceiveEligibilityEvalCheckinResponse` | fcp/client/grpc_federated_protocol.cc:332-412 | sets the state for each reply, before payloads are fetched |
| `GrpcProtocolObject.GrpcFederatedProtocol.ExchangeEligibilityEvalCheckin` | fcp/client/grpc_federated_protocol.cc:509-540 | the object goes through the states of the specification on every path |
| `GrpcProtocolObject.GrpcFederatedProtocol.EligibilityEvalCheckin` | fcp/client/grpc_federated_protocol.cc:509-540 | extends the legal history; a task comes with the URI callback |
| `GrpcProtocolObject.GrpcFederatedProtocol.ReceiveCheckinResponse` | fcp/client/grpc_federated_protocol.cc:414-507 | sets the state and the secure-aggregation choice for each reply |
| `GrpcProtocolObject.GrpcFederatedProtocol.ExchangeCheckIn` | fcp/client/grpc_federated_protocol.cc:546-582 | the object goes through the states of the specification on every path |
| `GrpcProtocolObject.GrpcFederatedProtocol.CheckIn` | fcp/client/grpc_federated_protocol.cc:546-582 | extends the legal history; an assignment comes with the URI callback |
| `GrpcProtocolObject.GrpcFederatedProtocol.ReportOutcome` | fcp/client/grpc_federated_protocol.cc:592-620 | extends the legal history by one report, which gets an OK exactly if it is well formed, sent and answered; a permanent status is recorded |
| `GrpcProtocolObject.GrpcFederatedProtocol.GetLatestRetryWindow` | fcp/client/grpc_federated_protocol.cc:867-935 | no check fails and the window is that of the session |
| `FlRunner.SplitIsPartition` | fcp/client/fl_runner.cc:801-832 | each eligible task is in exactly one of the two lists |
| `FlRunner.WeightsKeepOrder` | fcp/client/fl_runner.cc:801-832 | the weights kept are in their order |
| `FlRunner.NamesKeepOrder` | fcp/client/fl_runner.cc:801-832 | the names listed are in the order of the weights |
| `FlRunner.CreateEligibilityEvalResult` | fcp/client/fl_runner.cc:801-832 | a weight is kept exactly if no entry of the population spec marks its task as multiple, and its name is listed exactly if one does |
| `FlRunner.UpdateRetryWindow` | fcp/client/fl_runner.cc:253-266 | the retry information is the answer of the session at the given reading |
| `FlRunner.IssueEligibilityEvalCheckinAndRunPlan` | fcp/client/fl_runner.cc:848-1008 | makes one call, goes on exactly if the check-in may follow, leaves the state the check-in demands, and reports the answer of the session at the last reading of the path |
| `FlRunner.IssueCheckin` | fcp/client/fl_runner.cc:1017-1202 | makes one call, goes on exactly with an assignment whose plan can be run, and reports the answer of the session after the check-in |
| `FlRunner.ReportPlanResult` | fcp/client/fl_runner.cc:668-705 | reports once, completed exactly if there are results, unless logging the upload fails |
| `FlRunner.RunFederatedComputation` | fcp/client/fl_runner.cc:1321-1543 | on every path: the calls made, whether it is a contribution, and as retry information the answer of the final session at the last reading of that path |
| `FlRunner.EveryRunIsLegal` | fcp/client/fl_runner.cc:1321-1543 | the calls of every run form a legal history with at most one report, after acceptance; a contribution is a successful plan with a report that got OK |
| `FlRunner.RunSends` | fcp/client/fl_runner.cc:1321-1543 | the calls of every run and what they carry: the report holds the results exactly if the plan succeeded and they could be converted, and otherwise a failure with one empty checkpoint |
| `FlRunner.ContributesExactly` | fcp/client/fl_runner.cc:1517-1543 | a run is a contribution exactly if its plan is reached and succeeds and the report is well formed, logged, sent and answered |
| `FlRunner.CheckinReachedExactly` | fcp/client/fl_runner.cc:848-1008 | the check-in is reached exactly if the server acknowledges and has no eligibility task, or sends one whose plan succeeds |
| `FlRunner.PlanReachedExactly` | fcp/client/fl_runner.cc:1017-1202 | the plan is reached exactly if the run is accepted and everything the plan needs is there |
| `FlRunner.FinalReadingExactly` | fcp/client/fl_runner.cc:1321-1543 | which reading the last retry window is of, by how far the run gets |
| `FlRunner.RetryInfoOfEveryRun` | fcp/client/fl_runner.cc:253-266 | the reported information has the class that the rule over the calls gives; if accepted or rejected it points at the one time picked at the acknowledgement, within the range of the server and with its token, and otherwise it lies within the configured jitter |
| `FlRunner.AckAfterRun` | fcp/client/fl_runner.cc:1321-1543 | after a run the session holds the two times picked when the acknowledgement arrived, if it did |
| `FlRunner.CheckinIsLegal` | fcp/client/fl_runner.cc:1017-1202 | the check-in carries eligibility information exactly when the server sent a task |
| `FlRunner.ReportIsLegal` | fcp/client/fl_runner.cc:668-705 | a run that gets to the plan was accepted |
| `FlRunner.ContributionWithoutResults` | fcp/client/fl_runner.cc:668-705 | exactly when a run counts although it reported a failure |
| `Aggregations.TokenAdmitsOneClient` | fcp/demo/aggregations.py:305-311 | in every run each token admits at most one client, and only if issued |
| `Aggregations.ResultReleasedOnce` | fcp/demo/aggregations.py:232-279 | in every run a session is taken at most once, and its result released at most once, after being taken and with the required inputs; it is completed exactly if its result was released |
| `Aggregations.MinimumDecides` | fcp/demo/aggregations.py:242-258 | a completion goes on to the result exactly if the session is pending, has its minimum of inputs and an open protocol; a pending one that does not is failed |
| `Aggregations.TakingLeavesSession` | fcp/demo/aggregations.py:232-236 | taking a session out leaves it as it is |
| `Aggregations.CompletionReleases` | fcp/demo/aggregations.py:232-264 | a whole completion releases the result with its count and completes the session exactly if it is due and delivered, and fails a pending session otherwise; it notifies every wait |
| `Aggregations.AbortionEnds` | fcp/demo/aggregations.py:266-279 | a whole abortion aborts a pending session and cleans up, unless it raises |
| `Aggregations.UploadCounts` | fcp/demo/aggregations.py:403-517 | a whole upload spends its token, is counted if included, and then notifies exactly the waits that the new count satisfies |
| `Aggregations.UploadAborted` | fcp/demo/aggregations.py:522-554 | the abortion of an upload takes its client out and nothing else |
| `Aggregations.WaitAccepted` | fcp/demo/aggregations.py:286-303 | a wait is accepted exactly if its threshold is above the count |
| `Aggregations.ProtocolCloses` | fcp/demo/aggregations.py:246-279 | the end of a protocol closes it |
| `Aggregations.CompletedStep` | fcp/demo/aggregations.py:253-264 | every step keeps a session completed exactly if its result was released |
| `Aggregations.NothingBlocks` | fcp/demo/aggregations.py:202-554 | a registered session serves every request, and no request that has begun is stuck |
| `Aggregations.WaitsAreNotified` | fcp/demo/aggregations.py:286-303 | in every run an accepted wait is pending or notified, once; a pending one has its threshold above the count unless a submission is about to check; one that is pending on a session that is over was so when the abortion of that session raised |
| `Aggregations.WaitAfterFailure` | fcp/demo/aggregations.py:386-398 | a wait on a failed session is accepted exactly when its threshold is above the count |
| `Aggregations.InvStep` | fcp/demo/aggregations.py:202-554 | every step of every request keeps the invariant |
| `Aggregations.TokensStep` | fcp/demo/aggregations.py:403-415 | no step issues or admits a token twice |
| `Aggregations.ReleasedStep` | fcp/demo/aggregations.py:246-264 | no step releases a second result or one with too few inputs |
| `Aggregations.WaitsStep` | fcp/demo/aggregations.py:499-516 | a satisfied wait is left only while a submission has its check ahead |
| `Aggregations.EndedStep` | fcp/demo/aggregations.py:368-384 | a session that is over, and whose abortion did not raise, has no tokens and no waits |
| `Aggregations.OverSessionsAreClean` | fcp/demo/aggregations.py:266-279 | in every run a session that is over has no tokens and waits, or, if its abortion raised, exactly the tokens it had then and the waits it had then and that were not notified since; it has none if and only if its abortion did not raise or left none |
| `Aggregations.ClientsLeftBehind` | fcp/demo/aggregations.py:422-424 | in every run the clients of a session that is over are exactly those registered when it was, or left by an abortion that raised; none of them is taken out again |
| `Aggregations.NotifiedWhenOver` | fcp/demo/aggregations.py:504-516 | in every run a wait left on a session that is over is notified exactly by a submission that finds it satisfied |
| `Aggregations.AbandonFrame` | fcp/demo/aggregations.py:274-276 | a session is abandoned exactly by an abortion that finds it pending and its protocol closed |
| `Aggregations.RemainsStep` | fcp/demo/aggregations.py:266-279 | every step keeps the remains of an abandoned session exact |
| `Aggregations.OverStep` | fcp/demo/aggregations.py:232-279 | a session gets over by its clean-up or by an abortion that raises, and stays over |
| `Aggregations.AbandonedSession` | fcp/demo/aggregations.py:266-279 | a run at whose end a session is over with a wait and a token left |
| `Aggregations.LateClient` | fcp/demo/aggregations.py:417-424 | a run at whose end a cleaned-up session has a client |
| `Aggregations.LeftStep` | fcp/demo/aggregations.py:422-424 | every step keeps the clients of a session that is over exactly those registered too late or left by an abortion that raised |
| `Aggregations.SessionState.constructor` | fcp/demo/aggregations.py:225-229 | the new object is the session that CreateSession adds |
| `Aggregations.SessionState.RedeemToken` | fcp/demo/aggregations.py:407-415 | succeeds exactly if the StartUpload event is possible and does what it does to the session; an accepted token was issued and never accepted before; a refusal changes nothing |
| `Aggregations.SessionState.TakeClient` | fcp/demo/aggregations.py:446-454 | succeeds exactly if the Submit and AbortUpload events are possible and does what they do; afterwards the client cannot be taken again; a refusal changes nothing |
| `Aggregations.SessionState.AddWait` | fcp/demo/aggregations.py:292-303 | blocks exactly with a threshold above the count, and does what the StartWait event does |
| `Aggregations.SessionState.CompleteSatisfiedWaits` | fcp/demo/aggregations.py:504-516 | the loop completes exactly the satisfied waits, as the CheckWaits event does |
| `Aggregations.SessionState.AbortProtocolOf` | fcp/demo/aggregations.py:271-276 | does what the AbortProtocol event does; it raises exactly if the session is pending and the protocol closed, and otherwise goes on to the clean-up |
| `Aggregations.SessionState.CleanUpSession` | fcp/demo/aggregations.py:368-384 | does what the CleanUp event does: each wait is notified for the first time and the session is over |
| `GraphRewrite.NamesAreBare` | fcp/artifact_building/tensor_utils.py:24-35 | a node name and its control input refer to the node |
| `GraphRewrite.BareNameExactly` | fcp/artifact_building/tensor_utils.py:24-35 | a reference is to a node exactly if it is its name or an output of it, with or without a caret |
| `GraphRewrite.OutputsAreBare` | fcp/artifact_building/tensor_utils.py:24-35 | an output of a node refers to it |
| `GraphRewrite.RewriteKeepsInputs` | fcp/artifact_building/graph_helpers.py:397-404 | every node keeps its name and its inputs as a prefix and gains at most the control input |
| `GraphRewrite.GetDepsForGraphNode` | fcp/artifact_building/graph_helpers.py:337-368 | the worklist ends with exactly the proper ancestors; it raises KeyError exactly if a missing node is reached |
| `GraphRewrite.AddControlDepsForInitOp` | fcp/artifact_building/graph_helpers.py:371-404 | appends the control input to exactly the nodes that are neither the init op nor its ancestors and lack it, keeping the inputs as a prefix |
| `GraphRewrite.RewriteKeepsAcyclicity` | fcp/artifact_building/graph_helpers.py:371-404 | the rewritten graph is acyclic if and only if the graph was |
| `GraphRewrite.InitDependsOnTheSame` | fcp/artifact_building/graph_helpers.py:371-404 | the init op keeps its ancestors |
| `GraphRewrite.RewriteIsIdempotent` | fcp/artifact_building/graph_helpers.py:371-404 | a second application changes nothing |
| `GraphRewrite.InitComesFirst` | fcp/artifact_building/graph_helpers.py:371-404 | in every topological order of the rewritten graph the init op precedes every non-ancestor |
| `GraphRewrite.RewrittenOrder` | fcp/artifact_building/graph_helpers.py:371-404 | such an order exists whenever the graph had one |
| `GraphRewrite.InputsOfRewritten` | fcp/artifact_building/graph_helpers.py:389-404 | in terms of names, the rewrite adds the init op to the inputs of the nodes that wait |
| `SecureSum.MergeSecaggVars` | fcp/artifact_building/federated_compute_plan_builder.py:302-362 | the merge in place: exact addition in the simple leaves, and in each modular leaf the remainder by the modulus in its own position; an error exactly on a count mismatch, which changes nothing |
| `SecureSum.RoundHoldsSum` | fcp/artifact_building/federated_compute_plan_builder.py:1020-1031 | whatever the order and nesting, a simple leaf holds the exact sum and a modular leaf the sum modulo its own modulus |
| `SecureSum.RoundHoldsExactly` | fcp/artifact_building/federated_compute_plan_builder.py:302-362 | a simple leaf is the sum of its entry in every update; a modular leaf is the remainder of that sum by the modulus in its own position |
| `SecureSum.LeavesOfConcat` | fcp/artifact_building/federated_compute_plan_builder.py:1020-1031 | the updates of a round are those of its parts, once each and in order |
| `SecureSum.PlanHoldsSum` | fcp/artifact_building/federated_compute_plan_builder.py:1750-1760 | the same for results of rounds merged into further rounds |
| `SecureSum.GroupingDoesNotMatter` | fcp/artifact_building/federated_compute_plan_builder.py:302-362 | rounds over the same multiset of updates leave the same accumulators |
| `SecureSum.NoWrapExactly` | fcp/artifact_building/federated_compute_plan_builder.py:241-252 | a modulus recovers every sum of a shard if and only if it exceeds the largest input times the shard size |
| `SecureSum.BaseModulusIsLeast` | fcp/artifact_building/federated_compute_plan_builder.py:241-252 | the base modulus is the least that keeps single inputs apart, and a shard multiplies it by its size |
| `SecureSum.ShardModulusIsSafe` | fcp/artifact_building/federated_compute_plan_builder.py:241-252 | the chosen modulus never wraps, and without the extra unit a full shard of maximal inputs would sum to zero |
| `VariableNames.FlattenedAlike` | fcp/artifact_building/variable_helpers.py:144-282 | names and specifications list the same leaves, position by position, each name the joined path |
| `VariableNames.NamesAreDistinct` | fcp/artifact_building/variable_helpers.py:144-203 | with slash-free field names that differ from the siblings' names and indices, different leaves have different names |
| `VariableNames.DigitsRoundTrip` | fcp/artifact_building/variable_helpers.py:190-196 | an index name is its decimal numeral, without leading zeros |
| `VariableNames.FieldNameExactly` | fcp/artifact_building/variable_helpers.py:190-196 | a field goes by its own name, or by its index if it has none or an empty one |
| `VariableNames.SlashedInjective` | fcp/artifact_building/variable_helpers.py:184-196 | a joined name has one decomposition into slash-free parts |
| `VariableNames.IndexNameCollides` | fcp/artifact_building/variable_helpers.py:190-196 | a field named like the index of an unnamed sibling collides with it |
| `VariableNames.SlashedNameCollides` | fcp/artifact_building/variable_helpers.py:190-196 | a field name with a slash collides with a nested field |
| `VariableNames.SharedNamesDiffer` | fcp/artifact_building/variable_helpers.py:206-232 | no two secure tensors, of one intrinsic or of two, share a name |
| `VariableNames.SharedNameOfLeaf` | fcp/artifact_building/variable_helpers.py:206-232 | the shared name of each leaf, written out |
| `VariableNames.AllSharedNamesDiffer` | fcp/artifact_building/federated_compute_plan_builder.py:227-290 | the names that key the side channels, in the order bitwidth, max-input, modular, are all different |
| `VariableNames.ModularNamesComeLast` | fcp/artifact_building/federated_compute_plan_builder.py:1294-1303 | on either side the names of modular sums come last, after bitwidth and max-input sums |
| `TensorSelection.SelectionIsSlice` | fcp/artifact_building/variable_helpers.py:333-372 | the specifications of a selected part are a contiguous part of those of the whole |
| `TensorSelection.RebuiltExactly` | fcp/artifact_building/variable_helpers.py:353-370 | the specifications rebuilt from a path are those of the selected tensors if and only if the path goes below the argument and through fields that go by their index, or there is no tensor |
| `TensorSelection.UnnamedGoByIndex` | fcp/artifact_building/variable_helpers.py:353-370 | unnamed fields go by their index |
| `TensorSelection.SelectionFindsItsTensors` | fcp/artifact_building/variable_helpers.py:320-372 | a selection path of length at least two, through unnamed fields below the argument, yields the stored specifications |
| `TensorSelection.TypeFollowsPath` | fcp/artifact_building/variable_helpers.py:320-331 | the type of a selection is what its path leads to |
| `TensorSelection.GetSelectionPath` | fcp/artifact_building/variable_helpers.py:320-331 | the loop and the reversal give the indices outermost first |
| `TensorSelection.GetInputTensorSpecs` | fcp/artifact_building/variable_helpers.py:333-372 | all selections in order, or the first error |
| `TensorSelection.ArgumentsInOrder` | fcp/artifact_building/variable_helpers.py:353-372 | the specifications of each selection stand where those of the selections before it end |
| `TensorSelection.FirstFaultDecides` | fcp/artifact_building/variable_helpers.py:353-372 | the first value that is no selection, or selects from an unknown argument, decides the error |
| `TensorSelection.NoFaultNoError` | fcp/artifact_building/variable_helpers.py:353-372 | without such a value there is no error |
| `TensorSelection.GroupOutputs` | fcp/artifact_building/variable_helpers.py:432-460 | the running index gives each local its own part, and fails exactly beyond the list |
| `TensorSelection.GroupIsItsLocal` | fcp/artifact_building/variable_helpers.py:402-460 | each group is the specifications of its own local under that local's name; nothing is missing |
| `TensorSelection.GroupsPartition` | fcp/artifact_building/variable_helpers.py:402-460 | in order, the groups make up the whole list |
| `SecAggInputs.AddValuesToQuantized` | fcp/client/fl_runner.cc:90-98 | each entry converted to an unsigned 64-bit number |
| `SecAggInputs.CreateComputationResults` | fcp/client/fl_runner.cc:130-199 | the three outcomes exactly, and the last output of each name with its dimensions, plus the checkpoint |
| `SecAggInputs.OnlySpecDecides` | fcp/client/fl_runner.cc:177-188 | the dimensions of a name are those of its specification |
| `SecAggInputs.DimensionsOfConcat` | fcp/client/fl_runner.cc:177-188 | and those of several one after the other |
| `SecAggInputs.GetModulus` | fcp/client/grpc_federated_protocol.cc:671-691 | fails exactly for an unknown aggregand; a positive modulus is returned unchanged, and otherwise the power of two of the bitwidth |
| `SecAggInputs.ModulusExactly` | fcp/client/grpc_federated_protocol.cc:671-691 | the modulus given by the server, or a power of two that doubles with each bit |
| `SecAggInputs.BitwidthExactly` | fcp/client/fl_runner.cc:144-174 | the bitwidth of a type is that of its largest entry, except for 64-bit integers |
| `SecAggInputs.TypesExactly` | fcp/client/fl_runner.cc:144-174 | the entries of each type |
| `SecAggInputs.BitwidthIsUsable` | fcp/client/grpc_federated_protocol.cc:671-691 | a bare bitwidth gives a usable modulus exactly from 1 to 62 |
| `SecAggInputs.FlattenedLength` | fcp/client/secagg_runner.cc:127-128 | the product of the dimensions in 64-bit arithmetic |
| `SecAggInputs.ProductOfConcat` | fcp/client/secagg_runner.cc:127-128 | the product is that of all dimensions |
| `SecAggInputs.Check` | fcp/client/secagg_runner.cc:120-141 | accepts exactly the vectors that pass all checks |
| `SecAggInputs.PrepareInputs` | fcp/client/secagg_runner.cc:113-146 | accepts exactly if every tensor passes, in any order of the map, and gives one vector and one specification for each |
| `SecAggInputs.OneSpecEach` | fcp/client/secagg_runner.cc:142-144 | every vector has exactly one specification, of its own name, modulus and 32-bit length |
| `SecAggInputs.AcceptedExactly` | fcp/client/secagg_runner.cc:120-141 | accepted exactly when the original entries lie in [0, modulus) and the length matches; then the original entries are handed over, and a negative entry is always rejected |
| `SecAggInputs.HandedOverExactly` | fcp/client/secagg_runner.cc:113-146 | from the outputs of the plan to the SecAgg client, entry by entry |
| `SecAggInputs.LengthIsProductExactly` | fcp/client/secagg_runner.cc:127-133 | an accepted length is the product of the dimensions exactly if that is a 63-bit number |
| `SecAggInputs.OverflowPassesTheCheck` | fcp/client/secagg_runner.cc:127-133 | in wrapping arithmetic, dimensions whose product is not one pass for a single entry |
| `SecAggInputs.SpecLengthExactly` | fcp/secagg/shared/input_vector_specification.h:37-38 | the recorded length is right exactly below 2^31 |
| `Stopwatch.CoveredMember` | fcp/base/wall_clock_stopwatch.cc:32-61 | the covered ticks are those at which some handle was live |
| `Stopwatch.CoveredGrows` | fcp/base/wall_clock_stopwatch.cc:35-61 | covered time grows with the clock exactly while a handle is live |
| `Stopwatch.StopHandle` | fcp/base/wall_clock_stopwatch.cc:53-61 | stopping a handle keeps the time covered so far |
| `Stopwatch.WallClockStopwatch.StartInternal` | fcp/base/wall_clock_stopwatch.cc:45-52 | starting a handle keeps the accumulated time equal to the union measure |
| `Stopwatch.WallClockStopwatch.StopInternal` | fcp/base/wall_clock_stopwatch.cc:53-61 | stopping any live handle, in any order, keeps it |
| `Stopwatch.WallClockStopwatch.GetTotalDuration` | fcp/base/wall_clock_stopwatch.cc:35-42 | the total is the length of the time during which at least one handle was live; the latest start is infinite exactly if none is |

## Left out

- gRPC, HTTP, TLS, file and media transport; every reply, read or write is an argument chosen by the environment.
- TensorFlow, TFF and TFLite: a graph is a list of nodes with inputs, a plan run an outcome with outputs, a type a tree.
- SecAgg cryptography and the native aggregation protocol: only a status and an included count that grows with closed, successful inputs.
- Loggers, event publishers, network statistics, flags and fakes: forwarding with no property of their own.
- The HTTP federated protocol, PerformMultipleTaskAssignments, federated select, caches and the opstats database.
- Floating point: times and jitter are real numbers, so the rounding of CeilToMillis through doubles is not modelled.
- Integer widths: dispatch level, active count and handle count are unbounded; TensorFlow's overflow in added leaves is not modelled.
- Blocking: a wait is a step that is enabled when the wait may end; a WakeUp() that calls the clock back appears as a separate call.
- ClockObject.Clock.DispatchWakeups: states the loop for an undisturbed call only; interference is covered by the runs of ClockProtocol.
- Strand: the check that the worker outlives its tasks is not modelled.
- InterruptibleRunner: in the step system the polling loop appears as steps of the caller, and exit(0) after the extended wait as an end of the run.
- RunnerLoop.WaitUntilDone: runs for a given finite list of turns, since the source's loop need not end.
- Futures: a failed check is a precondition; memory ordering is not modelled.
- GrpcProtocolObject.GrpcFederatedProtocol.EligibilityEvalCheckin: the check on the call sequence is a precondition, as it is for the other calls; byte counters and tracing are not modelled.
- FederatedSession.RetryWindowRefinement: asks that OK is not a permanent code; RefinementHoldsExactly shows that this is needed.
- FlRunner.ReportPlanResult: hasCheckpoint, which the source leaves uninitialised when there is no checkpoint among the results, is read as false.
- Aggregations: requests answered with an error change nothing and are no steps; a wait without a threshold returns at once and is no step; it is not claimed that every registered upload is finalised.
- Aggregations: cleaning up is one step, although the source runs it without the lock, so what other requests do to the session in the middle of it is not modelled.
- Aggregations.TokenAdmitsOneClient: the tokens of a request are new, as identifiers from uuid4 are taken to be; so are the identifiers of waits.
- Aggregations: the number of included inputs is taken not to decrease until the protocol is aborted; an abortion discards them.
- GraphRewrite.NamesAreBare: the empty reference, for which the source raises IndexError, has the empty bare name.
- SecAggInputs.GetModulus: a bitwidth of 64 or more, a shift that C++ leaves undefined, gives the mathematical power of two, which is then rejected.
- SecAggInputs.FlattenedLength: a signed product that overflows, which C++ leaves undefined, wraps around.
- SecureSum.MergeSecaggVars: moduli are positive; reshaping is not modelled, since a leaf stands for one entry of a tensor.
- TensorSelection.GetInputTensorSpecs: takes the selections of an argument already flattened, and well-typed.
- ExtractTaskNameFromAggregationSessionId and other small string helpers, which no modelled operation depends on.
