/** InterruptibleRunner::Run: a callable posted to a thread pool, a caller that polls its future and
    may abort.  The pool may have any number of threads and other users; the answers of
    should_abort() and the expiry of the waits are up to the environment. */
module InterruptibleRunner {
  import opened Options
  import opened Futures
  import Pool = ThreadPool

  type Status = int
  const CANCELLED: Status := 1

  /** Where the caller of Run() is. */
  datatype Caller =
    | Starting
    | Polling                 // WaitUntilDone(): in Wait(polling_period)
    | GracefulWait            // Abort(): abort_function has been called
    | ExtendedWait
    | Returned(status: Status)
    | ProcessExited           // exit(0)

  /** `results` maps a thread that has run the callable, and not yet set the promise, to its status;
      `past` are the threads that have set it and are still in the closure, `closed` says that the closure
      has returned to the pool; `runs` and `aborts` count calls of the callable and of abort_function;
      `failed` is a failed FCP_CHECK of the future or of Run(). */
  datatype State = State(
    pool: Pool.State, id: nat, caller: Caller, future: Cell<Status>, posted: bool,
    results: map<nat, Status>, past: set<nat>, closed: bool, runs: seq<Status>, aborts: nat, failed: bool)

  datatype Event =
    | Start(abort: bool, wake: nat)
    | Poll(abort: bool)                 // the wait is over; `abort` is read only if nothing is ready
    | GraceOver
    | ExtendedOver
    | CallableReturns(thread: nat, status: Status)
    | SetPromise(thread: nat)           // notifies the caller
    | ClosureReturns(thread: nat)
    | Other(event: Pool.Event)

  function TheTask(s: State): Pool.Task { Pool.Task(s.id, 0) }

  predicate Mine(s: State, t: nat) {
    t < |s.pool.threads| && s.pool.threads[t].Running? && s.pool.threads[t].task.owner == s.id
  }

  ghost predicate Enabled(s: State, e: Event) {
    && s.pool.failure.NoFailure? && !s.failed && !s.caller.ProcessExited?
    && match e
       case Start(_, w) => s.caller.Starting? && Pool.Enabled(s.pool, Pool.Schedule(TheTask(s), w))
       case Poll(_) => s.caller.Polling?
       case GraceOver => s.caller.GracefulWait?
       case ExtendedOver => s.caller.ExtendedWait?
       case CallableReturns(t, _) => Mine(s, t) && t !in s.results && t !in s.past
       case SetPromise(t) => Mine(s, t) && t in s.results
       case ClosureReturns(t) => Mine(s, t) && t in s.past
       case Other(p) =>
         && Pool.Enabled(s.pool, p)
         && (p.Schedule? ==> p.task.owner != s.id) && (p.EndTask? ==> !Mine(s, p.thread))
  }

  /** Take() and the check that the promise was not abandoned. */
  function TakeAndReturn(s: State, status: Status): State {
    if s.future.phase.Set? && s.future.value.Some?
    then s.(future := s.future.(phase := Taken), caller := Returned(status))
    else s.(failed := true)
  }

  function Apply(s: State, e: Event): State
    requires Enabled(s, e)
  {
    match e
    case Start(abort, w) =>
      if abort then s.(caller := Returned(CANCELLED))
      else s.(pool := Pool.Apply(s.pool, Pool.Schedule(TheTask(s), w)), posted := true, caller := Polling)
    case Poll(abort) =>
      if s.future.ready then
        TakeAndReturn(s, if s.future.value.Some? then s.future.value.value else CANCELLED)
      else if abort then s.(aborts := s.aborts + 1, caller := GracefulWait)
      else s
    case GraceOver =>
      if s.future.ready then TakeAndReturn(s, CANCELLED) else s.(caller := ExtendedWait)
    case ExtendedOver =>
      if s.future.ready then TakeAndReturn(s, CANCELLED) else s.(caller := ProcessExited)
    case CallableReturns(t, status) =>
      s.(results := s.results[t := status], runs := s.runs + [status])
    case SetPromise(t) =>
      if s.future.ready then s.(failed := true)
      else s.(future := Cell(true, Set, Some(s.results[t])), results := s.results - {t}, past := s.past + {t})
    case ClosureReturns(t) =>
      s.(past := s.past - {t}, closed := true, pool := Pool.Apply(s.pool, Pool.EndTask(t)))
    case Other(p) => s.(pool := Pool.Apply(s.pool, p))
  }

  /** Run() is called with a pool in any reachable state that holds nothing of this call yet. */
  ghost predicate Init(s: State) {
    && Pool.Inv(s.pool) && OnlyWhile(s.pool, s.id, false)
    && s.caller.Starting? && s.future == Fresh() && !s.posted && s.results == map[] && s.past == {}
    && !s.closed && s.runs == [] && s.aborts == 0 && !s.failed
  }

  ghost predicate Step(s: State, s': State) {
    exists e :: Enabled(s, e) && s' == Apply(s, e)
  }

  ghost predicate IsRun(run: seq<State>) {
    && run != [] && Init(run[0])
    && forall i | 0 <= i < |run| - 1 :: Step(run[i], run[i + 1])
  }

  // ---------------------------------------------------------------- the inductive invariant

  ghost predicate Occurs(pool: Pool.State, id: nat, live: bool, b: nat) {
    Pool.InPool(pool, Pool.Task(id, b)) == if live && b == 0 then 1 else 0
  }

  /** The pool holds the callable's closure exactly while `live`, and only once. */
  ghost predicate OnlyWhile(pool: Pool.State, id: nat, live: bool) {
    forall b :: Occurs(pool, id, live, b)
  }

  predicate InPool(s: State) { s.posted && !s.closed }

  /** The closure is in the pool from posting until it returns, which is after the promise is set; the callable
      runs once. */
  ghost predicate ClosureOnce(s: State) {
    && OnlyWhile(s.pool, s.id, InPool(s))
    && (forall t | t in s.results :: Mine(s, t) && !s.future.ready && s.runs == [s.results[t]])
    && (forall t | t in s.past :: Mine(s, t) && s.future.ready)
    && (s.runs != [] ==> s.future.ready || s.results != map[])
    && (s.future.ready <==> s.closed || s.past != {})
  }

  ghost predicate FutureOnce(s: State) {
    && CellValid(s.future) && !s.failed
    && (s.future.ready ==> s.posted && s.future.value.Some? && s.runs == [s.future.value.value])
  }

  ghost predicate CallerSafe(s: State) {
    && (s.caller.Starting? ==> !s.posted)
    && (s.caller.Starting? || s.caller.Polling? ==> s.aborts == 0)
    && (s.caller.GracefulWait? || s.caller.ExtendedWait? || s.caller.ProcessExited? ==> s.aborts == 1)
    && (s.future.phase.Taken? ==> s.caller.Returned?)
    && (s.caller.Returned? ==>
          if s.posted
          then && s.future.phase.Taken? && s.aborts <= 1 && s.runs != []
               && s.caller.status == (if s.aborts == 0 then s.runs[0] else CANCELLED)
          else s.aborts == 0 && s.caller.status == CANCELLED)
  }

  ghost predicate Inv(s: State) {
    Pool.Inv(s.pool) && ClosureOnce(s) && FutureOnce(s) && CallerSafe(s)
  }

  lemma OneRunner(s: State, t: nat)
    requires ClosureOnce(s) && Mine(s, t)
    ensures s.pool.threads[t].task == TheTask(s) && InPool(s)
    ensures forall u | Mine(s, u) :: u == t
  {
    RunnerCounts(s, t);
    forall u: nat | Mine(s, u) ensures u == t {
      RunnerCounts(s, u);
      if u != t { Pool.TwoRunners(s.pool.threads, t, u, TheTask(s)); }
    }
  }

  lemma RunnerCounts(s: State, t: nat)
    requires ClosureOnce(s) && Mine(s, t)
    ensures s.pool.threads[t].task == TheTask(s) && Pool.InPool(s.pool, TheTask(s)) == 1 && InPool(s)
  {
    var x := s.pool.threads[t].task;
    Pool.RunnersUpdate(s.pool.threads, t, Pool.Returning, x);
    assert x == Pool.Task(s.id, x.id);
    assert Occurs(s.pool, s.id, InPool(s), x.id);
  }

  lemma PoolMoves(s: State, p: Pool.Event, live: bool, live': bool)
    requires Pool.Inv(s.pool) && Pool.Enabled(s.pool, p) && OnlyWhile(s.pool, s.id, live)
    requires p.Schedule? && p.task.owner == s.id ==> p.task == TheTask(s) && !live && live'
    requires p.EndTask? && Mine(s, p.thread) ==> live && !live' && s.pool.threads[p.thread].task == TheTask(s)
    requires !(p.Schedule? && p.task.owner == s.id) && !(p.EndTask? && Mine(s, p.thread)) ==> live == live'
    ensures Pool.Inv(Pool.Apply(s.pool, p)) && OnlyWhile(Pool.Apply(s.pool, p), s.id, live')
  {
    Pool.InvStep(s.pool, p);
    forall b ensures Occurs(Pool.Apply(s.pool, p), s.id, live', b) {
      assert Occurs(s.pool, s.id, live, b);
      Pool.PoolConserves(s.pool, p, Pool.Task(s.id, b));
    }
  }

  lemma StartKeeps(s: State, abort: bool, w: nat)
    requires Inv(s) && Enabled(s, Start(abort, w))
    ensures Inv(Apply(s, Start(abort, w)))
  {
    if s.results != map[] {
      var item :| item in s.results.Items;
      OneRunner(s, item.0);
    }
    assert forall t :: t !in s.past;
    if !abort { PoolMoves(s, Pool.Schedule(TheTask(s), w), false, true); }
  }

  lemma CallableKeeps(s: State, t: nat, status: Status)
    requires Inv(s) && Enabled(s, CallableReturns(t, status))
    ensures Inv(Apply(s, CallableReturns(t, status)))
  {
    OneRunner(s, t);
    assert s.results.Keys == {} && s.past == {};
  }

  lemma SetKeeps(s: State, t: nat)
    requires Inv(s) && Enabled(s, SetPromise(t))
    ensures Inv(Apply(s, SetPromise(t)))
  {
    OneRunner(s, t);
    assert forall u | u in s.results :: u == t;
  }

  lemma ReturnKeeps(s: State, t: nat)
    requires Inv(s) && Enabled(s, ClosureReturns(t))
    ensures Inv(Apply(s, ClosureReturns(t)))
  {
    OneRunner(s, t);
    PoolMoves(s, Pool.EndTask(t), true, false);
    assert forall u | u in s.past :: u == t;
  }

  /** No event of others in the pool moves a thread of this call. */
  lemma MineKept(s: State, p: Pool.Event, t: nat)
    requires Enabled(s, Other(p)) && Mine(s, t)
    ensures Mine(Apply(s, Other(p)), t)
  {
  }

  lemma OtherKeeps(s: State, p: Pool.Event)
    requires Inv(s) && Enabled(s, Other(p))
    ensures Inv(Apply(s, Other(p)))
  {
    PoolMoves(s, p, InPool(s), InPool(s));
    var s' := Apply(s, Other(p));
    forall t: nat | Mine(s, t) ensures Mine(s', t) { MineKept(s, p, t); }
    assert s' == s.(pool := Pool.Apply(s.pool, p));
    assert ClosureOnce(s');
  }

  lemma InvStep(s: State, e: Event)
    requires Inv(s) && Enabled(s, e)
    ensures Inv(Apply(s, e))
  {
    match e
    case Start(abort, w) => StartKeeps(s, abort, w);
    case CallableReturns(t, status) => CallableKeeps(s, t, status);
    case SetPromise(t) => SetKeeps(s, t);
    case ClosureReturns(t) => ReturnKeeps(s, t);
    case Other(p) => OtherKeeps(s, p);
    case Poll(_) =>
    case GraceOver =>
    case ExtendedOver =>
  }

  lemma {:induction false} InvReachable(run: seq<State>)
    requires IsRun(run)
    ensures Inv(run[|run| - 1])
    decreases |run|
  {
    if |run| > 1 {
      InvReachable(run[..|run| - 1]);
      var s, s' := run[|run| - 2], run[|run| - 1];
      assert Step(s, s');
      var e :| Enabled(s, e) && s' == Apply(s, e);
      InvStep(s, e);
    }
  }

  /** Abort safety, over every run: no check of the future or of Run() fails, the callable runs at
      most once and abort_function is called at most once; whenever Run() has returned, either the
      callable was never posted and the result is CANCELLED, or it has run to its end and its value was
      taken, and the result is the callable's own status unless the run was aborted, and CANCELLED if it
      was.  The closure around the callable may outlive Run(): it has returned to the pool, or one thread
      is still in it, past setting the promise. */
  lemma AbortSafety(run: seq<State>)
    requires IsRun(run)
    ensures var s := run[|run| - 1];
            && !s.failed && |s.runs| <= 1 && s.aborts <= 1
            && (s.future.ready ==> s.future.value.Some? && s.runs == [s.future.value.value])
            && (s.caller.Returned? && !s.posted ==>
                  s.runs == [] && s.aborts == 0 && s.caller.status == CANCELLED)
            && (s.caller.Returned? && s.posted ==>
                  && |s.runs| == 1 && s.future.phase.Taken?
                  && s.caller.status == (if s.aborts == 0 then s.runs[0] else CANCELLED)
                  && Pool.InPool(s.pool, TheTask(s)) == (if s.closed then 0 else 1)
                  && (!s.closed ==> exists t: nat :: Mine(s, t) && s.past == {t}))
  {
    var s := run[|run| - 1];
    InvReachable(run);
    assert Occurs(s.pool, s.id, InPool(s), 0);
    if s.results != map[] {
      var item :| item in s.results.Items;
      OneRunner(s, item.0);
    }
    if s.past != {} {
      var t :| t in s.past;
      OneRunner(s, t);
      assert Mine(s, t) && s.past == {t};
    }
  }

  /** What the caller does: a run that is to be aborted from the start posts nothing and is cancelled; a poll takes a
      value that is there, and otherwise aborts exactly if asked to; the two waits after that end in CANCELLED or, at
      last, in the end of the process. */
  lemma CallerDecides(s: State, e: Event)
    requires Inv(s) && Enabled(s, e)
    ensures var s' := Apply(s, e);
            match e
            case Start(abort, _) =>
              && s'.aborts == s.aborts && s'.runs == s.runs
              && (if abort then s'.caller == Returned(CANCELLED) && !s'.posted && s'.pool == s.pool
                  else s'.caller == Polling && s'.posted && Pool.InPool(s'.pool, TheTask(s)) == 1)
            case Poll(abort) =>
              && s'.pool == s.pool
              && (if s.future.ready then s'.caller == Returned(s.runs[0]) && s'.aborts == s.aborts
                  else if abort then s'.caller == GracefulWait && s'.aborts == s.aborts + 1
                  else s' == s)
            case GraceOver =>
              s'.aborts == s.aborts && s'.caller == (if s.future.ready then Returned(CANCELLED) else ExtendedWait)
            case ExtendedOver =>
              s'.aborts == s.aborts && s'.caller == (if s.future.ready then Returned(CANCELLED) else ProcessExited)
            case CallableReturns(t, status) => s'.runs == [status] && s'.caller == s.caller
            case SetPromise(t) => s'.future == Cell(true, Set, Some(s.runs[0])) && s'.caller == s.caller
            case ClosureReturns(t) => s'.closed && Pool.InPool(s'.pool, TheTask(s)) == 0 && s'.caller == s.caller
            case Other(_) => s' == s.(pool := s'.pool)
  {
    assert Occurs(s.pool, s.id, InPool(s), 0);
    match e
    case Start(abort, w) =>
      if !abort { Pool.PoolConserves(s.pool, Pool.Schedule(TheTask(s), w), TheTask(s)); }
    case CallableReturns(t, _) => OneRunner(s, t);
    case SetPromise(t) => OneRunner(s, t);
    case ClosureReturns(t) =>
      OneRunner(s, t);
      Pool.PoolConserves(s.pool, Pool.EndTask(t), TheTask(s));
    case Poll(_) =>
    case GraceOver =>
    case ExtendedOver =>
    case Other(_) =>
  }

  /** A failed check is recorded: taking a value that is not set, or was abandoned, and setting one twice. */
  lemma ChecksAreRecorded(s: State, t: nat, status: Status)
    ensures TakeAndReturn(s, status).failed <==> s.failed || !s.future.phase.Set? || s.future.value.None?
    ensures Enabled(s, SetPromise(t)) ==> (Apply(s, SetPromise(t)).failed <==> s.future.ready)
  {
  }

  /** Neither the caller nor a thread of this call is ever stuck. */
  lemma NothingBlocks(s: State, t: nat, abort: bool, status: Status)
    requires s.pool.failure.NoFailure? && !s.failed
    ensures match s.caller
            case Starting => exists w: nat :: Enabled(s, Start(abort, w))
            case Polling => Enabled(s, Poll(abort))
            case GracefulWait => Enabled(s, GraceOver)
            case ExtendedWait => Enabled(s, ExtendedOver)
            case Returned(_) => true
            case ProcessExited => true
    ensures Mine(s, t) && !s.caller.ProcessExited? ==>
              if t in s.results then Enabled(s, SetPromise(t))
              else if t in s.past then Enabled(s, ClosureReturns(t))
              else Enabled(s, CallableReturns(t, status))
  {
    if s.caller.Starting? {
      if Pool.SomeUnsignalled(s.pool) {
        var w: nat :| w < |s.pool.threads| && Pool.Unsignalled(s.pool.threads[w]);
        assert Enabled(s, Start(abort, w));
      } else {
        assert Enabled(s, Start(abort, 0));
      }
    }
  }

  /** The closure does outlive Run() if the caller polls between the notification and its return. */
  lemma RunReturnsBeforeTheClosure(s: State, abort: bool)
    requires Inv(s) && Enabled(s, Poll(abort)) && s.future.ready && !s.closed
    ensures var s' := Apply(s, Poll(abort));
            s'.caller.Returned? && s'.past != {} && Pool.InPool(s'.pool, TheTask(s')) == 1
  {
    assert Occurs(s.pool, s.id, InPool(s), 0);
  }

  lemma ExtendRun(run: seq<State>, e: Event, next: State) returns (longer: seq<State>)
    requires IsRun(run) && Enabled(run[|run| - 1], e) && next == Apply(run[|run| - 1], e)
    ensures IsRun(longer) && longer[|longer| - 1] == next
  {
    longer := run + [next];
    assert Step(run[|run| - 1], longer[|run|]);
    assert forall i | 0 <= i < |run| :: longer[i] == run[i];
  }

  /** A pool of one thread, which runs the closure or waits. */
  function OneThread(t: Pool.Thread, log: seq<Pool.Task>, active: int): Pool.State {
    Pool.State([t], [], active, false, Pool.NoFailure, false, log, log)
  }

  lemma IdleThread(id: nat)
    ensures var pool := OneThread(Pool.Waiting(false), [], 0); Pool.Inv(pool) && OnlyWhile(pool, id, false)
  {
    var pool := OneThread(Pool.Waiting(false), [], 0);
    assert pool.threads[1..] == [];
    assert Pool.Count(pool.threads, Pool.Busy) == 0;
    forall b ensures Occurs(pool, id, false, b) {
      Pool.CountSome(pool.threads, t => Pool.Runs(t, Pool.Task(id, b)));
    }
  }

  /** The callable of a posted run is running on the only thread. */
  lemma PostedAndRunning(id: nat) returns (run: seq<State>)
    ensures IsRun(run)
    ensures var x := Pool.Task(id, 0);
            run[|run| - 1] ==
            State(OneThread(Pool.Running(x), [x], 1), id, Polling, Fresh(), true, map[], {}, false, [], 0, false)
  {
    var x, idle := Pool.Task(id, 0), OneThread(Pool.Waiting(false), [], 0);
    IdleThread(id);
    var s := State(idle, id, Starting, Fresh(), false, map[], {}, false, [], 0, false);
    run := [s];
    s := s.(pool := Pool.State([Pool.Waiting(true)], [x], 0, false, Pool.NoFailure, false, [x], []), posted := true,
            caller := Polling);
    run := ExtendRun(run, Start(false, 0), s);
    s := s.(pool := OneThread(Pool.Running(x), [x], 1));
    run := ExtendRun(run, Other(Pool.Resume(0)), s);
  }

  /** A whole run at whose end Run() has returned and the closure has not. */
  lemma ClosureOutlivesRun(id: nat, status: Status) returns (run: seq<State>)
    ensures IsRun(run)
    ensures var s := run[|run| - 1];
            && s.caller == Returned(status) && s.past == {0} && !s.closed
            && Mine(s, 0) && s.pool.threads[0].task == TheTask(s)
  {
    run := PostedAndRunning(id);
    var s := run[|run| - 1];
    s := s.(results := map[0 := status], runs := [status]);
    run := ExtendRun(run, CallableReturns(0, status), s);
    assert s.results - {0} == map[] && {} + {0} == {0};
    s := s.(results := map[], past := {0}, future := Cell(true, Set, Some(status)));
    run := ExtendRun(run, SetPromise(0), s);
    s := s.(future := Cell(true, Taken, Some(status)), caller := Returned(status));
    run := ExtendRun(run, Poll(false), s);
  }

  /** Why the destructor waits: once the pool is idle nothing of the callable is left in it, and if it was
      posted its promise has been set and its closure has returned. */
  lemma IdlePoolHoldsNothing(run: seq<State>)
    requires IsRun(run)
    ensures var s := run[|run| - 1];
            s.pool.failure.NoFailure? && Pool.IdleCondition(s.pool) ==>
              && Pool.InPool(s.pool, TheTask(s)) == 0 && s.past == {} && s.results == map[]
              && (s.posted ==> s.closed && s.future.ready && |s.runs| == 1)
  {
    var s := run[|run| - 1];
    InvReachable(run);
    if s.pool.failure.NoFailure? && Pool.IdleCondition(s.pool) {
      Pool.IdleIsEmpty(s.pool, TheTask(s));
      assert Occurs(s.pool, s.id, InPool(s), 0);
      assert forall t :: !Mine(s, t);
      assert s.past == {};
      assert s.results.Keys == {};
    }
  }
}
