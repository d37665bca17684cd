/** WorkerImpl: a worker that runs the tasks scheduled on it one after the other, on a pool with
    any number of threads and any other users. */
module Strand {
  import opened Options
  import Pool = ThreadPool

  /** The fields guarded by the worker's mutex. */
  datatype Queue = Queue(steps: seq<nat>, running: bool)

  /** MaybeRunNext(): the queue afterwards, and the step handed to the pool, if any. */
  function MaybeRunNext(q: Queue): (Queue, Option<nat>) {
    if q.running || q.steps == [] then (q, None)
    else (Queue(q.steps[1..], true), Some(q.steps[0]))
  }

  /** The pool and the worker `id`.  `current` is the step handed to the pool and not yet reported,
      `over` the threads whose step has executed but which have not reported it, `done` maps the threads
      that have reported and are still in the closure to its step, `posted` and `executed` are logs. */
  datatype State = State(
    pool: Pool.State, id: nat, queue: Queue, current: Option<nat>, over: set<nat>, done: map<nat, nat>,
    posted: seq<nat>, executed: seq<nat>)

  datatype Event =
    | Post(step: nat, wake: nat)        // Worker::Schedule()
    | Execute(thread: nat)              // the wrapped task runs to its end
    | Report(thread: nat, wake: nat)    // running_ = false; MaybeRunNext()
    | ClosureReturns(thread: nat)       // the lock is released and the closure returns to the pool
    | Other(event: Pool.Event)          // anything else that happens in the pool

  predicate Mine(s: State, t: nat) {
    t < |s.pool.threads| && s.pool.threads[t].Running? && s.pool.threads[t].task.owner == s.id
  }

  /** A thread in a closure of this worker that has not reported yet. */
  predicate Unreported(s: State, t: nat) { Mine(s, t) && t !in s.done }

  ghost predicate CanWake(pool: Pool.State, wake: nat) {
    forall task :: Pool.Enabled(pool, Pool.Schedule(task, wake))
  }

  ghost predicate Enabled(s: State, e: Event) {
    match e
    case Post(_, w) => CanWake(s.pool, w)
    case Execute(t) => s.pool.failure.NoFailure? && Unreported(s, t) && t !in s.over
    case Report(t, w) => CanWake(s.pool, w) && Unreported(s, t) && t in s.over
    case ClosureReturns(t) => Pool.Enabled(s.pool, Pool.EndTask(t)) && Mine(s, t) && t in s.done
    case Other(p) =>
      && Pool.Enabled(s.pool, p)
      && (p.Schedule? ==> p.task.owner != s.id) && (p.EndTask? ==> !Mine(s, p.thread))
  }

  /** Runs MaybeRunNext() on the queue and hands its step to the pool. */
  function Advance(s: State, q: Queue, wake: nat): State {
    var (q', step) := MaybeRunNext(q);
    match step
    case None => s.(queue := q')
    case Some(b) => s.(queue := q', current := step, pool := Pool.Push(s.pool, Pool.Task(s.id, b), wake))
  }

  /** Thread `t` has given its step back. */
  function Reported(s: State, t: nat): State
    requires Mine(s, t)
  {
    s.(over := s.over - {t}, done := s.done[t := s.pool.threads[t].task.id], current := None)
  }

  function Apply(s: State, e: Event): State
    requires Enabled(s, e)
  {
    match e
    case Post(b, w) =>
      Advance(s.(posted := s.posted + [b]), s.queue.(steps := s.queue.steps + [b]), w)
    case Execute(t) =>
      s.(executed := s.executed + [s.pool.threads[t].task.id], over := s.over + {t})
    case Report(t, w) =>
      Advance(Reported(s, t), s.queue.(running := false), w)
    case ClosureReturns(t) => s.(pool := Pool.Apply(s.pool, Pool.EndTask(t)), done := s.done - {t})
    case Other(p) => s.(pool := Pool.Apply(s.pool, p))
  }

  ghost predicate Init(s: State) {
    && Pool.Init(s.pool) && s.queue == Queue([], false) && s.current.None? && s.over == {}
    && s.done == map[] && s.posted == [] && s.executed == []
  }

  ghost predicate Step(s: State, s': State) {
    exists e :: Enabled(s, e) && s' == Apply(s, e)
  }

  ghost predicate IsRun(run: seq<State>) {
    && run != [] && Init(run[0])
    && forall i | 0 <= i < |run| - 1 :: Step(run[i], run[i + 1])
  }

  // ---------------------------------------------------------------- the inductive invariant

  /** The threads that have reported step `b` and are still in its closure. */
  function DoneWith(done: map<nat, nat>, b: nat): set<nat> { set t | t in done && done[t] == b }

  /** The pool holds the current step once, the closures that have reported, and nothing else of this worker. */
  ghost predicate OneInPool(s: State) {
    && OnlyCurrent(s.pool, s.id, s.current, s.done)
    && (forall t | t in s.done :: t < |s.pool.threads| && s.pool.threads[t] == Pool.Running(Pool.Task(s.id, s.done[t])))
  }

  ghost predicate OnlyCurrent(pool: Pool.State, id: nat, current: Option<nat>, done: map<nat, nat>) {
    forall b :: Occurs(pool, id, current, done, b)
  }

  ghost predicate Occurs(pool: Pool.State, id: nat, current: Option<nat>, done: map<nat, nat>, b: nat) {
    Pool.InPool(pool, Pool.Task(id, b)) == |DoneWith(done, b)| + if current == Some(b) then 1 else 0
  }

  /** The step handed to the pool and not executed yet. */
  function InFlight(s: State): seq<nat> {
    if s.current.Some? && s.over == {} then [s.current.value] else []
  }

  ghost predicate Ordered(s: State) {
    && s.posted == s.executed + InFlight(s) + s.queue.steps
    && (s.queue.running <==> s.current.Some?)
    && (!s.queue.running ==> s.queue.steps == [])
    && (forall t | t in s.over :: Unreported(s, t))
  }

  ghost predicate Inv(s: State) {
    Pool.Inv(s.pool) && OneInPool(s) && Ordered(s)
  }

  /** Threads that run a task count. */
  lemma {:induction false} RunnersAtLeast(threads: seq<Pool.Thread>, ts: set<nat>, x: Pool.Task)
    requires forall t | t in ts :: t < |threads| && threads[t] == Pool.Running(x)
    ensures |ts| <= Pool.Runners(threads, x)
    decreases |ts|
  {
    if ts != {} {
      var t :| t in ts;
      Pool.RunnersUpdate(threads, t, Pool.Returning, x);
      RunnersAtLeast(threads[t := Pool.Returning], ts - {t}, x);
    }
  }

  /** Any thread of this worker that has not reported runs the current step, and there is only one such thread. */
  lemma OneRunner(s: State, t: nat)
    requires OneInPool(s) && Unreported(s, t)
    ensures s.current == Some(s.pool.threads[t].task.id)
    ensures forall u | Unreported(s, u) :: u == t
  {
    RunsCurrent(s, t);
    forall u: nat | Unreported(s, u) ensures u == t {
      RunsCurrent(s, u);
      NotTwo(s, t, u);
    }
  }

  lemma RunsCurrent(s: State, t: nat)
    requires OneInPool(s) && Unreported(s, t)
    ensures s.current == Some(s.pool.threads[t].task.id)
  {
    var x := s.pool.threads[t].task;
    assert x == Pool.Task(s.id, x.id);
    assert Occurs(s.pool, s.id, s.current, s.done, x.id);
    RunnersAtLeast(s.pool.threads, DoneWith(s.done, x.id) + {t}, x);
  }

  lemma NotTwo(s: State, t: nat, u: nat)
    requires OneInPool(s) && Unreported(s, t) && Unreported(s, u)
    requires s.pool.threads[t].task == s.pool.threads[u].task
    ensures t == u
  {
    var x := s.pool.threads[t].task;
    assert Occurs(s.pool, s.id, s.current, s.done, x.id);
    var done := DoneWith(s.done, x.id);
    assert t != u ==> |done + {t} + {u}| == |done| + 2;
    RunnersAtLeast(s.pool.threads, done + {t} + {u}, x);
  }

  /** Handing a step to the pool adds that step and nothing else. */
  lemma AdvanceKeeps(s: State, q: Queue, wake: nat)
    requires Pool.Inv(s.pool) && CanWake(s.pool, wake) && s.current.None? == !q.running
    requires OneInPool(s)
    ensures Pool.Inv(Advance(s, q, wake).pool) && OneInPool(Advance(s, q, wake))
    ensures forall t :: Unreported(Advance(s, q, wake), t) <==> Unreported(s, t)
  {
    if !q.running && q.steps != [] {
      var s' := Advance(s, q, wake);
      var e := Pool.Schedule(Pool.Task(s.id, q.steps[0]), wake);
      assert Pool.Enabled(s.pool, e);
      Pool.InvStep(s.pool, e);
      forall b ensures Occurs(s'.pool, s.id, s'.current, s'.done, b) {
        assert Occurs(s.pool, s.id, s.current, s.done, b);
        Pool.PoolConserves(s.pool, e, Pool.Task(s.id, b));
      }
    }
  }

  lemma PostKeeps(s: State, b: nat, w: nat)
    requires Inv(s) && Enabled(s, Post(b, w))
    ensures Inv(Apply(s, Post(b, w)))
  {
    if s.over != {} {
      var t :| t in s.over;
      OneRunner(s, t);
    }
    AdvanceKeeps(s.(posted := s.posted + [b]), s.queue.(steps := s.queue.steps + [b]), w);
  }

  lemma ExecuteKeeps(s: State, t: nat)
    requires Inv(s) && Enabled(s, Execute(t))
    ensures Inv(Apply(s, Execute(t)))
  {
    OneRunner(s, t);
  }

  lemma DoneWithOneMore(done: map<nat, nat>, t: nat, c: nat, b: nat)
    requires t !in done
    ensures |DoneWith(done[t := c], b)| == |DoneWith(done, b)| + if b == c then 1 else 0
  {
    assert DoneWith(done[t := c], b) == DoneWith(done, b) + if b == c then {t} else {};
  }

  /** Reporting moves the step from the current one to those done, and leaves the pool alone. */
  lemma ReportedKeeps(s: State, t: nat)
    requires OneInPool(s) && Unreported(s, t)
    ensures OneInPool(Reported(s, t))
  {
    RunsCurrent(s, t);
    var s', x := Reported(s, t), s.pool.threads[t].task;
    assert x == Pool.Task(s.id, x.id);
    forall b ensures Occurs(s'.pool, s.id, s'.current, s'.done, b) {
      assert Occurs(s.pool, s.id, s.current, s.done, b);
      DoneWithOneMore(s.done, t, x.id, b);
    }
  }

  lemma ReportKeeps(s: State, t: nat, w: nat)
    requires Inv(s) && Enabled(s, Report(t, w))
    ensures Inv(Apply(s, Report(t, w)))
  {
    OneRunner(s, t);
    ReportedKeeps(s, t);
    assert s.over == {t};
    AdvanceKeeps(Reported(s, t), s.queue.(running := false), w);
  }

  lemma ReturnKeeps(s: State, t: nat)
    requires Inv(s) && Enabled(s, ClosureReturns(t))
    ensures Inv(Apply(s, ClosureReturns(t)))
  {
    var s' := Apply(s, ClosureReturns(t));
    Pool.InvStep(s.pool, Pool.EndTask(t));
    forall b ensures Occurs(s'.pool, s.id, s'.current, s'.done, b) {
      assert Occurs(s.pool, s.id, s.current, s.done, b);
      Pool.PoolConserves(s.pool, Pool.EndTask(t), Pool.Task(s.id, b));
      assert DoneWith(s'.done, b) == DoneWith(s.done, b) - {t};
    }
  }

  lemma OtherKeeps(s: State, p: Pool.Event)
    requires Inv(s) && Enabled(s, Other(p))
    ensures Inv(Apply(s, Other(p)))
  {
    var s' := Apply(s, Other(p));
    Pool.InvStep(s.pool, p);
    forall b ensures Occurs(s'.pool, s.id, s'.current, s'.done, b) {
      assert Occurs(s.pool, s.id, s.current, s.done, b);
      Pool.PoolConserves(s.pool, p, Pool.Task(s.id, b));
    }
    forall t: nat | Mine(s, t) ensures Mine(s', t) && s'.pool.threads[t] == s.pool.threads[t] { MineKept(s, p, t); }
  }

  /** No event of others in the pool moves a thread of this worker. */
  lemma MineKept(s: State, p: Pool.Event, t: nat)
    requires Enabled(s, Other(p)) && Mine(s, t)
    ensures var s' := Apply(s, Other(p)); Mine(s', t) && s'.pool.threads[t] == s.pool.threads[t]
  {
  }

  lemma InvStep(s: State, e: Event)
    requires Inv(s) && Enabled(s, e)
    ensures Inv(Apply(s, e))
  {
    match e
    case Post(b, w) => PostKeeps(s, b, w);
    case Execute(t) => ExecuteKeeps(s, t);
    case Report(t, w) => ReportKeeps(s, t, w);
    case ClosureReturns(t) => ReturnKeeps(s, t);
    case Other(p) => OtherKeeps(s, p);
  }

  lemma {:induction false} NoTaskInitially(threads: seq<Pool.Thread>, x: Pool.Task)
    requires forall i | 0 <= i < |threads| :: threads[i].Unstarted?
    ensures Pool.Runners(threads, x) == 0
  {
    Pool.CountSome(threads, t => Pool.Runs(t, x));
  }

  lemma {:induction false} InvReachable(run: seq<State>)
    requires IsRun(run)
    ensures Inv(run[|run| - 1])
    decreases |run|
  {
    if |run| == 1 {
      Pool.InvInit(run[0].pool);
      forall b ensures Occurs(run[0].pool, run[0].id, run[0].current, run[0].done, b) {
        NoTaskInitially(run[0].pool.threads, Pool.Task(run[0].id, b));
      }
    } else {
      InvReachable(run[..|run| - 1]);
      var s, s' := run[|run| - 2], run[|run| - 1];
      assert Step(s, s');
      var e :| Enabled(s, e) && s' == Apply(s, e);
      InvStep(s, e);
    }
  }

  /** Strand refinement: at every moment of every run the steps posted are those executed, then the
      one in flight if any, then those queued; at most one thread is in a closure of the worker that it has not
      reported, so two steps never run at the same time, although closures past their report may still be
      returning; and a worker that is not running has nothing queued. */
  lemma StepsNeverOverlapOrReorder(run: seq<State>)
    requires IsRun(run)
    ensures var s := run[|run| - 1];
            && s.posted == s.executed + InFlight(s) + s.queue.steps && |InFlight(s)| <= 1
            && (forall t, u | Unreported(s, t) && Unreported(s, u) :: t == u)
            && (forall t: nat | Unreported(s, t) :: s.current == Some(s.pool.threads[t].task.id))
            && (!s.queue.running ==> s.queue.steps == [] && s.executed == s.posted)
  {
    var s := run[|run| - 1];
    InvReachable(run);
    forall t: nat, u: nat | Unreported(s, t) && Unreported(s, u) ensures t == u {
      OneRunner(s, t);
    }
    forall t: nat | Unreported(s, t) ensures s.current == Some(s.pool.threads[t].task.id) {
      OneRunner(s, t);
    }
  }

  /** A posted step is kept, behind those before it. */
  lemma PostIsKept(s: State, b: nat, w: nat)
    requires Inv(s) && Enabled(s, Post(b, w))
    ensures var s' := Apply(s, Post(b, w));
            && s'.posted == s.posted + [b] && s'.executed == s.executed
            && InFlight(s') + s'.queue.steps == InFlight(s) + s.queue.steps + [b] && s'.queue.running
  {
    if s.over != {} {
      var t :| t in s.over;
      OneRunner(s, t);
    }
  }

  /** What executes is the step in flight. */
  lemma ExecuteRunsTheNext(s: State, t: nat)
    requires Inv(s) && Enabled(s, Execute(t))
    ensures var s' := Apply(s, Execute(t));
            && |InFlight(s)| == 1 && s'.executed == s.executed + InFlight(s) && InFlight(s') == []
            && s'.queue == s.queue && s'.posted == s.posted
  {
    OneRunner(s, t);
    assert s.over == {};
  }

  /** The report of a step hands the next one to the pool, or stops the worker if there is none. */
  lemma ReportHandsOver(s: State, t: nat, w: nat)
    requires Inv(s) && Enabled(s, Report(t, w))
    ensures var s' := Apply(s, Report(t, w));
            && (s.queue.steps == [] ==> s'.current.None? && !s'.queue.running && s'.queue.steps == [])
            && (s.queue.steps != [] ==>
                  && InFlight(s') == [s.queue.steps[0]] && s'.queue == Queue(s.queue.steps[1..], true)
                  && s'.pool.todo == s.pool.todo + [Pool.Task(s.id, s.queue.steps[0])])
            && s'.executed == s.executed && s'.posted == s.posted
  {
    OneRunner(s, t);
    assert s.over == {t};
  }

  /** Anything else in the pool happens as it would without the worker, which does not notice; so does the return of a
      closure. */
  lemma PoolGoesOn(s: State, e: Event)
    requires Enabled(s, e) && (e.Other? || e.ClosureReturns?)
    ensures var s', p := Apply(s, e), if e.Other? then e.event else Pool.EndTask(e.thread);
            && Pool.Enabled(s.pool, p) && s'.pool == Pool.Apply(s.pool, p)
            && s' == s.(pool := s'.pool, done := s'.done) && (e.Other? ==> s'.done == s.done)
  {
  }

  /** When the pool is idle the worker has done everything that was posted. */
  lemma IdleWorkerIsDone(run: seq<State>)
    requires IsRun(run)
    ensures var s := run[|run| - 1];
            s.pool.failure.NoFailure? && Pool.IdleCondition(s.pool) ==> s.executed == s.posted && !s.queue.running
  {
    var s := run[|run| - 1];
    InvReachable(run);
    if s.pool.failure.NoFailure? && Pool.IdleCondition(s.pool) && s.current.Some? {
      assert Occurs(s.pool, s.id, s.current, s.done, s.current.value);
      Pool.IdleIsEmpty(s.pool, Pool.Task(s.id, s.current.value));
    }
  }

  /** A thread in a closure of the worker can go on, and anybody can post, while the pool has not failed. */
  lemma NothingBlocks(s: State, t: nat, b: nat)
    requires s.pool.failure.NoFailure?
    ensures exists w: nat :: Enabled(s, Post(b, w))
    ensures Mine(s, t) && t !in s.over && t !in s.done ==> Enabled(s, Execute(t))
    ensures Mine(s, t) && t in s.over && t !in s.done ==> exists w: nat :: Enabled(s, Report(t, w))
    ensures Mine(s, t) && t in s.done ==> Enabled(s, ClosureReturns(t))
  {
    if Pool.SomeUnsignalled(s.pool) {
      var w: nat :| w < |s.pool.threads| && Pool.Unsignalled(s.pool.threads[w]);
      assert CanWake(s.pool, w) && Enabled(s, Post(b, w));
      if Unreported(s, t) && t in s.over { assert Enabled(s, Report(t, w)); }
    } else {
      assert CanWake(s.pool, 0) && Enabled(s, Post(b, 0));
      if Unreported(s, t) && t in s.over { assert Enabled(s, Report(t, 0)); }
    }
  }

  /** The worker's own fields, with the two places where they change. */
  class Worker {
    var steps: seq<nat>
    var running: bool

    constructor ()
      ensures Fields() == Queue([], false)
    {
      steps, running := [], false;
    }

    ghost function Fields(): Queue
      reads this
    {
      Queue(steps, running)
    }

    method RunNext() returns (handed: Option<nat>)
      modifies this
      ensures (Fields(), handed) == MaybeRunNext(old(Fields()))
    {
      if running || steps == [] { return None; }
      handed := Some(steps[0]);
      steps, running := steps[1..], true;
    }

    /** Afterwards the worker is running, and what it hands over and keeps is in posting order. */
    method Schedule(step: nat) returns (handed: Option<nat>)
      modifies this
      ensures (Fields(), handed) == MaybeRunNext(Queue(old(steps) + [step], old(running)))
      ensures running
      ensures (if handed.Some? then [handed.value] else []) + steps == old(steps) + [step]
    {
      steps := steps + [step];
      handed := RunNext();
    }

    /** The end of the closure given to the pool. */
    method StepFinished() returns (handed: Option<nat>)
      modifies this
      ensures (Fields(), handed) == MaybeRunNext(Queue(old(steps), false))
      ensures running == handed.Some? && (!running ==> steps == [])
      ensures (if handed.Some? then [handed.value] else []) + steps == old(steps)
    {
      running := false;
      handed := RunNext();
    }
  }
}
