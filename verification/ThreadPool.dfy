/** ThreadPoolScheduler: threads that take tasks from one queue under one mutex, parked on a
    condition variable of which Schedule() signals a single waiter.  Each critical section is one
    step; a wait ends by a signal or spuriously. */
module ThreadPool {

  /** A queued closure: who posted it, and which one of theirs it is. */
  datatype Task = Task(owner: nat, id: nat)

  datatype Thread =
    | Unstarted                  // created, has not reached the mutex yet
    | Waiting(signalled: bool)   // parked on the condition variable
    | Running(task: Task)
    | Returning                  // the task is over, about to take the mutex
    | Exited

  /** The FCP_CHECK that aborted the process, if any. */
  datatype Failure = NoFailure | NotIdleAtDestruction | TaskAfterJoin

  /** `late` records that Schedule() was called after destruction began. */
  datatype State = State(
    threads: seq<Thread>, todo: seq<Task>, active: int, joining: bool, failure: Failure,
    late: bool, scheduled: seq<Task>, dequeued: seq<Task>)

  datatype Event =
    | Schedule(task: Task, wake: nat)   // `wake` is the waiter the condition variable picks
    | Arrive(thread: nat)               // start, or come back from a task
    | Resume(thread: nat)               // return from the wait
    | EndTask(thread: nat)
    | Destroy

  predicate Busy(t: Thread) { t.Unstarted? || t.Running? || t.Returning? }

  predicate Unsignalled(t: Thread) { t == Waiting(false) }

  predicate Signalled(t: Thread) { t == Waiting(true) }

  function Count(threads: seq<Thread>, p: Thread -> bool): nat {
    if threads == [] then 0 else (if p(threads[0]) then 1 else 0) + Count(threads[1..], p)
  }

  ghost predicate Init(s: State) {
    && s.threads != [] && (forall i | 0 <= i < |s.threads| :: s.threads[i].Unstarted?)
    && s.todo == [] && s.active == |s.threads| && !s.joining && s.failure.NoFailure? && !s.late
    && s.scheduled == [] && s.dequeued == []
  }

  predicate IdleCondition(s: State) { s.todo == [] && s.active == 0 }

  ghost predicate SomeUnsignalled(s: State) {
    exists i :: 0 <= i < |s.threads| && Unsignalled(s.threads[i])
  }

  ghost predicate Enabled(s: State, e: Event) {
    && s.failure.NoFailure?
    && match e
       case Schedule(_, w) => SomeUnsignalled(s) ==> w < |s.threads| && Unsignalled(s.threads[w])
       case Arrive(t) => t < |s.threads| && (s.threads[t].Unstarted? || s.threads[t].Returning?)
       case Resume(t) => t < |s.threads| && s.threads[t].Waiting?
       case EndTask(t) => t < |s.threads| && s.threads[t].Running?
       case Destroy => !s.joining
  }

  /** How one pass through the thread's critical section ends. */
  datatype Outcome = Leave | Park | Fail | Run(task: Task)

  function Decide(todo: seq<Task>, joining: bool): Outcome {
    if todo == [] then if joining then Leave else Park
    else if joining then Fail
    else Run(todo[0])
  }

  /** The body of the thread's critical section from the test of the queue on. */
  function Take(s: State, t: nat): State
    requires t < |s.threads|
  {
    match Decide(s.todo, s.joining)
    case Leave => s.(threads := s.threads[t := Exited])
    case Park => s.(threads := s.threads[t := Waiting(false)])
    case Fail => s.(failure := TaskAfterJoin)
    case Run(task) =>
      s.(threads := s.threads[t := Running(task)], todo := s.todo[1..], active := s.active + 1,
         dequeued := s.dequeued + [task])
  }

  function SignalAll(threads: seq<Thread>): seq<Thread> {
    seq(|threads|, i requires 0 <= i < |threads| =>
      if threads[i].Waiting? then Waiting(true) else threads[i])
  }

  function Push(s: State, task: Task, wake: nat): State {
    s.(todo := s.todo + [task], scheduled := s.scheduled + [task], late := s.late || s.joining,
       threads := if wake < |s.threads| && Unsignalled(s.threads[wake])
                  then s.threads[wake := Waiting(true)] else s.threads)
  }

  function Apply(s: State, e: Event): State
    requires Enabled(s, e)
  {
    match e
    case Schedule(task, w) => Push(s, task, w)
    case Arrive(t) => Take(s.(active := s.active - 1), t)
    case Resume(t) => Take(s, t)
    case EndTask(t) => s.(threads := s.threads[t := Returning])
    case Destroy =>
      if IdleCondition(s) then s.(joining := true, threads := SignalAll(s.threads))
      else s.(failure := NotIdleAtDestruction)
  }

  ghost predicate Step(s: State, s': State) {
    exists e :: Enabled(s, e) && s' == Apply(s, e)
  }

  ghost predicate IsRun(run: seq<State>) {
    && run != [] && Init(run[0])
    && forall i | 0 <= i < |run| - 1 :: Step(run[i], run[i + 1])
  }

  // ---------------------------------------------------------------- counting threads

  lemma {:induction false} CountUpdate(threads: seq<Thread>, i: nat, t: Thread, p: Thread -> bool)
    requires i < |threads|
    ensures Count(threads[i := t], p)
            == Count(threads, p) - (if p(threads[i]) then 1 else 0) + (if p(t) then 1 else 0)
  {
    if i == 0 {
      assert threads[i := t][1..] == threads[1..];
    } else {
      assert threads[i := t][1..] == threads[1..][i - 1 := t];
      CountUpdate(threads[1..], i - 1, t, p);
    }
  }

  lemma {:induction false} CountSome(threads: seq<Thread>, p: Thread -> bool)
    ensures Count(threads, p) > 0 <==> exists i :: 0 <= i < |threads| && p(threads[i])
  {
    if threads != [] {
      CountSome(threads[1..], p);
      if Count(threads[1..], p) > 0 {
        var i :| 0 <= i < |threads[1..]| && p(threads[1..][i]);
        assert p(threads[i + 1]);
      } else if exists i :: 0 <= i < |threads| && p(threads[i]) {
        var i :| 0 <= i < |threads| && p(threads[i]);
        assert i > 0 ==> p(threads[1..][i - 1]);
      }
    }
  }

  lemma {:induction false} CountAll(threads: seq<Thread>, p: Thread -> bool)
    requires forall i | 0 <= i < |threads| :: p(threads[i])
    ensures Count(threads, p) == |threads|
  {
    if threads != [] { CountAll(threads[1..], p); }
  }

  lemma {:induction false} CountSignalAll(threads: seq<Thread>)
    ensures Count(SignalAll(threads), Busy) == Count(threads, Busy)
  {
    if threads != [] {
      assert SignalAll(threads)[1..] == SignalAll(threads[1..]);
      CountSignalAll(threads[1..]);
    }
  }

  // ---------------------------------------------------------------- the inductive invariant

  /** The counter is the number of threads that have not reached the mutex or hold a task. */
  ghost predicate ActiveExact(s: State) {
    s.active == Count(s.threads, Busy)
  }

  /** If anybody sleeps unsignalled, enough woken threads are on their way for the whole queue. */
  ghost predicate NotStranded(s: State) {
    SomeUnsignalled(s) ==> |s.todo| <= Count(s.threads, Signalled)
  }

  ghost predicate Fifo(s: State) {
    s.scheduled == s.dequeued + s.todo
  }

  ghost predicate Joining(s: State) {
    && (forall i | 0 <= i < |s.threads| :: s.threads[i].Exited? ==> s.joining)
    && (s.late ==> s.joining)
    && (s.joining ==> s.active == 0 && !SomeUnsignalled(s) && (!s.late ==> s.todo == []))
    && (s.failure.TaskAfterJoin? ==> s.late)
    && s.threads != []
  }

  ghost predicate Inv(s: State) {
    (s.failure.NoFailure? ==> ActiveExact(s)) && NotStranded(s) && Fifo(s) && Joining(s)
  }

  lemma ActiveStep(s: State, e: Event)
    requires Enabled(s, e) && ActiveExact(s)
    ensures Apply(s, e).failure.NoFailure? ==> ActiveExact(Apply(s, e))
  {
    var s' := Apply(s, e);
    match e
    case Schedule(_, w) =>
      if w < |s.threads| { CountUpdate(s.threads, w, s'.threads[w], Busy); }
    case Arrive(t) => CountUpdate(s.threads, t, s'.threads[t], Busy);
    case Resume(t) => CountUpdate(s.threads, t, s'.threads[t], Busy);
    case EndTask(t) => CountUpdate(s.threads, t, s'.threads[t], Busy);
    case Destroy => CountSignalAll(s.threads);
  }

  lemma StrandedStep(s: State, e: Event)
    requires Enabled(s, e) && NotStranded(s)
    ensures NotStranded(Apply(s, e))
  {
    var s' := Apply(s, e);
    match e
    case Schedule(_, w) =>
      if SomeUnsignalled(s) { CountUpdate(s.threads, w, s'.threads[w], Signalled); }
    case Arrive(t) => UnsignalledBefore(s, e, t); CountUpdate(s.threads, t, s'.threads[t], Signalled);
    case Resume(t) => UnsignalledBefore(s, e, t); CountUpdate(s.threads, t, s'.threads[t], Signalled);
    case EndTask(t) => UnsignalledBefore(s, e, t); CountUpdate(s.threads, t, s'.threads[t], Signalled);
    case Destroy =>
  }

  lemma UnsignalledBefore(s: State, e: Event, t: nat)
    requires Enabled(s, e) && t < |s.threads|
    requires e == Arrive(t) || e == Resume(t) || e == EndTask(t)
    ensures SomeUnsignalled(Apply(s, e)) && s.todo != [] ==> SomeUnsignalled(s)
  {
  }

  lemma JoiningStep(s: State, e: Event)
    requires Enabled(s, e) && Joining(s) && ActiveExact(s)
    ensures Joining(Apply(s, e))
  {
    CountSome(s.threads, Busy);
  }

  lemma FifoStep(s: State, e: Event)
    requires Enabled(s, e) && Fifo(s)
    ensures Fifo(Apply(s, e))
  {
  }

  lemma InvStep(s: State, e: Event)
    requires Enabled(s, e) && Inv(s)
    ensures Inv(Apply(s, e))
  {
    ActiveStep(s, e);
    StrandedStep(s, e);
    FifoStep(s, e);
    JoiningStep(s, e);
  }

  lemma InvInit(s: State)
    requires Init(s)
    ensures Inv(s)
  {
    CountAll(s.threads, Busy);
  }

  lemma {:induction false} InvReachable(run: seq<State>)
    requires IsRun(run)
    ensures Inv(run[|run| - 1])
    decreases |run|
  {
    if |run| == 1 {
      InvInit(run[0]);
    } else {
      InvReachable(run[..|run| - 1]);
      var s, s' := run[|run| - 2], run[|run| - 1];
      assert Step(s, s');
      var e :| Enabled(s, e) && s' == Apply(s, e);
      InvStep(s, e);
    }
  }

  // ---------------------------------------------------------------- safety over whole runs

  /** No stranded task: whatever the signals and spurious wake-ups, a non-empty queue of a live pool
      has a thread that is running or already woken, and as many woken threads as tasks if anybody
      sleeps on. */
  lemma NoStrandedTask(run: seq<State>)
    requires IsRun(run)
    ensures var s := run[|run| - 1];
            && (SomeUnsignalled(s) ==> |s.todo| <= Count(s.threads, Signalled))
            && (s.todo != [] && !s.joining ==>
                  exists i :: 0 <= i < |s.threads| && (Busy(s.threads[i]) || Signalled(s.threads[i])))
  {
    var s := run[|run| - 1];
    InvReachable(run);
    if s.todo != [] && !s.joining {
      if SomeUnsignalled(s) {
        CountSome(s.threads, Signalled);
      } else {
        assert !Unsignalled(s.threads[0]) && !s.threads[0].Exited?;
        assert Busy(s.threads[0]) || Signalled(s.threads[0]);
      }
    }
  }

  /** The idle test is exact, its counter never underflows, and idleness lasts until somebody
      schedules again. */
  lemma IdleExactAndStable(run: seq<State>, e: Event)
    requires IsRun(run) && Enabled(run[|run| - 1], e)
    ensures var s := run[|run| - 1];
            && s.active == Count(s.threads, Busy)
            && (e.Arrive? ==> s.active >= 1)
            && (IdleCondition(s) <==>
                  s.todo == [] && forall i | 0 <= i < |s.threads| :: !Busy(s.threads[i]))
            && (IdleCondition(s) && !e.Schedule? ==> IdleCondition(Apply(s, e)))
  {
    var s := run[|run| - 1];
    InvReachable(run);
    CountSome(s.threads, Busy);
  }

  /** Tasks leave the queue once each and in the order in which they were scheduled. */
  lemma DequeuedInOrder(run: seq<State>)
    requires IsRun(run)
    ensures var s := run[|run| - 1];
            s.scheduled == s.dequeued + s.todo && s.dequeued <= s.scheduled
  {
    InvReachable(run);
  }

  /** The join-time check fails only if a task was scheduled after destruction began, and a thread
      that then looks at the queue does fail it; otherwise every thread still in the pool is woken
      and leaves it. */
  lemma JoinIsSafe(run: seq<State>, t: nat)
    requires IsRun(run)
    ensures var s := run[|run| - 1];
            && (s.failure.TaskAfterJoin? ==> s.late)
            && (s.joining && s.failure.NoFailure? && t < |s.threads| && !s.threads[t].Exited? ==>
                  && Enabled(s, Resume(t))
                  && (Apply(s, Resume(t)).failure.TaskAfterJoin? <==> s.todo != [])
                  && (!s.late ==> Apply(s, Resume(t)).threads[t].Exited?))
  {
    var s := run[|run| - 1];
    InvReachable(run);
    CountSome(s.threads, Busy);
    if s.joining && t < |s.threads| && !s.threads[t].Exited? && s.failure.NoFailure? {
      assert !Busy(s.threads[t]) && !Unsignalled(s.threads[t]);
    }
  }

  // ---------------------------------------------------------------- what a thread does

  /** A thread that gets to the mutex, on arrival or after a wait, takes the first task of a live pool, sleeps if there
      is none, and leaves a pool that is joining. */
  lemma ThreadDecides(s: State, t: nat, e: Event)
    requires Enabled(s, e) && (e == Arrive(t) || e == Resume(t))
    ensures var s' := Apply(s, e);
            && (!s.joining && s.todo != [] ==>
                  && s'.threads == s.threads[t := Running(s.todo[0])] && s'.todo == s.todo[1..]
                  && s'.dequeued == s.dequeued + [s.todo[0]])
            && (!s.joining && s.todo == [] ==> s'.threads == s.threads[t := Waiting(false)] && s'.todo == [])
            && (s.joining && s.todo == [] ==> s'.threads == s.threads[t := Exited] && s'.failure.NoFailure?)
            && (s.joining && s.todo != [] ==> s'.failure.TaskAfterJoin?)
            && s'.scheduled == s.scheduled && s'.joining == s.joining
  {
  }

  /** Every thread that has not left can go on, anybody can schedule, and the pool can be destroyed once. */
  lemma NothingBlocks(s: State, t: nat, task: Task)
    requires s.failure.NoFailure? && t < |s.threads|
    ensures match s.threads[t]
            case Unstarted => Enabled(s, Arrive(t))
            case Waiting(_) => Enabled(s, Resume(t))
            case Running(_) => Enabled(s, EndTask(t))
            case Returning => Enabled(s, Arrive(t))
            case Exited => true
    ensures exists w: nat :: Enabled(s, Schedule(task, w))
    ensures Enabled(s, Destroy) <==> !s.joining
  {
    if SomeUnsignalled(s) {
      var w: nat :| w < |s.threads| && Unsignalled(s.threads[w]);
      assert Enabled(s, Schedule(task, w));
    } else {
      assert Enabled(s, Schedule(task, 0));
    }
  }

  /** Destruction fails a pool that is not idle, and otherwise wakes every sleeping thread to join. */
  lemma DestroyWakesAll(s: State)
    requires Enabled(s, Destroy)
    ensures var s' := Apply(s, Destroy);
            && s'.todo == s.todo && s'.active == s.active && |s'.threads| == |s.threads|
            && (if s.todo == [] && s.active == 0 then
                  && s'.joining && s'.failure.NoFailure?
                  && forall i | 0 <= i < |s.threads| ::
                       s'.threads[i] == if s.threads[i].Waiting? then Waiting(true) else s.threads[i]
                else s'.failure.NotIdleAtDestruction? && !s'.joining && s'.threads == s.threads)
  {
  }

  /** Scheduling queues the task last, and wakes one sleeping thread if there is one; destruction wakes them all. */
  lemma ScheduleWakesOne(s: State, task: Task, w: nat)
    requires Enabled(s, Schedule(task, w))
    ensures var s' := Apply(s, Schedule(task, w));
            && s'.todo == s.todo + [task] && s'.scheduled == s.scheduled + [task] && s'.dequeued == s.dequeued
            && (SomeUnsignalled(s) ==> s'.threads == s.threads[w := Waiting(true)])
            && (!SomeUnsignalled(s) ==> s'.threads == s.threads)
  {
  }

  // ---------------------------------------------------------------- where the tasks are

  function Times(todo: seq<Task>, x: Task): nat {
    if todo == [] then 0 else (if todo[0] == x then 1 else 0) + Times(todo[1..], x)
  }

  predicate Runs(t: Thread, x: Task) { t == Running(x) }

  function Runners(threads: seq<Thread>, x: Task): nat {
    Count(threads, t => Runs(t, x))
  }

  /** How often the pool has accepted the task and not finished it. */
  function InPool(s: State, x: Task): nat {
    Times(s.todo, x) + Runners(s.threads, x)
  }

  lemma {:induction false} TimesAppend(todo: seq<Task>, task: Task, x: Task)
    ensures Times(todo + [task], x) == Times(todo, x) + if task == x then 1 else 0
  {
    if todo != [] {
      assert (todo + [task])[1..] == todo[1..] + [task];
      TimesAppend(todo[1..], task, x);
    }
  }

  lemma RunnersUpdate(threads: seq<Thread>, i: nat, t: Thread, x: Task)
    requires i < |threads|
    ensures Runners(threads[i := t], x)
            == Runners(threads, x) - (if Runs(threads[i], x) then 1 else 0) + (if Runs(t, x) then 1 else 0)
  {
    CountUpdate(threads, i, t, u => Runs(u, x));
  }

  lemma {:induction false} RunnersSignalAll(threads: seq<Thread>, x: Task)
    ensures Runners(SignalAll(threads), x) == Runners(threads, x)
  {
    if threads != [] {
      assert SignalAll(threads)[1..] == SignalAll(threads[1..]);
      RunnersSignalAll(threads[1..], x);
    }
  }

  /** Two threads running the same task count twice. */
  lemma TwoRunners(threads: seq<Thread>, i: nat, j: nat, x: Task)
    requires i < |threads| && j < |threads| && i != j && Runs(threads[i], x) && Runs(threads[j], x)
    ensures Runners(threads, x) >= 2
  {
    RunnersUpdate(threads, i, Returning, x);
    RunnersUpdate(threads[i := Returning], j, Returning, x);
  }

  /** An idle pool runs nothing and holds no task. */
  lemma IdleIsEmpty(s: State, x: Task)
    requires s.failure.NoFailure? && Inv(s) && IdleCondition(s)
    ensures InPool(s, x) == 0 && forall i | 0 <= i < |s.threads| :: !s.threads[i].Running?
  {
    CountSome(s.threads, Busy);
    assert forall i | 0 <= i < |s.threads| :: !Busy(s.threads[i]);
    CountSome(s.threads, t => Runs(t, x));
  }

  /** Conservation: scheduling puts one task in the pool, finishing takes that task out, and every
      other step only moves tasks from the queue to a thread. */
  lemma PoolConserves(s: State, e: Event, x: Task)
    requires Enabled(s, e)
    ensures InPool(Apply(s, e), x) ==
            match e
            case Schedule(task, _) => InPool(s, x) + if task == x then 1 else 0
            case EndTask(t) => InPool(s, x) - if s.threads[t].task == x then 1 else 0
            case _ => InPool(s, x)
  {
    var s' := Apply(s, e);
    match e
    case Schedule(task, w) =>
      TimesAppend(s.todo, task, x);
      if w < |s.threads| { RunnersUpdate(s.threads, w, s'.threads[w], x); }
    case Arrive(t) => RunnersUpdate(s.threads, t, s'.threads[t], x);
    case Resume(t) => RunnersUpdate(s.threads, t, s'.threads[t], x);
    case EndTask(t) => RunnersUpdate(s.threads, t, Returning, x);
    case Destroy => RunnersSignalAll(s.threads, x);
  }

  /** How thread `t` is left by a pass through its critical section. */
  ghost predicate Shows(s: State, t: nat, outcome: Outcome)
    requires t < |s.threads|
  {
    match outcome
    case Leave => s.threads[t].Exited? && s.failure.NoFailure?
    case Park => s.threads[t] == Waiting(false) && s.failure.NoFailure?
    case Fail => s.failure.TaskAfterJoin?
    case Run(task) => s.threads[t] == Running(task) && s.failure.NoFailure?
  }

  /** The fields guarded by the pool's mutex.  Each critical section is one event of the step system, in which
      `view` is the pool with its threads: the fields go on agreeing with it, so what holds of every run holds
      of the object. */
  class Scheduler {
    var todo: seq<Task>
    var activeCount: nat
    var threadsShouldJoin: bool
    ghost var view: State

    ghost predicate Valid()
      reads this
    {
      view.todo == todo && view.active == activeCount && view.joining == threadsShouldJoin && Inv(view)
    }

    constructor (threadCount: nat)
      requires threadCount > 0
      ensures Valid() && Init(view) && |view.threads| == threadCount
    {
      todo, activeCount, threadsShouldJoin := [], threadCount, false;
      view := State(seq(threadCount, i => Unstarted), [], threadCount, false, NoFailure, false, [], []);
      new;
      InvInit(view);
    }

    /** Schedule(), with the waiter that the condition variable picks. */
    method Enqueue(task: Task, ghost wake: nat)
      requires Valid() && Enabled(view, Schedule(task, wake))
      modifies this
      ensures Valid() && view == Apply(old(view), Schedule(task, wake))
    {
      InvStep(view, Schedule(task, wake));
      todo := todo + [task];
      view := Apply(view, Schedule(task, wake));
    }

    /** The test of the queue, on arrival or when the wait is over. */
    method TestQueue() returns (outcome: Outcome)
      modifies this`todo, this`activeCount
      ensures outcome == Decide(old(todo), threadsShouldJoin)
      ensures todo == if outcome.Run? then old(todo)[1..] else old(todo)
      ensures activeCount == old(activeCount) + if outcome.Run? then 1 else 0
    {
      if todo == [] {
        return if threadsShouldJoin then Leave else Park;
      }
      if threadsShouldJoin { return Fail; }
      outcome := Run(todo[0]);
      todo := todo[1..];
      activeCount := activeCount + 1;
    }

    /** A thread reaches the mutex for the first time or after a task.  The counter does not underflow. */
    method ThreadArrives(ghost t: nat) returns (outcome: Outcome)
      requires Valid() && Enabled(view, Arrive(t))
      modifies this
      ensures Valid() && view == Apply(old(view), Arrive(t)) && Shows(view, t, outcome)
    {
      CountSome(view.threads, Busy);
      InvStep(view, Arrive(t));
      view := Apply(view, Arrive(t));
      activeCount := activeCount - 1;
      outcome := TestQueue();
    }

    /** A wait is over, by a signal or not. */
    method ThreadResumes(ghost t: nat) returns (outcome: Outcome)
      requires Valid() && Enabled(view, Resume(t))
      modifies this
      ensures Valid() && view == Apply(old(view), Resume(t)) && Shows(view, t, outcome)
    {
      InvStep(view, Resume(t));
      view := Apply(view, Resume(t));
      outcome := TestQueue();
    }

    /** The locked part of the destructor; false if its check fails.  It passes exactly if no thread is busy and
        no task is left, and then no thread stays asleep. */
    method BeginDestruction() returns (idle: bool)
      requires Valid() && Enabled(view, Destroy)
      modifies this
      ensures Valid() && view == Apply(old(view), Destroy)
      ensures idle <==> old(todo) == [] && forall i | 0 <= i < |old(view).threads| :: !Busy(old(view).threads[i])
      ensures if idle then view.joining && !SomeUnsignalled(view) else view.failure.NotIdleAtDestruction?
    {
      CountSome(view.threads, Busy);
      InvStep(view, Destroy);
      idle := todo == [] && activeCount == 0;
      if idle { threadsShouldJoin := true; }
      view := Apply(view, Destroy);
    }
  }
}
