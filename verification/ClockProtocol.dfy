/** The dispatch protocol of Clock, SimulatedClock and RealTimeClock as a step system.
    Every critical section is one step.  Every activation of DispatchWakeups(), whether it comes
    from WakeupWithDeadline(), from SetTime()/AdvanceTime(), from the worker thread or from inside a
    WakeUp() callback, is one entry of `calls` with its own program counter, and the calls interleave
    freely.  The clock reading is chosen by the environment and may move in either direction. */
module ClockProtocol {
  import opened Options
  import opened WaiterMaps

  const MILLISECOND: Time := 1_000_000

  datatype Kind = Simulated | RealTime

  /** The program counter of one DispatchWakeups() call. */
  datatype Call =
    | Entering                    // about to run CheckReentrancy()
    | Collecting                  // passed it, about to run GetExpiredWaiters()
    | Waking(due: seq<Wakeup>)    // issuing WakeUp() calls; when none is left, about to finish
    | Arming(deadline: Time)      // inside ScheduleWakeup(), still holding the clock's mutex
    | Returned

  /** The worker thread of the real-time clock. */
  datatype Worker =
    | Awake                       // about to take the wake-up mutex and wait
    | Sleeping(until: Option<Time>, signalled: bool)
    | Dispatching(call: nat)

  datatype Alarm = Alarm(deadline: Time, waiter: WaiterId)

  /** The shared state, and two logs: every alarm inserted and every WakeUp() issued so far. */
  datatype State = State(
    kind: Kind, now: Time, pending: WaiterMap, level: nat, calls: seq<Call>,
    next: Option<Time>, worker: Worker,
    inserted: seq<Alarm>, woken: seq<Wakeup>)

  datatype Event =
    | InsertWaiter(alarm: Alarm)
    | SetTime(time: Time)
    | Tick(time: Time)
    | CheckReentrancy(call: nat)
    | GetExpired(call: nat)
    | WakeOne(call: nat)
    | Finish(call: nat)
    | Arm(call: nat)
    | WorkerSleep
    | WorkerWake
    | WorkerReturn

  predicate Active(c: Call) { c.Collecting? || c.Waking? }

  /** A call that will still look at the pending waiters. */
  predicate Responsible(c: Call) { c.Entering? || Active(c) }

  ghost predicate MutexFree(s: State) {
    forall i | 0 <= i < |s.calls| :: !s.calls[i].Arming?
  }

  /** No call is inside DispatchWakeups() or about to enter it. */
  ghost predicate Quiescent(s: State) {
    forall i | 0 <= i < |s.calls| :: s.calls[i].Returned?
  }

  function CeilToMillis(t: Time): Time {
    -((-t) / MILLISECOND) * MILLISECOND
  }

  predicate At(s: State, i: nat, c: Call) {
    i < |s.calls| && s.calls[i] == c
  }

  ghost predicate Enabled(s: State, e: Event) {
    match e
    case InsertWaiter(_) => MutexFree(s)
    case SetTime(_) => s.kind.Simulated? && MutexFree(s)
    case Tick(_) => s.kind.RealTime?
    case CheckReentrancy(i) => At(s, i, Entering) && MutexFree(s)
    case GetExpired(i) => At(s, i, Collecting) && MutexFree(s)
    case WakeOne(i) => i < |s.calls| && s.calls[i].Waking? && s.calls[i].due != []
    case Finish(i) => At(s, i, Waking([])) && MutexFree(s)
    case Arm(i) => i < |s.calls| && s.calls[i].Arming?
    case WorkerSleep => s.kind.RealTime? && s.worker.Awake?
    case WorkerWake => s.kind.RealTime? && s.worker.Sleeping?  // timeout, signal or spurious
    case WorkerReturn => s.kind.RealTime? && s.worker.Dispatching? && At(s, s.worker.call, Returned)
  }

  /** What FinishDispatchAndScheduleNextWakeup() decides: repeat, schedule or end. */
  function AfterFinish(pending: WaiterMap, level: nat, now: Time): Call {
    if pending == map[] then Returned
    else if level > 1 then Entering
    else if Earliest(pending) <= now then Entering
    else Arming(Earliest(pending))
  }

  function ScheduleWakeup(s: State, wakeup: Time): State {
    var w := CeilToMillis(wakeup);
    if s.kind.Simulated? || s.next == Some(w) then s
    else s.(next := Some(w),
            worker := if s.worker.Sleeping? then s.worker.(signalled := true) else s.worker)
  }

  function Apply(s: State, e: Event): State
    requires Enabled(s, e)
  {
    match e
    case InsertWaiter(a) =>
      s.(pending := Insert(s.pending, a.deadline, a.waiter), calls := s.calls + [Entering],
         inserted := s.inserted + [a])
    case SetTime(t) => s.(now := t, calls := s.calls + [Entering])
    case Tick(t) => s.(now := t)
    case CheckReentrancy(i) =>
      s.(level := s.level + 1,
         calls := s.calls[i := if s.level + 1 > 1 then Returned else Collecting])
    case GetExpired(i) =>
      s.(calls := s.calls[i := Waking(Drain(s.pending, s.now))], pending := Later(s.pending, s.now))
    case WakeOne(i) =>
      var due := s.calls[i].due;
      s.(woken := s.woken + [due[0]], calls := s.calls[i := Waking(due[1..])])
    case Finish(i) =>
      s.(level := 0, calls := s.calls[i := AfterFinish(s.pending, s.level, s.now)])
    case Arm(i) =>
      ScheduleWakeup(s, s.calls[i].deadline).(calls := s.calls[i := Returned])
    case WorkerSleep => s.(worker := Sleeping(s.next, false))
    case WorkerWake =>
      if s.next.Some? && s.next.value <= s.now
      then s.(next := None, calls := s.calls + [Entering], worker := Dispatching(|s.calls|))
      else s.(worker := Awake)
    case WorkerReturn => s.(worker := Awake)
  }

  ghost predicate Init(s: State) {
    && s.pending == map[] && s.level == 0 && s.calls == []
    && s.next.None? && s.worker.Awake? && s.inserted == [] && s.woken == []
  }

  ghost predicate Step(s: State, s': State) {
    exists e :: Enabled(s, e) && s' == Apply(s, e)
  }

  ghost predicate IsRun(run: seq<State>) {
    && run != [] && Init(run[0])
    && forall i | 0 <= i < |run| - 1 :: Step(run[i], run[i + 1])
  }

  // ---------------------------------------------------------------- the inductive invariant

  function InsertedAt(log: seq<Alarm>, d: Time): seq<WaiterId> {
    if log == [] then []
    else InsertedAt(log[..|log| - 1], d)
         + (if log[|log| - 1].deadline == d then [log[|log| - 1].waiter] else [])
  }

  /** The wake-ups collected by a dispatching call and not yet issued. */
  function InHand(calls: seq<Call>): seq<Wakeup> {
    if calls == [] then []
    else (if calls[0].Waking? then calls[0].due else []) + InHand(calls[1..])
  }

  /** At most one call is between CheckReentrancy() and the end of its round,
      and there is one exactly when the dispatch level is positive. */
  ghost predicate OneDispatcher(s: State) {
    Alone(s) && (s.level > 0 <==> SomeActive(s))
  }

  ghost predicate Alone(s: State) {
    forall i, j | 0 <= i < j < |s.calls| :: !(Active(s.calls[i]) && Active(s.calls[j]))
  }

  ghost predicate SomeActive(s: State) {
    exists i :: 0 <= i < |s.calls| && Active(s.calls[i])
  }

  /** For each deadline, what was inserted is what was woken, then what is in hand, then what is
      pending, in that order. */
  ghost predicate ConservedAt(s: State, d: Time) {
    && InsertedAt(s.inserted, d)
       == WaitersAt(s.woken, d) + WaitersAt(InHand(s.calls), d) + Bucket(s.pending, d)
    && (d in s.pending ==> s.pending[d] != [])
  }

  ghost predicate Conserved(s: State) {
    forall d :: ConservedAt(s, d)
  }

  ghost predicate NeverEarly(s: State) {
    && (forall w | w in s.woken :: w.deadline <= w.collectedAt)
    && (forall w | w in InHand(s.calls) :: w.deadline <= w.collectedAt)
  }

  /** A call inside ScheduleWakeup() arms for the earliest pending deadline, and is alone there. */
  ghost predicate ArmingCurrent(s: State) {
    && (forall i | 0 <= i < |s.calls| && s.calls[i].Arming? ::
          s.pending != map[] && s.calls[i].deadline == Earliest(s.pending)
          && (s.kind.Simulated? ==> s.now < s.calls[i].deadline))
    && (forall i, j | 0 <= i < j < |s.calls| :: !(s.calls[i].Arming? && s.calls[j].Arming?))
  }

  ghost predicate SomeResponsible(s: State) {
    exists i :: 0 <= i < |s.calls| && Responsible(s.calls[i])
  }

  /** A simulated clock has no due waiter that nobody is about to look at. */
  ghost predicate DueIsWatched(s: State) {
    s.kind.Simulated? && HasDue(s.pending, s.now) ==> SomeResponsible(s)
  }

  /** A real-time clock nobody is dispatching for is armed for its earliest deadline. */
  ghost predicate Armed(s: State) {
    s.kind.RealTime? && s.pending != map[] && MutexFree(s) && !SomeResponsible(s) ==>
      s.next == Some(CeilToMillis(Earliest(s.pending)))
  }

  /** The worker never waits for anything but the current wake-up time. */
  ghost predicate WorkerCurrent(s: State) {
    && (s.worker.Sleeping? && !s.worker.signalled ==> s.worker.until == s.next)
    && (s.worker.Dispatching? ==> s.worker.call < |s.calls|)
  }

  ghost predicate Inv(s: State) {
    && OneDispatcher(s) && Conserved(s) && NeverEarly(s)
    && ArmingCurrent(s) && DueIsWatched(s) && Armed(s) && WorkerCurrent(s)
  }

  // ---------------------------------------------------------------- the in-hand list

  lemma {:induction false} InHandAppend(calls: seq<Call>, c: Call)
    requires !c.Waking?
    ensures InHand(calls + [c]) == InHand(calls)
  {
    if calls != [] {
      assert (calls + [c])[1..] == calls[1..] + [c];
      InHandAppend(calls[1..], c);
    }
  }

  lemma {:induction false} InHandSame(calls: seq<Call>, i: nat, c: Call)
    requires i < |calls| && !calls[i].Waking? && !c.Waking?
    ensures InHand(calls[i := c]) == InHand(calls)
  {
    if i == 0 {
      assert calls[i := c][1..] == calls[1..];
    } else {
      assert calls[i := c][1..] == calls[1..][i - 1 := c];
      InHandSame(calls[1..], i - 1, c);
    }
  }

  lemma {:induction false} InHandNone(calls: seq<Call>)
    requires forall j | 0 <= j < |calls| :: !calls[j].Waking?
    ensures InHand(calls) == []
  {
    if calls != [] { InHandNone(calls[1..]); }
  }

  /** With at most one call waking, what is in hand is what that call holds. */
  lemma {:induction false} InHandOnly(calls: seq<Call>, i: nat)
    requires i < |calls|
    requires forall j | 0 <= j < |calls| && j != i :: !calls[j].Waking?
    ensures InHand(calls) == if calls[i].Waking? then calls[i].due else []
  {
    if i == 0 {
      InHandNone(calls[1..]);
    } else {
      InHandOnly(calls[1..], i - 1);
    }
  }

  /** The in-hand list after each event. */
  lemma InHandStep(s: State, e: Event)
    requires Enabled(s, e) && OneDispatcher(s)
    ensures var s' := Apply(s, e);
            InHand(s'.calls) ==
            match e
            case GetExpired(_) => Drain(s.pending, s.now)
            case WakeOne(i) => s.calls[i].due[1..]
            case _ => InHand(s.calls)
    ensures e.GetExpired? ==> InHand(s.calls) == []
    ensures e.WakeOne? ==> InHand(s.calls) == s.calls[e.call].due
  {
    var s' := Apply(s, e);
    match e
    case InsertWaiter(_) => InHandAppend(s.calls, Entering);
    case SetTime(_) => InHandAppend(s.calls, Entering);
    case WorkerWake => InHandAppend(s.calls, Entering);
    case CheckReentrancy(i) => InHandSame(s.calls, i, s'.calls[i]);
    case Arm(i) => InHandSame(s.calls, i, Returned);
    case GetExpired(i) => InHandOnly(s.calls, i); InHandOnly(s'.calls, i);
    case WakeOne(i) => InHandOnly(s.calls, i); InHandOnly(s'.calls, i);
    case Finish(i) => InHandOnly(s.calls, i); InHandOnly(s'.calls, i);
    case _ =>
  }

  // ---------------------------------------------------------------- every step keeps the invariant

  lemma AloneStep(s: State, e: Event)
    requires Enabled(s, e) && OneDispatcher(s)
    ensures Alone(Apply(s, e))
  {
  }

  lemma LevelStep(s: State, e: Event)
    requires Enabled(s, e) && OneDispatcher(s)
    ensures Apply(s, e).level > 0 <==> SomeActive(Apply(s, e))
  {
    var s' := Apply(s, e);
    if s.level > 0 {
      var k :| 0 <= k < |s.calls| && Active(s.calls[k]);
      match e {
        case Finish(i) => assert i == k;
        case GetExpired(i) => assert Active(s'.calls[i]);
        case WakeOne(i) => assert Active(s'.calls[i]);
        case _ => assert Active(s'.calls[k]);
      }
    } else if e.CheckReentrancy? {
      assert Active(s'.calls[e.call]);
    }
  }

  lemma InsertedAtAppend(log: seq<Alarm>, a: Alarm, d: Time)
    ensures InsertedAt(log + [a], d) == InsertedAt(log, d) + if a.deadline == d then [a.waiter] else []
  {
    assert (log + [a])[..|log|] == log;
  }

  /** Issuing the first wake-up in hand moves it, and nothing else, to the end of the log. */
  lemma HandOver(woken: seq<Wakeup>, due: seq<Wakeup>, d: Time)
    requires due != []
    ensures WaitersAt(woken + [due[0]], d) + WaitersAt(due[1..], d) == WaitersAt(woken, d) + WaitersAt(due, d)
  {
    WaitersAtConcat(woken, [due[0]], d);
    assert due == [due[0]] + due[1..];
    WaitersAtConcat([due[0]], due[1..], d);
  }

  lemma ConservedInsert(s: State, a: Alarm, d: Time)
    requires Enabled(s, InsertWaiter(a)) && OneDispatcher(s) && ConservedAt(s, d)
    ensures ConservedAt(Apply(s, InsertWaiter(a)), d)
  {
    InHandStep(s, InsertWaiter(a));
    InsertedAtAppend(s.inserted, a, d);
  }

  lemma DrainSplits(m: WaiterMap, now: Time, d: Time)
    ensures WaitersAt(Drain(m, now), d) + Bucket(Later(m, now), d) == Bucket(m, d)
  {
    DrainDelivers(m, now, d);
  }

  lemma Regroup(all: seq<WaiterId>, woken: seq<WaiterId>, bucket: seq<WaiterId>, drained: seq<WaiterId>,
                later: seq<WaiterId>)
    requires all == woken + [] + bucket && drained + later == bucket
    ensures all == woken + drained + later
  {
    assert woken + drained + later == woken + (drained + later);
  }

  lemma ExpiredFrame(s: State, i: nat)
    requires Enabled(s, GetExpired(i))
    ensures var s' := Apply(s, GetExpired(i));
            s'.inserted == s.inserted && s'.woken == s.woken && s'.pending == Later(s.pending, s.now)
  {
  }

  lemma ConservedExpired(s: State, i: nat, d: Time)
    requires Enabled(s, GetExpired(i)) && OneDispatcher(s) && ConservedAt(s, d)
    ensures ConservedAt(Apply(s, GetExpired(i)), d)
  {
    InHandStep(s, GetExpired(i));
    ExpiredFrame(s, i);
    DrainSplits(s.pending, s.now, d);
    assert WaitersAt(InHand(s.calls), d) == [];
    Regroup(InsertedAt(s.inserted, d), WaitersAt(s.woken, d), Bucket(s.pending, d),
            WaitersAt(Drain(s.pending, s.now), d), Bucket(Later(s.pending, s.now), d));
  }

  lemma ConservedWake(s: State, i: nat, d: Time)
    requires Enabled(s, WakeOne(i)) && OneDispatcher(s) && ConservedAt(s, d)
    ensures ConservedAt(Apply(s, WakeOne(i)), d)
  {
    InHandStep(s, WakeOne(i));
    HandOver(s.woken, s.calls[i].due, d);
  }

  /** Every other event leaves the waiters where they are. */
  lemma WaitersFrame(s: State, e: Event)
    requires Enabled(s, e) && !e.InsertWaiter? && !e.GetExpired? && !e.WakeOne?
    ensures var s' := Apply(s, e); s'.inserted == s.inserted && s'.woken == s.woken && s'.pending == s.pending
  {
  }

  lemma ConservedElse(s: State, e: Event, d: Time)
    requires Enabled(s, e) && OneDispatcher(s) && ConservedAt(s, d)
    requires !e.InsertWaiter? && !e.GetExpired? && !e.WakeOne?
    ensures ConservedAt(Apply(s, e), d)
  {
    WaitersFrame(s, e);
    InHandStep(s, e);
  }

  lemma ConservedAtStep(s: State, e: Event, d: Time)
    requires Enabled(s, e) && OneDispatcher(s) && ConservedAt(s, d)
    ensures ConservedAt(Apply(s, e), d)
  {
    match e
    case InsertWaiter(a) => ConservedInsert(s, a, d);
    case GetExpired(i) => ConservedExpired(s, i, d);
    case WakeOne(i) => ConservedWake(s, i, d);
    case _ => ConservedElse(s, e, d);
  }

  lemma ConservedStep(s: State, e: Event)
    requires Enabled(s, e) && OneDispatcher(s) && Conserved(s)
    ensures Conserved(Apply(s, e))
  {
    forall d ensures ConservedAt(Apply(s, e), d) {
      ConservedAtStep(s, e, d);
    }
  }

  lemma NeverEarlyStep(s: State, e: Event)
    requires Enabled(s, e) && OneDispatcher(s) && NeverEarly(s)
    ensures NeverEarly(Apply(s, e))
  {
    InHandStep(s, e);
    if e.GetExpired? { DrainOrdered(s.pending, s.now); }
  }

  lemma ArmingStep(s: State, e: Event)
    requires Enabled(s, e) && ArmingCurrent(s)
    ensures ArmingCurrent(Apply(s, e))
  {
  }

  /** Only the end of a dispatch round can leave nobody responsible. */
  lemma ResponsibleStep(s: State, e: Event)
    requires Enabled(s, e) && OneDispatcher(s) && SomeResponsible(s) && !e.Finish?
    ensures SomeResponsible(Apply(s, e))
  {
    var s' := Apply(s, e);
    var k :| 0 <= k < |s.calls| && Responsible(s.calls[k]);
    if e.CheckReentrancy? && s.level > 0 {
      var j :| 0 <= j < |s.calls| && Active(s.calls[j]);
      assert Responsible(s'.calls[j]);
    } else {
      assert Responsible(s'.calls[k]);
    }
  }

  lemma DueStep(s: State, e: Event)
    requires Enabled(s, e) && OneDispatcher(s) && ArmingCurrent(s) && DueIsWatched(s)
    ensures DueIsWatched(Apply(s, e))
  {
    var s' := Apply(s, e);
    if SomeResponsible(s) && !e.Finish? {
      ResponsibleStep(s, e);
    } else if e.Finish? || e.InsertWaiter? || e.SetTime? {
      var i := if e.Finish? then e.call else |s.calls|;
      assert Responsible(s'.calls[i]) || s'.calls[i].Arming? || s'.pending == map[];
    }
  }

  lemma ArmedStep(s: State, e: Event)
    requires Enabled(s, e) && OneDispatcher(s) && ArmingCurrent(s) && Armed(s)
    ensures Armed(Apply(s, e))
  {
    var s' := Apply(s, e);
    if SomeResponsible(s) && !e.Finish? && !e.Arm? {
      ResponsibleStep(s, e);
    } else if e.Arm? {
      assert s.kind.RealTime? ==> s'.next == Some(CeilToMillis(Earliest(s'.pending)));
    } else if |s'.calls| > |s.calls| {
      assert Responsible(s'.calls[|s.calls|]);
    } else if e.Finish? {
      assert Responsible(s'.calls[e.call]) || s'.calls[e.call].Arming? || s'.pending == map[];
    } else {
      assert !SomeResponsible(s') ==> MutexFree(s') ==> MutexFree(s);
    }
  }

  lemma WorkerStep(s: State, e: Event)
    requires Enabled(s, e) && WorkerCurrent(s)
    ensures WorkerCurrent(Apply(s, e))
  {
  }

  lemma InvStep(s: State, e: Event)
    requires Enabled(s, e) && Inv(s)
    ensures Inv(Apply(s, e))
  {
    AloneStep(s, e);
    LevelStep(s, e);
    ConservedStep(s, e);
    NeverEarlyStep(s, e);
    ArmingStep(s, e);
    DueStep(s, e);
    ArmedStep(s, e);
    WorkerStep(s, e);
  }

  lemma {:induction false} InvReachable(run: seq<State>)
    requires IsRun(run)
    ensures Inv(run[|run| - 1])
    decreases |run|
  {
    if |run| > 1 {
      var prefix := run[..|run| - 1];
      InvReachable(prefix);
      assert Step(run[|run| - 2], run[|run| - 1]);
      var e :| Enabled(run[|run| - 2], e) && run[|run| - 1] == Apply(run[|run| - 2], e);
      InvStep(run[|run| - 2], e);
    }
  }

  // ---------------------------------------------------------------- safety over whole runs

  /** No lost wake-up: a simulated clock at rest has no due waiter, and has already woken, in
      insertion order, every waiter ever inserted with a deadline not after now. */
  lemma NoLostWakeup(run: seq<State>)
    requires IsRun(run)
    ensures var s := run[|run| - 1];
            s.kind.Simulated? && Quiescent(s) ==>
              && !HasDue(s.pending, s.now)
              && forall d | d <= s.now :: WaitersAt(s.woken, d) == InsertedAt(s.inserted, d)
  {
    InvReachable(run);
    SettledState(run[|run| - 1]);
  }

  /** Exactly-once and ordered: at every moment of every run, for every deadline, the waiters
      woken are a prefix of those inserted, and the rest are first in hand and then pending. */
  lemma ExactlyOnceInOrder(run: seq<State>, d: Time)
    requires IsRun(run)
    ensures var s := run[|run| - 1];
            && WaitersAt(s.woken, d) <= InsertedAt(s.inserted, d)
            && InsertedAt(s.inserted, d)
               == WaitersAt(s.woken, d) + WaitersAt(InHand(s.calls), d) + Bucket(s.pending, d)
  {
    InvReachable(run);
    assert ConservedAt(run[|run| - 1], d);
  }

  /** No wake-up is collected before the clock reads its deadline. */
  lemma NoEarlyWakeup(run: seq<State>, w: Wakeup)
    requires IsRun(run) && w in run[|run| - 1].woken
    ensures w.deadline <= w.collectedAt
  {
    InvReachable(run);
  }

  /** Real-clock arming: at rest with waiters pending, the next wake-up is the earliest deadline
      rounded up to a millisecond.  Once that time is reached the worker is not stuck: it has not
      begun to wait, or its call has returned, or its wait is over (timed out or signalled) and
      waking up dispatches. */
  lemma RealClockNeverOversleeps(run: seq<State>)
    requires IsRun(run)
    ensures var s := run[|run| - 1];
            s.kind.RealTime? && Quiescent(s) && s.pending != map[] ==>
              var d := Earliest(s.pending);
              && s.next == Some(CeilToMillis(d)) && d <= CeilToMillis(d) < d + MILLISECOND
              && CeilToMillis(d) % MILLISECOND == 0
              && (CeilToMillis(d) <= s.now ==>
                    match s.worker
                    case Awake => true
                    case Dispatching(c) => Enabled(s, WorkerReturn)
                    case Sleeping(until, signalled) =>
                      && (signalled || (until.Some? && until.value <= s.now))
                      && Enabled(s, WorkerWake) && SomeResponsible(Apply(s, WorkerWake)))
  {
    var s := run[|run| - 1];
    InvReachable(run);
    if s.kind.RealTime? && Quiescent(s) && s.pending != map[] {
      assert MutexFree(s) && !SomeResponsible(s);
      if CeilToMillis(Earliest(s.pending)) <= s.now && s.worker.Sleeping? {
        var s' := Apply(s, WorkerWake);
        assert Responsible(s'.calls[|s.calls|]);
      }
    }
  }

  // ---------------------------------------------------------------- dispatching settles

  /** Steps that only carry on with calls already begun. */
  predicate Internal(e: Event) {
    e.CheckReentrancy? || e.GetExpired? || e.WakeOne? || e.Finish? || e.Arm?
  }

  function PendingCount(m: WaiterMap): nat
    decreases |m|
  {
    if m == map[] then 0 else |m[Earliest(m)]| + PendingCount(m - {Earliest(m)})
  }

  lemma {:induction false} DrainCounts(m: WaiterMap, now: Time)
    ensures PendingCount(m) == |Drain(m, now)| + PendingCount(Later(m, now))
    decreases |m|
  {
    if m != map[] {
      if Earliest(m) <= now {
        LaterStep(m, now);
        DrainCounts(m - {Earliest(m)}, now);
      } else {
        assert Later(m, now) == m;
      }
    }
  }

  function CallWeight(c: Call): nat {
    match c
    case Entering => 4
    case Collecting => 3
    case Waking(due) => 2 + |due|
    case Arming(_) => 1
    case Returned => 0
  }

  function Weight(calls: seq<Call>): nat {
    if calls == [] then 0 else CallWeight(calls[0]) + Weight(calls[1..])
  }

  lemma {:induction false} WeightUpdate(calls: seq<Call>, i: nat, c: Call)
    requires i < |calls|
    ensures Weight(calls[i := c]) == Weight(calls) - CallWeight(calls[i]) + CallWeight(c)
  {
    if i == 0 {
      assert calls[i := c][1..] == calls[1..];
    } else {
      assert calls[i := c][1..] == calls[1..][i - 1 := c];
      WeightUpdate(calls[1..], i - 1, c);
    }
  }

  /** Some call has collected, and yet there is a due waiter: its round will be repeated. */
  ghost predicate Stale(s: State) {
    HasDue(s.pending, s.now) && exists i :: 0 <= i < |s.calls| && s.calls[i].Waking?
  }

  /** An upper bound on the number of internal steps still possible. */
  ghost function Measure(s: State): nat {
    Weight(s.calls) + PendingCount(s.pending)
    + (if s.level > 1 then 3 else 0) + (if Stale(s) then 3 else 0)
  }

  lemma InternalDecreases(s: State, e: Event)
    requires Enabled(s, e) && OneDispatcher(s) && Internal(e)
    ensures Measure(Apply(s, e)) < Measure(s)
  {
    var s' := Apply(s, e);
    WeightUpdate(s.calls, e.call, s'.calls[e.call]);
    DrainCounts(s.pending, s.now);
    if e.Finish? {
      assert Active(s.calls[e.call]);
      assert !Stale(s');
      assert s.calls[e.call].Waking?;
    }
    if e.CheckReentrancy? {
      assert Stale(s') ==> Stale(s);
    }
  }

  /** A clock not at rest can always take an internal step. */
  lemma NoDeadlock(s: State)
    requires !Quiescent(s)
    ensures exists e :: Internal(e) && Enabled(s, e)
  {
    if !MutexFree(s) {
      var i :| 0 <= i < |s.calls| && s.calls[i].Arming?;
      assert Enabled(s, Arm(i));
    } else {
      var i :| 0 <= i < |s.calls| && !s.calls[i].Returned?;
      var e := if s.calls[i].Entering? then CheckReentrancy(i)
               else if s.calls[i].Collecting? then GetExpired(i)
               else if s.calls[i].due == [] then Finish(i)
               else WakeOne(i);
      assert Internal(e) && Enabled(s, e);
    }
  }

  ghost predicate InternalStep(s: State, s': State) {
    exists e :: Internal(e) && Enabled(s, e) && s' == Apply(s, e)
  }

  ghost predicate IsInternalRun(run: seq<State>) {
    run != [] && forall i | 0 <= i < |run| - 1 :: InternalStep(run[i], run[i + 1])
  }

  lemma SettledAt(t: State, d: Time)
    requires Inv(t) && Quiescent(t) && t.kind.Simulated? && d <= t.now
    ensures WaitersAt(t.woken, d) == InsertedAt(t.inserted, d)
  {
    InHandNone(t.calls);
    assert ConservedAt(t, d) && !HasDue(t.pending, t.now);
    assert WaitersAt(InHand(t.calls), d) == [] && Bucket(t.pending, d) == [];
  }

  lemma SettledState(t: State)
    requires Inv(t)
    ensures Quiescent(t) <==> forall e :: !(Internal(e) && Enabled(t, e))
    ensures Quiescent(t) && t.kind.Simulated? ==>
              forall d | d <= t.now :: WaitersAt(t.woken, d) == InsertedAt(t.inserted, d)
  {
    if Quiescent(t) {
      forall d | t.kind.Simulated? && d <= t.now { SettledAt(t, d); }
    } else {
      NoDeadlock(t);
    }
  }

  lemma InternalStepKeeps(s: State, t: State)
    requires InternalStep(s, t) && Inv(s)
    ensures Measure(t) < Measure(s)
    ensures Inv(t) && t.inserted == s.inserted && t.now == s.now && t.kind == s.kind
  {
    var e :| Internal(e) && Enabled(s, e) && t == Apply(s, e);
    InvStep(s, e);
    InternalDecreases(s, e);
  }

  lemma {:induction false} InternalRunKeeps(run: seq<State>)
    requires IsInternalRun(run) && Inv(run[0])
    ensures var s, t := run[0], run[|run| - 1];
            && |run| - 1 + Measure(t) <= Measure(s)
            && Inv(t) && t.inserted == s.inserted && t.now == s.now && t.kind == s.kind
    decreases |run|
  {
    if |run| > 1 {
      InternalStepKeeps(run[0], run[1]);
      InternalRunKeeps(run[1..]);
    }
  }

  /** Left alone, every dispatch ends: from a reachable state no interleaving of the calls already
      begun takes more than Measure steps, and one that cannot be extended ends at rest, with the
      same waiters inserted and the same time; a simulated clock then has woken every due waiter. */
  lemma DispatchSettles(history: seq<State>, run: seq<State>)
    requires IsRun(history) && IsInternalRun(run) && run[0] == history[|history| - 1]
    ensures |run| - 1 <= Measure(run[0])
    ensures var s, t := run[0], run[|run| - 1];
            (forall e :: !(Internal(e) && Enabled(t, e))) ==>
              && Quiescent(t)
              && (s.kind.Simulated? ==>
                    forall d | d <= s.now :: WaitersAt(t.woken, d) == InsertedAt(s.inserted, d))
  {
    InvReachable(history);
    InternalRunKeeps(run);
    SettledState(run[|run| - 1]);
  }

  // ---------------------------------------------------------------- what a call achieves

  /** Everything that is due has somebody who will look at it, whatever the kind of clock. */
  ghost predicate Watched(s: State) { HasDue(s.pending, s.now) ==> SomeResponsible(s) }

  lemma WatchedStep(s: State, e: Event)
    requires Enabled(s, e) && Internal(e) && OneDispatcher(s) && Watched(s)
    ensures Watched(Apply(s, e))
  {
    var s' := Apply(s, e);
    if e.Finish? {
      assert Responsible(s'.calls[e.call]) || s'.calls[e.call].Arming? || s'.pending == map[];
    } else if SomeResponsible(s) {
      ResponsibleStep(s, e);
    } else {
      assert s'.pending == s.pending;
    }
  }

  /** Nothing that is not due is touched. */
  lemma LaterStays(s: State, e: Event, d: Time)
    requires Enabled(s, e) && Internal(e) && s.now < d
    ensures Bucket(Apply(s, e).pending, d) == Bucket(s.pending, d)
  {
    if e.GetExpired? { DrainDelivers(s.pending, s.now, d); }
  }

  lemma {:induction false} WatchedRun(run: seq<State>, d: Time)
    requires IsInternalRun(run) && Inv(run[0]) && Watched(run[0])
    ensures Inv(run[|run| - 1]) && Watched(run[|run| - 1])
    ensures var s, t := run[0], run[|run| - 1];
            && t.inserted == s.inserted && t.now == s.now && t.kind == s.kind
            && (s.now < d ==> Bucket(t.pending, d) == Bucket(s.pending, d))
    decreases |run|
  {
    if |run| > 1 {
      InternalStepKeeps(run[0], run[1]);
      var e :| Internal(e) && Enabled(run[0], e) && run[1] == Apply(run[0], e);
      WatchedStep(run[0], e);
      if run[0].now < d { LaterStays(run[0], e, d); }
      WatchedRun(run[1..], d);
    }
  }

  /** A run of the calls already begun that goes on as long as one of them can step. */
  ghost predicate RunsToRest(run: seq<State>, s: State) {
    IsInternalRun(run) && run[0] == s && forall e :: !(Internal(e) && Enabled(run[|run| - 1], e))
  }

  /** At rest exactly the due waiters are woken, and the others are where they were. */
  lemma ServedAtRest(s: State, run: seq<State>, d: Time)
    requires Inv(s) && Watched(s) && RunsToRest(run, s)
    ensures var t := run[|run| - 1];
            && Quiescent(t) && t.now == s.now
            && (d <= s.now ==> WaitersAt(t.woken, d) == InsertedAt(s.inserted, d) && Bucket(t.pending, d) == [])
            && (s.now < d ==> Bucket(t.pending, d) == Bucket(s.pending, d))
  {
    var t := run[|run| - 1];
    WatchedRun(run, d);
    SettledState(t);
    InHandNone(t.calls);
    assert ConservedAt(t, d) && !HasDue(t.pending, t.now);
    if d <= s.now { assert WaitersAt(InHand(t.calls), d) == [] && Bucket(t.pending, d) == []; }
  }

  /** Setting the time of a simulated clock to `t` wakes, once the calls have run to their end, every waiter with a
      deadline up to `t`, and leaves those with a later one pending. */
  lemma SetTimeServes(history: seq<State>, t: Time, run: seq<State>, d: Time)
    requires IsRun(history) && Enabled(history[|history| - 1], SetTime(t))
    requires RunsToRest(run, Apply(history[|history| - 1], SetTime(t)))
    ensures var before, last := history[|history| - 1], run[|run| - 1];
            && last.now == t
            && (d <= t ==> WaitersAt(last.woken, d) == InsertedAt(before.inserted, d) && Bucket(last.pending, d) == [])
            && (t < d ==> Bucket(last.pending, d) == Bucket(before.pending, d))
  {
    var before := history[|history| - 1];
    var s := Apply(before, SetTime(t));
    InvReachable(history);
    InvStep(before, SetTime(t));
    assert Responsible(s.calls[|before.calls|]);
    ServedAtRest(s, run, d);
  }

  /** Inserting a waiter wakes it once the calls have run to their end if its deadline has been reached, and puts it
      behind the others of its deadline otherwise. */
  lemma InsertServes(history: seq<State>, a: Alarm, run: seq<State>, d: Time)
    requires IsRun(history) && Enabled(history[|history| - 1], InsertWaiter(a))
    requires RunsToRest(run, Apply(history[|history| - 1], InsertWaiter(a)))
    ensures var before, last := history[|history| - 1], run[|run| - 1];
            var own := if a.deadline == d then [a.waiter] else [];
            && last.now == before.now
            && (d <= before.now ==>
                  WaitersAt(last.woken, d) == InsertedAt(before.inserted, d) + own && Bucket(last.pending, d) == [])
            && (before.now < d ==> Bucket(last.pending, d) == Bucket(before.pending, d) + own)
  {
    var before := history[|history| - 1];
    var s := Apply(before, InsertWaiter(a));
    InvReachable(history);
    InvStep(before, InsertWaiter(a));
    assert Responsible(s.calls[|before.calls|]);
    ServedAtRest(s, run, d);
    InsertedAtAppend(before.inserted, a, d);
  }

  /** When the real clock, at rest with its worker asleep, gets to the earliest deadline rounded up, the worker wakes
      and dispatches, and once the calls have run to their end every waiter due by then is woken, the later ones are
      pending and the clock is armed for them. */
  lemma TickServes(history: seq<State>, t: Time, run: seq<State>, d: Time)
    requires IsRun(history)
    requires var s := history[|history| - 1];
             && s.kind.RealTime? && Quiescent(s) && s.worker.Sleeping? && s.pending != map[]
             && CeilToMillis(Earliest(s.pending)) <= t
    requires RunsToRest(run, AfterTick(history[|history| - 1], t))
    ensures var before, last := history[|history| - 1], run[|run| - 1];
            && last.now == t
            && (d <= t ==> WaitersAt(last.woken, d) == InsertedAt(before.inserted, d) && Bucket(last.pending, d) == [])
            && (t < d ==> Bucket(last.pending, d) == Bucket(before.pending, d))
            && (last.pending != map[] ==> last.next == Some(CeilToMillis(Earliest(last.pending))))
  {
    var before := history[|history| - 1];
    InvReachable(history);
    InvStep(before, Tick(t));
    var ticked := Apply(before, Tick(t));
    InvStep(ticked, WorkerWake);
    var s := AfterTick(before, t);
    assert MutexFree(before) && !SomeResponsible(before);
    assert Responsible(s.calls[|before.calls|]);
    ServedAtRest(s, run, d);
    WatchedRun(run, d);
    var last := run[|run| - 1];
    assert MutexFree(last) && !SomeResponsible(last);
  }

  /** The time moves, and the worker's wait is over. */
  ghost function AfterTick(s: State, t: Time): State
    requires s.kind.RealTime? && s.worker.Sleeping?
  {
    Apply(Apply(s, Tick(t)), WorkerWake)
  }

  /** What the worker does: it waits for the armed time, unsignalled; when its wait ends it dispatches if that time has
      come, which disarms the clock, and otherwise goes back to waiting; and so it does when its call has returned. */
  lemma WorkerActs(s: State, e: Event)
    requires Enabled(s, e) && (e.WorkerSleep? || e.WorkerWake? || e.WorkerReturn?)
    ensures Apply(s, e) ==
            if e.WorkerSleep? then s.(worker := Sleeping(s.next, false))
            else if e.WorkerWake? && s.next.Some? && s.next.value <= s.now
            then s.(next := None, calls := s.calls + [Entering], worker := Dispatching(|s.calls|))
            else s.(worker := Awake)
  {
  }

  /** Arming a real clock sets its next wake-up, rounded up, and signals a sleeping worker unless it was set so already;
      a simulated clock has nothing to arm. */
  lemma ArmingActs(s: State, i: nat)
    requires Enabled(s, Arm(i))
    ensures var s', w := Apply(s, Arm(i)), Some(CeilToMillis(s.calls[i].deadline));
            && s'.calls == s.calls[i := Returned] && s'.pending == s.pending && s'.level == s.level
            && s'.next == (if s.kind.RealTime? then w else s.next)
            && s'.worker == (if s.kind.RealTime? && s.next != w && s.worker.Sleeping? then s.worker.(signalled := true)
                             else s.worker)
  {
  }

  /** Callers are held up by the mutex alone, and time and the worker by nothing. */
  lemma NothingElseBlocks(s: State, a: Alarm, t: Time)
    ensures Enabled(s, InsertWaiter(a)) <==> MutexFree(s)
    ensures Enabled(s, SetTime(t)) <==> s.kind.Simulated? && MutexFree(s)
    ensures Enabled(s, Tick(t)) <==> s.kind.RealTime?
    ensures Enabled(s, WorkerSleep) <==> s.kind.RealTime? && s.worker.Awake?
    ensures Enabled(s, WorkerWake) <==> s.kind.RealTime? && s.worker.Sleeping?
    ensures Enabled(s, WorkerReturn) <==> s.kind.RealTime? && s.worker.Dispatching? && At(s, s.worker.call, Returned)
  {
  }
}
