/** The critical sections of Clock as methods on its guarded fields.  Each is proved against the
    function that the step system in ClockProtocol uses for it. */
module ClockObject {
  import opened Options
  import opened WaiterMaps
  import opened ClockProtocol

  class Clock {
    var pendingWaiters: WaiterMap
    var dispatchLevel: nat

    constructor ()
      ensures pendingWaiters == map[] && dispatchLevel == 0
    {
      pendingWaiters := map[];
      dispatchLevel := 0;
    }

    /** The locked part of WakeupWithDeadline(). */
    method AddWaiter(deadline: Time, waiter: WaiterId)
      modifies this`pendingWaiters
      ensures pendingWaiters == Insert(old(pendingWaiters), deadline, waiter)
    {
      if deadline in pendingWaiters {
        pendingWaiters := pendingWaiters[deadline := pendingWaiters[deadline] + [waiter]];
      } else {
        assert [] + [waiter] == [waiter];
        pendingWaiters := pendingWaiters[deadline := [waiter]];
      }
    }

    method CheckReentrancy() returns (reentrant: bool)
      modifies this`dispatchLevel
      ensures dispatchLevel == old(dispatchLevel) + 1 && reentrant == (old(dispatchLevel) > 0)
    {
      dispatchLevel := dispatchLevel + 1;
      reentrant := dispatchLevel > 1;
    }

    method GetExpiredWaiters(now: Time) returns (wakeupCalls: seq<Wakeup>)
      modifies this`pendingWaiters
      ensures wakeupCalls == Drain(old(pendingWaiters), now)
      ensures pendingWaiters == Later(old(pendingWaiters), now)
    {
      wakeupCalls := [];
      while pendingWaiters != map[] && Earliest(pendingWaiters) <= now
        invariant wakeupCalls + Drain(pendingWaiters, now) == Drain(old(pendingWaiters), now)
        invariant Later(pendingWaiters, now) == Later(old(pendingWaiters), now)
        decreases |pendingWaiters|
      {
        var first := Earliest(pendingWaiters);
        LaterStep(pendingWaiters, now);
        wakeupCalls := wakeupCalls + Stamp(first, pendingWaiters[first], now);
        pendingWaiters := pendingWaiters - {first};
      }
      assert Later(pendingWaiters, now) == pendingWaiters;
    }

    /** Returns whether the dispatch loop has ended, and the time to schedule a wake-up for. */
    method FinishDispatch(now: Time) returns (ended: bool, schedule: Option<Time>)
      modifies this`dispatchLevel
      ensures dispatchLevel == 0
      ensures var after := AfterFinish(pendingWaiters, old(dispatchLevel), now);
              && ended == !after.Entering?
              && schedule == if after.Arming? then Some(after.deadline) else None
      ensures ended <==> pendingWaiters == map[] || (old(dispatchLevel) <= 1 && now < Earliest(pendingWaiters))
      ensures schedule == if ended && pendingWaiters != map[] then Some(Earliest(pendingWaiters)) else None
    {
      var current := dispatchLevel;
      dispatchLevel := 0;
      if pendingWaiters != map[] {
        if current > 1 { return false, None; }
        var nextWakeup := Earliest(pendingWaiters);
        if nextWakeup <= now { return false, None; }
        return true, Some(nextWakeup);
      }
      return true, None;
    }

    /** The whole loop when nothing interferes: a clock that is not dispatching wakes exactly the
        due waiters, soonest first, and keeps the others; one that is only notes the call. */
    method DispatchWakeups(now: Time) returns (woken: seq<Wakeup>, schedule: Option<Time>)
      modifies this
      ensures old(dispatchLevel) > 0 ==>
                && woken == [] && schedule == None && pendingWaiters == old(pendingWaiters)
                && dispatchLevel == old(dispatchLevel) + 1
      ensures old(dispatchLevel) == 0 ==>
                && dispatchLevel == 0 && woken == Drain(old(pendingWaiters), now)
                && pendingWaiters == Later(old(pendingWaiters), now) && !HasDue(pendingWaiters, now)
                && schedule == if pendingWaiters == map[] then None else Some(Earliest(pendingWaiters))
    {
      woken, schedule := [], None;
      var ended := false;
      while !ended
        invariant ended ==> old(dispatchLevel) == 0
        invariant !ended ==>
                    && woken == [] && schedule == None && pendingWaiters == old(pendingWaiters)
                    && dispatchLevel == old(dispatchLevel)
        invariant ended ==>
                    && dispatchLevel == 0 && woken == Drain(old(pendingWaiters), now)
                    && pendingWaiters == Later(old(pendingWaiters), now)
                    && schedule == if pendingWaiters == map[] then None else Some(Earliest(pendingWaiters))
        decreases !ended
      {
        var reentrant := CheckReentrancy();
        if reentrant { return; }
        var calls := GetExpiredWaiters(now);
        woken := woken + calls;
        ended, schedule := FinishDispatch(now);
      }
    }
  }
}
