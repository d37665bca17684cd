/** The polling loop of InterruptibleRunner on a real future.  What happens during each wait is an argument; the
    loop is proved against the first wait that decides it. */
module RunnerLoop {
  import opened Options
  import opened Futures

  /** One turn of the loop: the status of the callable if it ends during the wait, and what should_abort says. */
  datatype Turn = Turn(finished: Option<int>, abort: bool)

  datatype Ending = Status(code: int) | Cancelled | Exited | StillWaiting

  predicate Decides(t: Turn) { t.finished.Some? || t.abort }

  /** The first turn that ends the loop, or the number of turns. */
  function FirstDeciding(turns: seq<Turn>): (k: nat)
    ensures k <= |turns| && (k < |turns| ==> Decides(turns[k])) && forall i | 0 <= i < k :: !Decides(turns[i])
  {
    if turns == [] || Decides(turns[0]) then 0 else 1 + FirstDeciding(turns[1..])
  }

  lemma {:induction false} FirstDecidingIs(turns: seq<Turn>, i: nat)
    requires i < |turns| && Decides(turns[i]) && forall j | 0 <= j < i :: !Decides(turns[j])
    ensures FirstDeciding(turns) == i
  {
    var k := FirstDeciding(turns);
    assert k <= i;
  }

  ghost predicate Paired(promise: Promise<int>, future: Future<int>)
    reads promise, future, promise.state
  {
    promise.state != null && future.state == promise.state && CellValid(promise.state.View()) && !promise.state.ready
  }

  /** The callable ends during this wait, or does not. */
  method WaitDuring(finished: Option<int>, promise: Promise<int>, future: Future<int>) returns (available: bool)
    requires Paired(promise, future)
    modifies promise, promise.state
    ensures available == finished.Some?
    ensures !available ==> Paired(promise, future) && promise.state == old(promise.state)
    ensures available ==> promise.state == null && future.state == old(promise.state) &&
                          old(promise.state).View() == Cell(true, Set, finished)
  {
    if finished.Some? { promise.SetOnce(finished.value); }
    available := future.Wait();
  }

  ghost predicate Consumed(promise: Promise<int>, future: Future<int>)
    reads promise, future
  {
    promise.state == null && future.state == null
  }

  /** Exits the process if the callable outlives both periods. */
  method Abort(promise: Promise<int>, future: Future<int>, graceful: Option<int>, extended: Option<int>)
    returns (e: Ending)
    requires Paired(promise, future)
    modifies promise, future, promise.state
    ensures e == if graceful.Some? || extended.Some? then Cancelled else Exited
    ensures e.Cancelled? ==> Consumed(promise, future) && old(promise.state).phase.Taken?
  {
    var available := WaitDuring(graceful, promise, future);
    if !available {
      available := WaitDuring(extended, promise, future);
      if !available { return Exited; }
    }
    var taken := future.Take();
    assert taken.Some?;
    e := Cancelled;
  }

  /** The first turn that decides gives the result: the status of a callable that has ended wins over a request to
      abort.  Abort is called at most once, and whenever the loop returns the value was set and taken. */
  method WaitUntilDone(promise: Promise<int>, future: Future<int>, turns: seq<Turn>, graceful: Option<int>,
                       extended: Option<int>)
    returns (e: Ending, aborts: nat)
    requires Paired(promise, future)
    modifies promise, future, promise.state
    ensures var k := FirstDeciding(turns);
            if k == |turns| then e == StillWaiting && aborts == 0 && Paired(promise, future)
            else if turns[k].finished.Some? then e == Status(turns[k].finished.value) && aborts == 0
            else aborts == 1 && e == if graceful.Some? || extended.Some? then Cancelled else Exited
    ensures e.Status? || e.Cancelled? ==> Consumed(promise, future) && old(promise.state).phase.Taken?
  {
    for i := 0 to |turns|
      invariant Paired(promise, future) && promise.state == old(promise.state)
      invariant forall j | 0 <= j < i :: !Decides(turns[j])
    {
      var available := WaitDuring(turns[i].finished, promise, future);
      if available {
        FirstDecidingIs(turns, i);
        var result := future.Take();
        return Status(result.value), 0;
      }
      if turns[i].abort {
        FirstDecidingIs(turns, i);
        e := Abort(promise, future, graceful, extended);
        return e, 1;
      }
    }
    e, aborts := StillWaiting, 0;
  }
}
