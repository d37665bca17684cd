/** Promise and Future: a one-shot hand-over of a value from one holder to another.
    A failed FCP_CHECK is a precondition here. */
module Futures {
  import opened Options

  datatype Phase = NotSet | Set | Taken

  /** The shared state of a pair.  `value` is None when the promise was abandoned. */
  datatype Cell<T> = Cell(ready: bool, phase: Phase, value: Option<T>)

  ghost predicate CellValid<T>(c: Cell<T>) {
    (c.ready <==> !c.phase.NotSet?) && (c.phase.NotSet? ==> c.value.None?)
  }

  function Fresh<T>(): Cell<T> { Cell(false, NotSet, None) }

  class FutureState<T> {
    var ready: bool
    var phase: Phase
    var value: Option<T>

    ghost function View(): Cell<T>
      reads this
    {
      Cell(ready, phase, value)
    }

    constructor ()
      ensures View() == Fresh() && CellValid(View())
    {
      ready, phase, value := false, NotSet, None;
    }

    method SetValue(val: Option<T>)
      requires CellValid(View()) && !ready
      modifies this
      ensures View() == Cell(true, Set, val) && CellValid(View())
    {
      phase, value, ready := Set, val, true;
    }

    /** The caller has seen the notification. */
    method TakeValue() returns (val: Option<T>)
      requires CellValid(View()) && ready && !phase.Taken?
      modifies this
      ensures val == old(value) && View() == old(View()).(phase := Taken) && CellValid(View())
    {
      phase := Taken;
      val := value;
    }
  }

  /** A move-only reference to the shared state: null once consumed. */
  class Promise<T> {
    var state: FutureState?<T>

    constructor (s: FutureState?<T>)
      ensures state == s
    {
      state := s;
    }

    method SetOnce(val: T)
      requires state != null && CellValid(state.View()) && !state.ready
      modifies this, state
      ensures state == null && old(state).View() == Cell(true, Set, Some(val))
    {
      var s := state;
      state := null;
      s.SetValue(Some(val));
    }

    /** The destructor: a promise not yet consumed is abandoned. */
    method Destroy()
      requires state != null ==> CellValid(state.View()) && !state.ready
      modifies this, if state == null then {} else {state}
      ensures state == old(state)
      ensures state != null ==> state.View() == Cell(true, Set, None)
    {
      if state != null { state.SetValue(None); }
    }

    /** Move construction into this empty promise. */
    method MoveFrom(other: Promise<T>)
      requires other != this && state == null
      modifies this, other
      ensures state == old(other.state) && other.state == null
    {
      state := other.state;
      other.state := null;
    }

    /** Move assignment is a swap with a temporary that is then dropped as a plain reference: a live
        target loses its shared state without any notification. */
    method AssignFrom(other: Promise<T>)
      requires other != this
      modifies this, other
      ensures state == old(other.state) && other.state == null
      ensures old(state) != null ==> old(state).View() == old(state.View())
    {
      var temporary := other.state;
      other.state := null;
      state, temporary := temporary, state;
    }
  }

  class Future<T> {
    var state: FutureState?<T>

    constructor (s: FutureState<T>)
      ensures state == s
    {
      state := s;
    }

    method Take() returns (val: Option<T>)
      requires state != null && CellValid(state.View()) && state.ready && !state.phase.Taken?
      modifies this, state
      ensures state == null && val == old(state.value) && old(state).phase.Taken?
    {
      var s := state;
      state := null;
      val := s.TakeValue();
    }

    method Wait() returns (available: bool)
      requires state != null
      ensures available == state.ready
    {
      available := state.ready;
    }
  }

  method MakeFuture<T>() returns (promise: Promise<T>, future: Future<T>)
    ensures fresh(promise) && fresh(future) && promise.state != null && fresh(promise.state)
    ensures future.state == promise.state && promise.state.View() == Fresh()
  {
    var s := new FutureState<T>();
    promise := new Promise(s);
    future := new Future(s);
  }

  /** The life of a pair: moved, then set or abandoned, then taken.  The taker gets what was set. */
  method HandOver<T>(given: Option<T>) returns (got: Option<T>)
    ensures got == given
  {
    var promise, future := MakeFuture<T>();
    var moved := new Promise<T>(null);
    moved.MoveFrom(promise);
    promise.Destroy();
    if given.Some? { moved.SetOnce(given.value); }
    moved.Destroy();
    got := future.Take();
  }

  /** Assigning over a live promise leaves its future without a value for good: nobody refers to the
      shared state any more but the future, which is still not notified.  Over a promise already
      consumed nothing is lost. */
  method AssignOver<T>(consumed: bool, val: T) returns (notified: bool)
    ensures notified == consumed
  {
    var promise, future := MakeFuture<T>();
    var other, otherFuture := MakeFuture<T>();
    if consumed { promise.SetOnce(val); }
    promise.AssignFrom(other);
    promise.Destroy();
    other.Destroy();
    notified := future.Wait();
  }
}
