/** The deadline-ordered map of pending waiters kept by a clock, and what draining it yields.
    A bucket holds the waiters of one deadline in the order in which they were added. */
module WaiterMaps {

  type Time = int      // nanoseconds
  type WaiterId = nat

  /** One pending WakeUp() call: the waiter, its deadline, and the clock reading at collection. */
  datatype Wakeup = Wakeup(deadline: Time, waiter: WaiterId, collectedAt: Time)

  type WaiterMap = map<Time, seq<WaiterId>>

  function Bucket(m: WaiterMap, d: Time): seq<WaiterId> {
    if d in m then m[d] else []
  }

  function Insert(m: WaiterMap, d: Time, w: WaiterId): WaiterMap {
    m[d := Bucket(m, d) + [w]]
  }

  predicate IsEarliest(m: WaiterMap, d: Time) { d in m && forall e | e in m :: d <= e }

  lemma {:induction false} EarliestExists(m: WaiterMap)
    requires m != map[]
    ensures exists d :: IsEarliest(m, d)
    decreases m.Keys
  {
    assert m.Items != {};
    var item :| item in m.Items;
    var k := item.0;
    assert k in m;
    var sooner := map e | e in m && e < k :: m[e];
    if sooner == map[] {
      assert forall e | e in m :: e !in sooner;
      assert IsEarliest(m, k);
    } else {
      assert k !in sooner;
      EarliestExists(sooner);
      var d :| IsEarliest(sooner, d);
      SoonerIsEarliest(m, k, d);
    }
  }

  lemma SoonerIsEarliest(m: WaiterMap, k: Time, d: Time)
    requires IsEarliest(map e | e in m && e < k :: m[e], d)
    ensures IsEarliest(m, d)
  {
    var sooner := map e | e in m && e < k :: m[e];
    assert d in sooner;
    forall e | e in m ensures d <= e {
      if e < k { assert e in sooner; }
    }
  }

  /** The first key of the ordered map. */
  function Earliest(m: WaiterMap): (d: Time)
    requires m != map[]
    ensures d in m && forall e | e in m :: d <= e
  {
    EarliestExists(m);
    var d :| IsEarliest(m, d);
    d
  }

  ghost predicate HasDue(m: WaiterMap, now: Time) {
    exists d :: d in m && d <= now
  }

  /** What is left of a map once every bucket due at `now` is taken out. */
  function Later(m: WaiterMap, now: Time): WaiterMap {
    map d | d in m && now < d :: m[d]
  }

  function Stamp(d: Time, ws: seq<WaiterId>, now: Time): seq<Wakeup> {
    seq(|ws|, i requires 0 <= i < |ws| => Wakeup(d, ws[i], now))
  }

  /** The buckets due at `now`, soonest first, each in insertion order. */
  function Drain(m: WaiterMap, now: Time): seq<Wakeup>
    decreases |m|
  {
    if m == map[] || now < Earliest(m) then []
    else Stamp(Earliest(m), m[Earliest(m)], now) + Drain(m - {Earliest(m)}, now)
  }

  /** The waiters of `ws` whose deadline is `d`, in order. */
  function WaitersAt(ws: seq<Wakeup>, d: Time): seq<WaiterId> {
    if ws == [] then []
    else (if ws[0].deadline == d then [ws[0].waiter] else []) + WaitersAt(ws[1..], d)
  }

  lemma {:induction false} WaitersAtConcat(a: seq<Wakeup>, b: seq<Wakeup>, d: Time)
    ensures WaitersAt(a + b, d) == WaitersAt(a, d) + WaitersAt(b, d)
  {
    if a == [] {
      assert a + b == b;
    } else {
      var first := if a[0].deadline == d then [a[0].waiter] else [];
      assert (a + b)[0] == a[0] && (a + b)[1..] == a[1..] + b;
      WaitersAtConcat(a[1..], b, d);
      assert WaitersAt(a, d) == first + WaitersAt(a[1..], d);
      assert WaitersAt(a + b, d) == first + (WaitersAt(a[1..], d) + WaitersAt(b, d));
    }
  }

  lemma {:induction false} WaitersAtStamp(d: Time, ws: seq<WaiterId>, now: Time, e: Time)
    ensures WaitersAt(Stamp(d, ws, now), e) == if d == e then ws else []
  {
    if ws != [] {
      assert Stamp(d, ws, now)[1..] == Stamp(d, ws[1..], now);
      WaitersAtStamp(d, ws[1..], now, e);
    }
  }

  /** Draining delivers exactly the due buckets, each in insertion order. */
  lemma {:induction false} DrainDelivers(m: WaiterMap, now: Time, d: Time)
    ensures WaitersAt(Drain(m, now), d) == if d <= now then Bucket(m, d) else []
    ensures Bucket(Later(m, now), d) == if d <= now then [] else Bucket(m, d)
    decreases |m|
  {
    if m != map[] && Earliest(m) <= now {
      var e := Earliest(m);
      WaitersAtStamp(e, m[e], now, d);
      WaitersAtConcat(Stamp(e, m[e], now), Drain(m - {e}, now), d);
      DrainDelivers(m - {e}, now, d);
    }
  }

  /** Draining is in deadline order and never early. */
  lemma {:induction false} DrainOrdered(m: WaiterMap, now: Time)
    ensures forall i | 0 <= i < |Drain(m, now)| ::
              var w := Drain(m, now)[i]; w.deadline in m && w.deadline <= now && w.collectedAt == now
    ensures forall i, j | 0 <= i < j < |Drain(m, now)| :: Drain(m, now)[i].deadline <= Drain(m, now)[j].deadline
    decreases |m|
  {
    if m != map[] && Earliest(m) <= now {
      DrainOrdered(m - {Earliest(m)}, now);
    }
  }

  /** Taking out the first bucket and then the rest is taking out all due buckets. */
  lemma LaterStep(m: WaiterMap, now: Time)
    requires m != map[] && Earliest(m) <= now
    ensures Later(m - {Earliest(m)}, now) == Later(m, now)
  {
  }
}
