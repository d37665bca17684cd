/** WallClockStopwatch: a count of live handles stands for the union of the times during which they
    were live.  Time is counted in ticks and does not go backwards. */
module Stopwatch {
  import opened Options

  /** A handle that was ever started, and when it was stopped. */
  datatype Handle = Handle(start: int, stop: Option<int>)

  /** The ticks from `lo` on and before `hi`. */
  function Span(lo: int, hi: int): (s: set<int>)
    ensures forall t :: t in s <==> lo <= t < hi
    ensures |s| == if lo <= hi then hi - lo else 0
    decreases hi - lo
  {
    if hi <= lo then {} else Span(lo, hi - 1) + {hi - 1}
  }

  function EndOf(h: Handle, now: int): int { if h.stop.Some? then h.stop.value else now }

  /** The ticks before `now` at which at least one handle was live. */
  function Covered(handles: seq<Handle>, now: int): set<int> {
    if handles == [] then {}
    else Covered(handles[..|handles| - 1], now)
         + Span(handles[|handles| - 1].start, EndOf(handles[|handles| - 1], now))
  }

  function LiveCount(handles: seq<Handle>): nat {
    if handles == [] then 0
    else LiveCount(handles[..|handles| - 1]) + if handles[|handles| - 1].stop.None? then 1 else 0
  }

  /** No handle was started or stopped after `clock`. */
  ghost predicate Past(handles: seq<Handle>, clock: int) {
    forall i | 0 <= i < |handles| :: handles[i].start <= EndOf(handles[i], clock) <= clock
  }

  predicate LiveAt(h: Handle, t: int, now: int) { h.start <= t < EndOf(h, now) }

  ghost predicate SomeLiveAt(handles: seq<Handle>, t: int, now: int) {
    exists i :: 0 <= i < |handles| && LiveAt(handles[i], t, now)
  }

  lemma SomeLiveAtLast(handles: seq<Handle>, t: int, now: int)
    requires handles != []
    ensures SomeLiveAt(handles, t, now)
       <==> SomeLiveAt(handles[..|handles| - 1], t, now) || LiveAt(handles[|handles| - 1], t, now)
  {
    var p := handles[..|handles| - 1];
    if SomeLiveAt(p, t, now) {
      var i :| 0 <= i < |p| && LiveAt(p[i], t, now);
      assert LiveAt(handles[i], t, now);
    }
    assert forall i | 0 <= i < |handles| - 1 :: p[i] == handles[i];
  }

  /** Covered is the set of ticks at which some handle was live. */
  lemma {:induction false} CoveredMember(handles: seq<Handle>, now: int, t: int)
    ensures t in Covered(handles, now) <==> SomeLiveAt(handles, t, now)
  {
    if handles != [] {
      CoveredMember(handles[..|handles| - 1], now, t);
      SomeLiveAtLast(handles, t, now);
    }
  }

  lemma {:induction false} LiveExists(handles: seq<Handle>)
    ensures LiveCount(handles) > 0 <==> exists i :: 0 <= i < |handles| && handles[i].stop.None?
  {
    if handles != [] {
      var p := handles[..|handles| - 1];
      LiveExists(p);
      assert forall i | 0 <= i < |p| :: p[i] == handles[i];
    }
  }

  lemma LiveLater(handles: seq<Handle>, clock: int, now: int, t: int)
    requires Past(handles, clock) && clock <= now
    ensures SomeLiveAt(handles, t, now)
       <==> SomeLiveAt(handles, t, clock) || (LiveCount(handles) > 0 && clock <= t < now)
    ensures SomeLiveAt(handles, t, clock) ==> t < clock
  {
    LiveExists(handles);
    if SomeLiveAt(handles, t, clock) {
      var i :| 0 <= i < |handles| && LiveAt(handles[i], t, clock);
      assert LiveAt(handles[i], t, now);
    }
    if LiveCount(handles) > 0 && clock <= t < now {
      var i :| 0 <= i < |handles| && handles[i].stop.None?;
      assert LiveAt(handles[i], t, now);
    }
    if SomeLiveAt(handles, t, now) && !(LiveCount(handles) > 0 && clock <= t < now) {
      var i :| 0 <= i < |handles| && LiveAt(handles[i], t, now);
      assert LiveAt(handles[i], t, clock);
    }
  }

  /** While handles are live the covered time grows with the clock, and otherwise it stands still. */
  lemma CoveredGrows(handles: seq<Handle>, clock: int, now: int)
    requires Past(handles, clock) && clock <= now
    ensures Covered(handles, now) == Covered(handles, clock) + if LiveCount(handles) > 0 then Span(clock, now) else {}
    ensures forall t | t in Covered(handles, clock) :: t < clock
  {
    forall t
      ensures t in Covered(handles, now)
              <==> t in Covered(handles, clock) || (LiveCount(handles) > 0 && t in Span(clock, now))
      ensures t in Covered(handles, clock) ==> t < clock
    {
      CoveredMember(handles, now, t);
      CoveredMember(handles, clock, t);
      LiveLater(handles, clock, now, t);
    }
  }

  lemma CoveredSizeGrows(handles: seq<Handle>, clock: int, now: int)
    requires Past(handles, clock) && clock <= now
    ensures |Covered(handles, now)| == |Covered(handles, clock)| + if LiveCount(handles) > 0 then now - clock else 0
  {
    CoveredGrows(handles, clock, now);
    assert Covered(handles, clock) !! Span(clock, now);
    if LiveCount(handles) > 0 {
      assert |Covered(handles, clock) + Span(clock, now)| == |Covered(handles, clock)| + |Span(clock, now)|;
    }
  }

  lemma StartHandle(handles: seq<Handle>, now: int)
    ensures var started := handles + [Handle(now, None)];
            Covered(started, now) == Covered(handles, now) && LiveCount(started) == LiveCount(handles) + 1
  {
    assert (handles + [Handle(now, None)])[..|handles|] == handles;
  }

  /** Stopping a handle now changes the count and not the time covered so far. */
  lemma {:induction false} StopHandle(handles: seq<Handle>, i: nat, now: int)
    requires i < |handles| && handles[i].stop.None?
    ensures LiveCount(handles) > 0
    ensures var stopped := handles[i := handles[i].(stop := Some(now))];
            Covered(stopped, now) == Covered(handles, now) && LiveCount(stopped) == LiveCount(handles) - 1
  {
    var p, stopped := handles[..|handles| - 1], handles[i := handles[i].(stop := Some(now))];
    if i == |handles| - 1 {
      assert stopped[..i] == p;
    } else {
      assert stopped[..|handles| - 1] == p[i := p[i].(stop := Some(now))];
      StopHandle(p, i, now);
    }
  }

  ghost predicate Measures(count: int, latest: Option<int>, previous: int, handles: seq<Handle>, clock: int) {
    && count == LiveCount(handles) && (latest.None? <==> count == 0)
    && (latest.Some? ==> latest.value <= clock)
    && previous + (if latest.Some? then clock - latest.value else 0) == |Covered(handles, clock)|
  }

  lemma StartNow(handles: seq<Handle>, clock: int, now: int)
    requires Past(handles, clock) && clock <= now
    ensures var started := handles + [Handle(now, None)];
            Past(started, now) && LiveCount(started) == LiveCount(handles) + 1 &&
            |Covered(started, now)| == |Covered(handles, clock)| + if LiveCount(handles) > 0 then now - clock else 0
  {
    CoveredSizeGrows(handles, clock, now);
    StartHandle(handles, now);
  }

  lemma StopNow(handles: seq<Handle>, i: nat, clock: int, now: int)
    requires i < |handles| && handles[i].stop.None? && Past(handles, clock) && clock <= now
    ensures LiveCount(handles) > 0
    ensures var stopped := handles[i := handles[i].(stop := Some(now))];
            Past(stopped, now) && LiveCount(stopped) == LiveCount(handles) - 1 &&
            |Covered(stopped, now)| == |Covered(handles, clock)| + (now - clock)
  {
    CoveredSizeGrows(handles, clock, now);
    StopHandle(handles, i, now);
  }

  class WallClockStopwatch {
    var startedCount: int
    var latestStart: Option<int>        // None is the infinite future
    var previousDurations: int
    ghost var handles: seq<Handle>
    ghost var clock: int                // the last time something happened

    ghost predicate Valid()
      reads this
    {
      Past(handles, clock) && Measures(startedCount, latestStart, previousDurations, handles, clock)
    }

    constructor (now: int)
      ensures Valid() && handles == [] && clock == now
    {
      startedCount, latestStart, previousDurations := 0, None, 0;
      handles, clock := [], now;
    }

    /** Construction of a handle, which is then the last of `handles`. */
    method StartInternal(now: int)
      requires Valid() && clock <= now
      modifies this
      ensures Valid() && clock == now && handles == old(handles) + [Handle(now, None)]
    {
      ghost var started := handles + [Handle(now, None)];
      StartNow(handles, clock, now);
      startedCount := startedCount + 1;
      if startedCount == 1 { latestStart := Some(now); }
      assert Measures(startedCount, latestStart, previousDurations, started, now);
      handles, clock := started, now;
    }

    /** Destruction of the i-th handle; handles may stop in any order. */
    method StopInternal(ghost i: nat, now: int)
      requires Valid() && clock <= now && i < |handles| && handles[i].stop.None?
      modifies this
      ensures Valid() && clock == now && handles == old(handles)[i := old(handles)[i].(stop := Some(now))]
    {
      ghost var stopped := handles[i := handles[i].(stop := Some(now))];
      StopNow(handles, i, clock, now);
      startedCount := startedCount - 1;
      if startedCount == 0 {
        previousDurations := previousDurations + (now - latestStart.value);
        latestStart := None;
      }
      assert Measures(startedCount, latestStart, previousDurations, stopped, now);
      handles, clock := stopped, now;
    }

    /** The total is the time during which at least one handle was live. */
    method GetTotalDuration(now: int) returns (total: int)
      requires Valid() && clock <= now
      ensures total == |Covered(handles, now)|
      ensures latestStart.None? <==> LiveCount(handles) == 0
    {
      CoveredSizeGrows(handles, clock, now);
      if latestStart.None? { return previousDurations; }
      total := previousDurations + (now - latestStart.value);
    }
  }
}
