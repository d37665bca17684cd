/** How a retry time is picked from a server range and turned back into a delay.  Time is a real
    number of nanoseconds; the random draw is a real in [0, 1). */
module RetryWindows {

  const NANOS_PER_SECOND: int := 1_000_000_000

  datatype ProtoDuration = ProtoDuration(seconds: int, nanos: int)

  datatype RetryWindow = RetryWindow(delayMin: ProtoDuration, delayMax: ProtoDuration, token: string)

  function Max(a: real, b: real): real { if a < b then b else a }

  function Min(a: real, b: real): real { if a < b then a else b }

  function FromProto(p: ProtoDuration): real {
    (p.seconds * NANOS_PER_SECOND + p.nanos) as real
  }

  /** Conversion of a non-negative duration, truncated to whole nanoseconds. */
  function ToProto(delay: real): (p: ProtoDuration)
    requires 0.0 <= delay
    ensures 0 <= p.nanos < NANOS_PER_SECOND && 0 <= p.seconds
    ensures FromProto(p) <= delay < FromProto(p) + 1.0
  {
    var n := delay.Floor;
    ProtoDuration(n / NANOS_PER_SECOND, n % NANOS_PER_SECOND)
  }

  /** A fraction of a non-negative width. */
  function Fraction(width: real, random: real): (part: real)
    requires 0.0 <= width && 0.0 <= random < 1.0
    ensures 0.0 <= part <= width && (0.0 < width ==> part < width)
  {
    assert 0.0 < width ==> width * random < width * 1.0;
    width * random
  }

  /** A delay between the sanitised bounds: at least zero, and an empty range read as its minimum. */
  function PickRetryDelayFromRange(minDelay: real, maxDelay: real, random: real): (delay: real)
    requires 0.0 <= random < 1.0
    ensures Max(0.0, minDelay) <= delay <= Max(maxDelay, Max(0.0, minDelay))
    ensures Max(0.0, minDelay) < maxDelay ==> delay < maxDelay
  {
    var low := Max(0.0, minDelay);
    var high := Max(maxDelay, low);
    low + Fraction(high - low, random)
  }

  function PickRetryTimeFromRange(minDelay: ProtoDuration, maxDelay: ProtoDuration, random: real, now: real): (t: real)
    requires 0.0 <= random < 1.0
    ensures now + Max(0.0, FromProto(minDelay)) <= t <= now + Max(FromProto(maxDelay), Max(0.0, FromProto(minDelay)))
  {
    now + PickRetryDelayFromRange(FromProto(minDelay), FromProto(maxDelay), random)
  }

  /** A zero-width window that ends at `retryTime`, or now if that has passed. */
  function GenerateRetryWindowFromRetryTime(retryTime: real, now: real, token: string): (w: RetryWindow)
    ensures w.delayMin == w.delayMax && w.token == token
    ensures FromProto(w.delayMin) <= Max(0.0, retryTime - now) < FromProto(w.delayMin) + 1.0
  {
    var d := ToProto(Max(0.0, retryTime - now));
    RetryWindow(d, d, token)
  }

  /** The delay lies within the clamped jitter around the target, up to truncation to a nanosecond. */
  ghost predicate WithinJitter(delay: ProtoDuration, target: real, jitter: real) {
    var j := Min(1.0, Max(0.0, jitter));
    var low := Max(0.0, target * (1.0 - j));
    low - 1.0 < FromProto(delay) <= Max(target * (1.0 + j), low)
  }

  /** A zero-width window within the jitter around the target delay, without a token. */
  function GenerateRetryWindowFromTargetDelay(target: real, jitter: real, random: real): (w: RetryWindow)
    requires 0.0 <= random < 1.0
    ensures w.delayMin == w.delayMax && w.token == ""
    ensures WithinJitter(w.delayMin, target, jitter)
  {
    var j := Min(1.0, Max(0.0, jitter));
    var d := ToProto(PickRetryDelayFromRange(target * (1.0 - j), target * (1.0 + j), random));
    RetryWindow(d, d, "")
  }

  // ---------------------------------------------------------------- every value of a range can be drawn

  lemma ProductDecides(a: real, b: real, width: real)
    requires 0.0 < width && a * width < b * width
    ensures a < b
  {
  }

  /** The draw that gives a part of a width. */
  lemma DrawFor(part: real, width: real) returns (random: real)
    requires 0.0 <= part < width
    ensures 0.0 <= random < 1.0 && Fraction(width, random) == part
  {
    random := part / width;
    assert random * width == part;
    ProductDecides(random, 1.0, width);
  }

  /** The draw reaches every delay of the sanitised range, and nothing else. */
  lemma DelaysCoverRange(minDelay: real, maxDelay: real, delay: real) returns (random: real)
    requires Max(0.0, minDelay) <= delay < maxDelay
    ensures 0.0 <= random < 1.0 && PickRetryDelayFromRange(minDelay, maxDelay, random) == delay
  {
    var low := Max(0.0, minDelay);
    random := DrawFor(delay - low, maxDelay - low);
  }

  lemma TimesCoverRange(minDelay: ProtoDuration, maxDelay: ProtoDuration, now: real, t: real) returns (random: real)
    requires now + Max(0.0, FromProto(minDelay)) <= t < now + FromProto(maxDelay)
    ensures 0.0 <= random < 1.0 && PickRetryTimeFromRange(minDelay, maxDelay, random, now) == t
  {
    random := DelaysCoverRange(FromProto(minDelay), FromProto(maxDelay), t - now);
  }

  /** A delay with the same whole nanoseconds as a window's. */
  ghost predicate Shows(w: RetryWindow, delay: real) { FromProto(w.delayMin) <= delay < FromProto(w.delayMin) + 1.0 }

  lemma WindowShowsDelay(target: real, jitter: real, random: real, low: real, high: real)
    requires 0.0 <= random < 1.0
    requires var j := Min(1.0, Max(0.0, jitter)); low == target * (1.0 - j) && high == target * (1.0 + j)
    ensures Shows(GenerateRetryWindowFromTargetDelay(target, jitter, random),
                  PickRetryDelayFromRange(low, high, random))
  {
  }

  /** The windows of a target delay reach every delay within the clamped jitter. */
  lemma WindowsCoverJitter(target: real, jitter: real, low: real, high: real, delay: real) returns (random: real)
    requires var j := Min(1.0, Max(0.0, jitter)); low == target * (1.0 - j) && high == target * (1.0 + j)
    requires Max(0.0, low) <= delay < high
    ensures 0.0 <= random < 1.0 && Shows(GenerateRetryWindowFromTargetDelay(target, jitter, random), delay)
  {
    random := DelaysCoverRange(low, high, delay);
    WindowShowsDelay(target, jitter, random, low, high);
  }
}
