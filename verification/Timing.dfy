/** Where simulated sample timestamps come from, and what is measured of the spacing of any.
    Timestamps are integer nanoseconds. */
module Timing {
  import opened Wrappers

  datatype TimingError = MovedBackward

  // ----- Gaps between samples -----

  /** Whole microseconds in a span of nanoseconds, truncated toward zero. */
  function NumMicroseconds(nanos: int): int {
    if nanos >= 0 then nanos / 1000 else -(-nanos / 1000)
  }

  lemma MicrosecondsTruncate(nanos: int)
    ensures -1000 < 1000 * NumMicroseconds(nanos) - nanos < 1000
    ensures NumMicroseconds(nanos) < 0 <==> nanos <= -1000
    ensures nanos % 1000 == 0 ==> 1000 * NumMicroseconds(nanos) == nanos
  {
  }

  /** The spans between consecutive timestamps. */
  function Spans(seen: seq<int>): (r: seq<int>)
    ensures |r| == if seen == [] then 0 else |seen| - 1
  {
    seq(if seen == [] then 0 else |seen| - 1, i requires 0 <= i < |seen| - 1 => seen[i + 1] - seen[i])
  }

  function Total(spans: seq<int>): int {
    if spans == [] then 0 else Total(spans[..|spans| - 1]) + NumMicroseconds(spans[|spans| - 1])
  }

  function Largest(spans: seq<int>): int {
    if spans == [] then 0
    else
      var before, last := Largest(spans[..|spans| - 1]), NumMicroseconds(spans[|spans| - 1]);
      if before >= last then before else last
  }

  function CountAtLeast(spans: seq<int>, threshold: int): nat {
    if spans == [] then 0
    else CountAtLeast(spans[..|spans| - 1], threshold)
         + if NumMicroseconds(spans[|spans| - 1]) >= threshold then 1 else 0
  }

  /** No timestamp is a whole microsecond or more before the one it follows. */
  ghost predicate Accepted(spans: seq<int>) {
    forall i | 0 <= i < |spans| :: spans[i] > -1000
  }

  lemma SpansAppend(seen: seq<int>, timestamp: int)
    requires seen != []
    ensures Spans(seen + [timestamp]) == Spans(seen) + [timestamp - seen[|seen| - 1]]
  {
  }

  lemma FoldsAppend(spans: seq<int>, span: int, threshold: int)
    ensures var gap := NumMicroseconds(span);
      && Total(spans + [span]) == Total(spans) + gap
      && Largest(spans + [span]) == (if Largest(spans) >= gap then Largest(spans) else gap)
      && CountAtLeast(spans + [span], threshold) == CountAtLeast(spans, threshold) + if gap >= threshold then 1 else 0
  {
    assert (spans + [span])[..|spans|] == spans;
  }

  /** What one more accepted timestamp does to every counter. */
  lemma CountersAppend(seen: seq<int>, timestamp: int, threshold: int)
    requires seen != [] && Accepted(Spans(seen)) && timestamp - seen[|seen| - 1] > -1000
    ensures var spans, next := Spans(seen), Spans(seen + [timestamp]);
      var gap := NumMicroseconds(timestamp - seen[|seen| - 1]);
      && Accepted(next) && |next| == |spans| + 1
      && Total(next) == Total(spans) + gap
      && Largest(next) == (if Largest(spans) >= gap then Largest(spans) else gap)
      && CountAtLeast(next, threshold) == CountAtLeast(spans, threshold) + if gap >= threshold then 1 else 0
  {
    SpansAppend(seen, timestamp);
    FoldsAppend(Spans(seen), timestamp - seen[|seen| - 1], threshold);
  }

  class PollTimingAccumulator {
    const requestedIntervalMs: nat
    var previousTimestamp: Option<int>
    var sampleGapCount: nat
    var totalGapMicros: int
    var maxGapMicros: int
    var missedPollOpportunityCount: nat
    ghost var seen: seq<int>

    ghost function Threshold(): int { requestedIntervalMs * 2000 }

    /** The counters are those of the whole list of accepted timestamps. */
    ghost predicate Valid()
      reads this
    {
      && requestedIntervalMs >= 1
      && Accepted(Spans(seen))
      && previousTimestamp == (if seen == [] then None else Some(seen[|seen| - 1]))
      && sampleGapCount == |Spans(seen)|
      && totalGapMicros == Total(Spans(seen))
      && maxGapMicros == Largest(Spans(seen))
      && missedPollOpportunityCount == CountAtLeast(Spans(seen), Threshold())
    }

    constructor (requestedIntervalMs: nat)
      ensures Valid() && seen == []
      ensures this.requestedIntervalMs == if requestedIntervalMs >= 1 then requestedIntervalMs else 1
    {
      this.requestedIntervalMs := if requestedIntervalMs >= 1 then requestedIntervalMs else 1;
      previousTimestamp := None;
      sampleGapCount, totalGapMicros, maxGapMicros, missedPollOpportunityCount := 0, 0, 0, 0;
      seen := [];
    }

    /** A timestamp is refused only if it is at least a whole microsecond before the previous one. */
    method Observe(timestamp: int) returns (r: Result<(), TimingError>)
      requires Valid()
      modifies this
      ensures Valid()
      ensures r.Err? <==> old(previousTimestamp).Some? && timestamp <= old(previousTimestamp).value - 1000
      ensures seen == if r.Ok? then old(seen) + [timestamp] else old(seen)
      ensures missedPollOpportunityCount == old(missedPollOpportunityCount)
        + if r.Ok? && old(previousTimestamp).Some?
             && timestamp - old(previousTimestamp).value >= requestedIntervalMs * 2_000_000 then 1 else 0
    {
      if previousTimestamp.Some? {
        var gapMicros := NumMicroseconds(timestamp - previousTimestamp.value);
        MicrosecondsTruncate(timestamp - previousTimestamp.value);
        if gapMicros < 0 {
          return Err(MovedBackward);
        }
        CountersAppend(seen, timestamp, Threshold());
        sampleGapCount := sampleGapCount + 1;
        totalGapMicros := totalGapMicros + gapMicros;
        maxGapMicros := if maxGapMicros >= gapMicros then maxGapMicros else gapMicros;
        if gapMicros >= requestedIntervalMs * 2000 {
          missedPollOpportunityCount := missedPollOpportunityCount + 1;
        }
      }
      previousTimestamp := Some(timestamp);
      seen := seen + [timestamp];
      r := Ok(());
    }
  }

  // ----- What the counters say about the timestamps -----

  /** The counters of an accumulator say of the timestamps it accepted: the total is their whole span up to
      a microsecond per gap, the mean gap is at most the largest, and the missed polls, at twice the
      interval each, fit in the span. */
  lemma CountersTellOfTimestamps(a: PollTimingAccumulator)
    requires a.Valid() && a.seen != []
    ensures var span, gaps := a.seen[|a.seen| - 1] - a.seen[0], a.sampleGapCount;
      && gaps == |a.seen| - 1
      && -1000 * gaps <= 1000 * a.totalGapMicros - span <= 1000 * gaps
      && a.totalGapMicros <= gaps * a.maxGapMicros
      && Intervals(a.missedPollOpportunityCount, 2_000_000 * a.requestedIntervalMs)
         <= span + 999 * (gaps - a.missedPollOpportunityCount)
  {
    TotalTelescopes(a.seen);
    MeanAtMostLargest(Spans(a.seen));
    MissedPollsFit(a.seen, a.requestedIntervalMs);
  }

  lemma {:induction false} TotalOfSpans(spans: seq<int>, from: int, to: int, seen: seq<int>)
    requires seen != [] && spans == Spans(seen) && from == seen[0] && to == seen[|seen| - 1]
    ensures -1000 * |spans| <= 1000 * Total(spans) - (to - from) <= 1000 * |spans|
    ensures (forall i | 0 <= i < |spans| :: spans[i] % 1000 == 0) ==> 1000 * Total(spans) == to - from
  {
    if spans != [] {
      var n := |spans| - 1;
      assert spans[..n] == Spans(seen[..n + 1]);
      TotalOfSpans(spans[..n], from, seen[n], seen[..n + 1]);
      MicrosecondsTruncate(spans[n]);
    }
  }

  /** Each gap is truncated to the microsecond, so the total is the whole span up to less than a
      microsecond per gap, and exactly the span when every gap is whole. */
  lemma TotalTelescopes(seen: seq<int>)
    requires seen != []
    ensures var spans, span := Spans(seen), seen[|seen| - 1] - seen[0];
      && -1000 * |spans| <= 1000 * Total(spans) - span <= 1000 * |spans|
      && ((forall i | 0 <= i < |spans| :: spans[i] % 1000 == 0) ==> 1000 * Total(spans) == span)
  {
    TotalOfSpans(Spans(seen), seen[0], seen[|seen| - 1], seen);
  }

  /** The mean gap is at most the largest. */
  lemma {:induction false} MeanAtMostLargest(spans: seq<int>)
    ensures Largest(spans) >= 0
    ensures Total(spans) <= |spans| * Largest(spans)
  {
    if spans != [] {
      var n := |spans| - 1;
      MeanAtMostLargest(spans[..n]);
      MultiplesGrow(n, Largest(spans[..n]), Largest(spans));
    }
  }

  function TotalNanos(spans: seq<int>): int {
    if spans == [] then 0 else TotalNanos(spans[..|spans| - 1]) + spans[|spans| - 1]
  }

  lemma {:induction false} NanosTelescope(seen: seq<int>)
    requires seen != []
    ensures TotalNanos(Spans(seen)) == seen[|seen| - 1] - seen[0]
  {
    var n := |seen| - 1;
    if n > 0 {
      assert Spans(seen)[..n - 1] == Spans(seen[..n]);
      NanosTelescope(seen[..n]);
    }
  }

  /** So many times `limit`. */
  function Intervals(n: nat, limit: nat): nat { n * limit }

  lemma IntervalsStep(n: nat, limit: nat)
    ensures Intervals(0, limit) == 0 && Intervals(n + 1, limit) == Intervals(n, limit) + limit
  {
  }

  /** Every missed poll takes its limit out of the sum of the spans. */
  lemma {:induction false} MissedPollsTakeTime(spans: seq<int>, threshold: nat)
    requires threshold > 0 && Accepted(spans)
    ensures var missed, total := CountAtLeast(spans, threshold), TotalNanos(spans);
      && missed <= |spans|
      && Intervals(missed, 1000 * threshold) <= total + 999 * (|spans| - missed)
      && ((forall i | 0 <= i < |spans| :: spans[i] >= 0) ==> Intervals(missed, 1000 * threshold) <= total)
  {
    IntervalsStep(0, 1000 * threshold);
    if spans != [] {
      var n := |spans| - 1;
      MissedPollsTakeTime(spans[..n], threshold);
      MicrosecondsTruncate(spans[n]);
      IntervalsStep(CountAtLeast(spans[..n], threshold), 1000 * threshold);
    }
  }

  /** The missed polls, at twice the interval each, fit between the first and the last timestamp. A clock
      that runs backward now and then, by less than the microsecond that is accepted, can gain at most
      that much on each gap that is not a missed poll. */
  lemma MissedPollsFit(seen: seq<int>, intervalMs: nat)
    requires seen != [] && intervalMs >= 1 && Accepted(Spans(seen))
    ensures var missed, span := CountAtLeast(Spans(seen), intervalMs * 2000), seen[|seen| - 1] - seen[0];
      && missed <= |Spans(seen)|
      && Intervals(missed, intervalMs * 2_000_000) <= span + 999 * (|Spans(seen)| - missed)
      && ((forall i | 0 <= i < |seen| - 1 :: seen[i] <= seen[i + 1]) ==>
            Intervals(missed, intervalMs * 2_000_000) <= span)
  {
    NanosTelescope(seen);
    MissedPollsTakeTime(Spans(seen), intervalMs * 2000);
  }

  lemma MultiplesGrow(n: nat, x: int, y: int)
    requires x <= y
    ensures n * x <= n * y && (n + 1) * y == n * y + y
  {
  }

  // ----- Timestamp sources -----

  /** The timestamps of a source that advances by `step` from `anchor`. */
  function FixedSteps(anchor: int, step: int, n: nat): (r: seq<int>)
    ensures |r| == n
  {
    seq(n, k => anchor + (k + 1) * step)
  }

  class FixedStepSource {
    var current: int
    const step: int
    ghost const anchor: int
    ghost var issued: seq<int>

    ghost predicate Valid()
      reads this
    {
      issued == FixedSteps(anchor, step, |issued|) && current == anchor + |issued| * step
    }

    constructor (anchor: int, pollIntervalMs: nat)
      ensures Valid() && issued == [] && this.anchor == anchor
      ensures step == 1_000_000 * if pollIntervalMs >= 1 then pollIntervalMs else 1
    {
      current := anchor;
      step := 1_000_000 * if pollIntervalMs >= 1 then pollIntervalMs else 1;
      this.anchor := anchor;
      issued := [];
    }

    method NextTimestamp() returns (t: int)
      requires Valid()
      modifies this
      ensures Valid() && issued == old(issued) + [t]
      ensures t == anchor + |issued| * step
    {
      current := current + step;
      t := current;
      issued := issued + [t];
    }
  }

  /** A live timestamp is the start anchor's calendar time plus the monotonic time since the anchor. */
  function LiveTimestamp(utc: int, monotonic: int, now: int): Result<int, TimingError> {
    if now < monotonic then Err(MovedBackward) else Ok(utc + (now - monotonic))
  }

  /** The timestamps of samples read at the given monotonic instants. */
  function LiveTimestamps(utc: int, monotonic: int, instants: seq<int>): Result<seq<int>, TimingError> {
    if instants == [] then Ok([])
    else
      var n := |instants| - 1;
      var earlier := LiveTimestamps(utc, monotonic, instants[..n]);
      if earlier.Err? then earlier
      else
        var last := LiveTimestamp(utc, monotonic, instants[n]);
        if last.Err? then Err(last.error) else Ok(earlier.value + [last.value])
  }

  /** Live sampling fails exactly when some instant lies before the anchor. Otherwise the timestamps
      are spaced as the instants are, whatever the calendar time of the anchor, so that a clock which
      never runs backward is never refused. */
  lemma {:induction false} LiveSpansAreElapsed(utc: int, monotonic: int, instants: seq<int>)
    ensures var r := LiveTimestamps(utc, monotonic, instants);
      && (r.Ok? <==> forall i | 0 <= i < |instants| :: instants[i] >= monotonic)
      && (r.Ok? ==> |r.value| == |instants| && Spans(r.value) == Spans(instants)
                    && forall i | 0 <= i < |instants| :: r.value[i] == utc + (instants[i] - monotonic))
      && (r.Ok? && (forall i | 0 <= i < |instants| - 1 :: instants[i] <= instants[i + 1]) ==> Accepted(Spans(r.value)))
  {
    if instants != [] {
      var n := |instants| - 1;
      var before := instants[..n];
      LiveSpansAreElapsed(utc, monotonic, before);
      assert forall i | 0 <= i < n :: before[i] == instants[i];
      assert instants[n] == instants[|instants| - 1];
    }
  }

  lemma FixedSpans(anchor: int, step: int, n: nat)
    ensures var spans := Spans(FixedSteps(anchor, step, n));
      forall i | 0 <= i < |spans| :: spans[i] == step
  {
    var seen := FixedSteps(anchor, step, n);
    forall i | 0 <= i < |Spans(seen)| ensures seen[i + 1] - seen[i] == step {
      MultiplesGrow(i + 1, step, step);
    }
  }

  lemma MillisecondsAreWhole(ms: nat)
    ensures NumMicroseconds(1_000_000 * ms) == 1000 * ms
  {
  }

  lemma {:induction false} UniformCounters(spans: seq<int>, span: int, gap: nat, threshold: int)
    requires NumMicroseconds(span) == gap && forall i | 0 <= i < |spans| :: spans[i] == span
    ensures Total(spans) == |spans| * gap
    ensures spans != [] ==> Largest(spans) == gap
    ensures threshold > gap ==> CountAtLeast(spans, threshold) == 0
  {
    if spans != [] {
      var n := |spans| - 1;
      UniformCounters(spans[..n], span, gap, threshold);
      MultiplesGrow(n, gap, gap);
    }
  }

  /** Fed by the fixed-step source at its own interval, the accumulator sees every gap as exactly the
      interval and no poll as missed. */
  lemma FixedSourceIsRegular(anchor: int, intervalMs: nat, n: nat)
    requires intervalMs >= 1
    ensures var spans := Spans(FixedSteps(anchor, 1_000_000 * intervalMs, n));
      && Total(spans) == |spans| * (1000 * intervalMs)
      && (spans != [] ==> Largest(spans) == 1000 * intervalMs)
      && CountAtLeast(spans, intervalMs * 2000) == 0
      && Accepted(spans)
  {
    var step := 1_000_000 * intervalMs;
    FixedSpans(anchor, step, n);
    MillisecondsAreWhole(intervalMs);
    UniformCounters(Spans(FixedSteps(anchor, step, n)), step, 1000 * intervalMs, intervalMs * 2000);
  }
}
