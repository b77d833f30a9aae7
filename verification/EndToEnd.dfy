/** From any sequence of samples that completes a test to the values written to the controller. */
module EndToEnd {
  import opened Wrappers
  import opened LoopConfigs
  import opened MrftSpec
  import opened Traces
  import opened MrftRuns
  import opened MrftTheorems
  import opened TuningMath
  import opened PidConfig

  // ----- Runs -----

  /** What is checked before a run starts, the loop configuration and the initial readings, together
      with machine counters that the configuration does not make wrap around. */
  ghost predicate Admissible(config: LoopConfig, initial: InitialReadings) {
    && config.Validate().Ok? && config.CountersFit()
    && config.controllerType.IsAllowedFor(config.processType)
    && NewMvRange(initial.mvRangeHigh, initial.mvRangeLow).Ok?
    && NewMvRange(initial.mvRangeHigh, initial.mvRangeLow).value.Contains(initial.mvIni)
  }

  function SetupFor(config: LoopConfig, direction: Direction, initial: InitialReadings): Setup {
    NewSetup(config, direction, Beta(config.processType, config.controllerType), initial)
  }

  lemma AdmissibleIsPhysical(config: LoopConfig, direction: Direction, initial: InitialReadings)
    requires Admissible(config, initial)
    ensures Physical(SetupFor(config, direction, initial))
  {
    TableFacts(config.processType, config.controllerType);
    NewSetupIsValid(config, direction, Beta(config.processType, config.controllerType), initial);
    RangesKeepTheirEnds(initial.mvRangeHigh, initial.mvRangeLow);
    ValidatedClampStaysInRange(config, NewMvRange(initial.mvRangeHigh, initial.mvRangeLow).value, initial.mvIni);
  }

  // ----- Every completion is measurable -----

  /** `peaks` are the maxima of the windows closed on the peak side after the skip period. */
  ghost predicate PeaksFrom(c: Setup, ticks: seq<Tick>, sw: seq<nat>, init: int, peaks: seq<real>)
    requires c.Valid() && Positions(sw, |ticks|)
  {
    forall i | 0 <= i < |peaks| ::
      && PeakSwitch(c, init, i) < |sw|
      && peaks[i] == MaxOf(ClosedWindow(c, ticks, sw, PeakSwitch(c, init, i)))
  }

  /** `troughs` are the minima of the windows closed on the trough side after the skip period. */
  ghost predicate TroughsFrom(c: Setup, ticks: seq<Tick>, sw: seq<nat>, init: int, troughs: seq<real>)
    requires c.Valid() && Positions(sw, |ticks|)
  {
    forall i | 0 <= i < |troughs| ::
      && TroughSwitch(c, init, i) < |sw|
      && troughs[i] == MinOf(ClosedWindow(c, ticks, sw, TroughSwitch(c, init, i)))
  }

  /** The lists of a completed test, read off the raw trace and the switch positions. */
  lemma CompletedRecords(c: Setup, startTime: int, ticks: seq<Tick>)
    requires c.Valid() && Run(c, startTime, ticks).completed
    ensures var s, live, sw := Run(c, startTime, ticks), Live(c, startTime, ticks), Switches(c, startTime, ticks);
      var n, first := c.numCyclesCount, FirstIsPeak(c, s.mvSignInit);
      && (s.mvSignInit == 1 || s.mvSignInit == -1)
      && Positions(sw, |live|) && |sw| == c.Total()
      && |s.peaks| == (if first then n + 1 else n)
      && |s.troughs| == (if first then n else n + 1)
      && PeaksFrom(c, live, sw, s.mvSignInit, s.peaks)
      && TroughsFrom(c, live, sw, s.mvSignInit, s.troughs)
  {
    var s, live, sw := Run(c, startTime, ticks), Live(c, startTime, ticks), Switches(c, startTime, ticks);
    RunInvariant(c, startTime, ticks);
    RecordedEveryOther(c, s.mvSignInit, true, |sw|);
    RecordedEveryOther(c, s.mvSignInit, false, |sw|);
    PeaksAreExtremes(c, live, sw, s.mvSignInit, |sw|);
    TroughsAreExtremes(c, live, sw, s.mvSignInit, |sw|);
  }

  lemma CompletedTimes(c: Setup, startTime: int, ticks: seq<Tick>)
    requires c.Valid() && Run(c, startTime, ticks).completed
    ensures var times, live, sw := Run(c, startTime, ticks).switchTimes, Live(c, startTime, ticks),
                                   Switches(c, startTime, ticks);
      && Positions(sw, |live|) && |sw| == c.Total() && Spaced(c, live, sw)
      && |times| == 2 * c.numCyclesCount + 1
      && forall j | 0 <= j < |times| :: times[j] == live[sw[c.numSwitchesSkip - 1 + j]].time
  {
    RunInvariant(c, startTime, ticks);
    TimesShape(c, Live(c, startTime, ticks), Switches(c, startTime, ticks), c.Total());
  }

  /** What the engine hands over always passes the measurement's assertions, as long as at least
      one cycle is counted. */
  lemma CompletionIsMeasurable(config: LoopConfig, direction: Direction, beta: real, initial: InitialReadings,
                               startTime: int, ticks: seq<Tick>)
    requires config.CountersFit() && Run(NewSetup(config, direction, beta, initial), startTime, ticks).completed
    ensures var s := Run(NewSetup(config, direction, beta, initial), startTime, ticks);
      IsMeasurable(s.peaks, s.troughs, s.switchTimes, s.mvSignInit, direction, config.numCyclesCount)
      <==> config.numCyclesCount >= 1
  {
    NewSetupIsValid(config, direction, beta, initial);
    CompletedRecords(NewSetup(config, direction, beta, initial), startTime, ticks);
    CompletedTimes(NewSetup(config, direction, beta, initial), startTime, ticks);
  }

  // ----- The amplitude is positive -----

  predicate Above(c: Setup, pv: real) {
    if c.actionMultiplier == 1 then pv > c.pvIni else pv >= c.pvIni
  }

  predicate Below(c: Setup, pv: real) {
    if c.actionMultiplier == 1 then pv <= c.pvIni else pv < c.pvIni
  }

  /** A window other than the first starts on the switch sample of the opposite side, so a peak
      reaches above the initial PV and a trough below it. */
  lemma WindowReaches(c: Setup, ticks: seq<Tick>, sw: seq<nat>, init: int, k: nat)
    requires c.Valid() && Positions(sw, |ticks|) && Sided(c, ticks, sw, init) && (init == 1 || init == -1)
    requires 1 <= k < |sw|
    ensures IsPeak(c, init, k) ==> Above(c, MaxOf(ClosedWindow(c, ticks, sw, k)))
    ensures !IsPeak(c, init, k) ==> Below(c, MinOf(ClosedWindow(c, ticks, sw, k)))
  {
    var window := ClosedWindow(c, ticks, sw, k);
    Extremes(window);
    assert window[0] == ticks[sw[k - 1]].pv;
    assert OnSide(c, ticks[sw[k - 1]].pv, SignAt(init, k - 1));
  }

  lemma PeaksReach(c: Setup, ticks: seq<Tick>, sw: seq<nat>, init: int, peaks: seq<real>)
    requires c.Valid() && Positions(sw, |ticks|) && Sided(c, ticks, sw, init) && (init == 1 || init == -1)
    requires PeaksFrom(c, ticks, sw, init, peaks)
    ensures forall i | (if FirstIsPeak(c, init) then 1 else 0) <= i < |peaks| :: Above(c, peaks[i])
  {
    forall i | (if FirstIsPeak(c, init) then 1 else 0) <= i < |peaks| ensures Above(c, peaks[i]) {
      var k := PeakSwitch(c, init, i);
      PeakParity(c, init, k);
      WindowReaches(c, ticks, sw, init, k);
    }
  }

  lemma TroughsReach(c: Setup, ticks: seq<Tick>, sw: seq<nat>, init: int, troughs: seq<real>)
    requires c.Valid() && Positions(sw, |ticks|) && Sided(c, ticks, sw, init) && (init == 1 || init == -1)
    requires TroughsFrom(c, ticks, sw, init, troughs)
    ensures forall i | (if FirstIsPeak(c, init) then 0 else 1) <= i < |troughs| :: Below(c, troughs[i])
  {
    forall i | (if FirstIsPeak(c, init) then 0 else 1) <= i < |troughs| ensures Below(c, troughs[i]) {
      var k := TroughSwitch(c, init, i);
      PeakParity(c, init, k);
      WindowReaches(c, ticks, sw, init, k);
    }
  }

  /** Leaving out the first recorded extremum leaves only windows that reach their side. */
  lemma AveragedExtremesReach(c: Setup, direction: Direction, startTime: int, ticks: seq<Tick>)
    requires Physical(c) && c.actionMultiplier == direction.ActionMultiplier()
    requires Run(c, startTime, ticks).completed
    ensures var s := Run(c, startTime, ticks);
      var peaks := AveragedPeaks(s.peaks, s.mvSignInit, direction);
      var troughs := AveragedTroughs(s.troughs, s.mvSignInit, direction);
      && |peaks| == |troughs| == c.numCyclesCount
      && (forall i | 0 <= i < |peaks| :: Above(c, peaks[i]))
      && (forall i | 0 <= i < |troughs| :: Below(c, troughs[i]))
  {
    var s, live, sw := Run(c, startTime, ticks), Live(c, startTime, ticks), Switches(c, startTime, ticks);
    CompletedRecords(c, startTime, ticks);
    RunSided(c, startTime, ticks);
    assert FirstSwitchIsPeak(s.mvSignInit, direction) <==> FirstIsPeak(c, s.mvSignInit);
    PeaksReach(c, live, sw, s.mvSignInit, s.peaks);
    TroughsReach(c, live, sw, s.mvSignInit, s.troughs);
  }

  lemma SumsSeparate(c: Setup, peaks: seq<real>, troughs: seq<real>)
    requires |peaks| == |troughs| > 0
    requires forall i | 0 <= i < |peaks| :: Above(c, peaks[i])
    requires forall i | 0 <= i < |troughs| :: Below(c, troughs[i])
    ensures Sum(peaks) > Sum(troughs)
  {
    if c.actionMultiplier == 1 {
      SumAbove(peaks, c.pvIni);
      SumAtMost(troughs, c.pvIni);
    } else {
      SumAtLeast(peaks, c.pvIni);
      SumBelow(troughs, c.pvIni);
    }
  }

  lemma PvAmpRawIsPositive(c: Setup, direction: Direction, startTime: int, ticks: seq<Tick>)
    requires Physical(c) && c.actionMultiplier == direction.ActionMultiplier() && c.numCyclesCount > 0
    requires Run(c, startTime, ticks).completed
    ensures var s := Run(c, startTime, ticks);
      PvAmpRaw(s.peaks, s.troughs, s.mvSignInit, direction, c.numCyclesCount) > 0.0
  {
    var s := Run(c, startTime, ticks);
    AveragedExtremesReach(c, direction, startTime, ticks);
    var peaks := AveragedPeaks(s.peaks, s.mvSignInit, direction);
    var troughs := AveragedTroughs(s.troughs, s.mvSignInit, direction);
    SumsSeparate(c, peaks, troughs);
    PositiveGap(Sum(peaks), Sum(troughs), c.numCyclesCount);
  }

  lemma PositiveGap(peaksSum: real, troughsSum: real, count: nat)
    requires peaksSum > troughsSum && count > 0
    ensures HalfMeanGap(peaksSum, troughsSum, count) > 0.0
  {
    PositiveQuotient(peaksSum - troughsSum, 2.0 * count as real);
  }

  /** Every completed test measures a strictly positive PV amplitude. */
  lemma AmplitudeIsPositive(config: LoopConfig, direction: Direction, initial: InitialReadings,
                            startTime: int, ticks: seq<Tick>, pvRange: PvRange, pi: real)
    requires Admissible(config, initial)
    requires Run(SetupFor(config, direction, initial), startTime, ticks).completed
    ensures var s := Run(SetupFor(config, direction, initial), startTime, ticks);
      var o := MeasureOscillation(s.peaks, s.troughs, s.switchTimes, s.mvSignInit, direction, config, pvRange, pi);
      && o.Some? && o.value.pvAmpRaw > 0.0
      && o.value.pvAmpRaw == PvAmpRaw(s.peaks, s.troughs, s.mvSignInit, direction, config.numCyclesCount)
  {
    var c := SetupFor(config, direction, initial);
    AdmissibleIsPhysical(config, direction, initial);
    CompletionIsMeasurable(config, direction, c.beta, initial, startTime, ticks);
    PvAmpRawIsPositive(c, direction, startTime, ticks);
  }

  lemma PositiveQuotient(x: real, y: real)
    requires x > 0.0 && y > 0.0
    ensures x / y > 0.0
  {
  }

  // ----- The period is bounded below -----

  /** The seconds in `n` delays. */
  function Delays(n: nat, secs: nat): nat { secs * n }

  lemma DelaysStep(n: nat, secs: nat)
    ensures Delays(n + 1, secs) == Delays(n, secs) + secs
  {
  }

  /** Any two switches are at least their distance in delays apart. */
  lemma {:induction false} SpacedTotal(c: Setup, ticks: seq<Tick>, sw: seq<nat>, a: nat, b: nat)
    requires Positions(sw, |ticks|) && Spaced(c, ticks, sw) && a <= b < |sw|
    ensures ticks[sw[b]].time - ticks[sw[a]].time >= MrftSpec.Seconds(Delays(b - a, c.noiseProtectionSecs))
  {
    if a < b {
      SpacedTotal(c, ticks, sw, a, b - 1);
      DelaysStep(b - 1 - a, c.noiseProtectionSecs);
    }
  }

  function ElapsedNanos(times: seq<int>): int
    requires times != []
  {
    times[|times| - 1] - times[0]
  }

  function ElapsedMs(times: seq<int>): int
    requires times != []
  {
    NumMilliseconds(ElapsedNanos(times))
  }

  /** The delays that a completed test's measured span contains. */
  function MinimumSeconds(c: Setup): (r: nat) {
    Delays(2 * c.numCyclesCount, c.noiseProtectionSecs)
  }

  lemma ElapsedNanosBound(c: Setup, startTime: int, ticks: seq<Tick>)
    requires c.Valid() && Run(c, startTime, ticks).completed
    ensures var times := Run(c, startTime, ticks).switchTimes;
      times != [] && ElapsedNanos(times) >= MrftSpec.Seconds(MinimumSeconds(c))
  {
    var live, sw := Live(c, startTime, ticks), Switches(c, startTime, ticks);
    var times := Run(c, startTime, ticks).switchTimes;
    CompletedTimes(c, startTime, ticks);
    SpanOfSwitches(c, live, sw, times);
  }

  lemma SpanOfSwitches(c: Setup, ticks: seq<Tick>, sw: seq<nat>, times: seq<int>)
    requires c.Valid() && Positions(sw, |ticks|) && |sw| == c.Total() && Spaced(c, ticks, sw)
    requires |times| == 2 * c.numCyclesCount + 1
    requires forall j | 0 <= j < |times| :: times[j] == ticks[sw[c.numSwitchesSkip - 1 + j]].time
    ensures ElapsedNanos(times) >= MrftSpec.Seconds(MinimumSeconds(c))
  {
    var first, n := c.numSwitchesSkip - 1, 2 * c.numCyclesCount;
    SpacedTotal(c, ticks, sw, first, first + n);
    assert times[0] == ticks[sw[first]].time && times[n] == ticks[sw[first + n]].time;
  }

  /** The milliseconds measured over a completed test, after truncation, are at least twice the
      noise-protection delay per counted cycle. */
  lemma ElapsedIsBounded(c: Setup, startTime: int, ticks: seq<Tick>)
    requires c.Valid() && Run(c, startTime, ticks).completed
    ensures var times := Run(c, startTime, ticks).switchTimes;
      times != [] && ElapsedMs(times) >= MinimumSeconds(c) * 1000
  {
    ElapsedNanosBound(c, startTime, ticks);
    Milliseconds(ElapsedNanos(Run(c, startTime, ticks).switchTimes), MinimumSeconds(c));
  }

  lemma Milliseconds(nanos: int, seconds: int)
    requires nanos >= MrftSpec.Seconds(seconds) >= 0
    ensures NumMilliseconds(nanos) >= seconds * 1000
  {
  }

  lemma PeriodIsBounded(elapsedMs: int, count: nat, delaySecs: nat)
    requires count > 0 && elapsedMs >= Delays(2 * count, delaySecs) * 1000
    ensures PeriodMinutes(elapsedMs, count) >= 2.0 * delaySecs as real / 60.0
    ensures PeriodMinutes(elapsedMs, count) > 0.0 <==> elapsedMs > 0
  {
    var minutes, n, d := elapsedMs as real / 1000.0 / 60.0, count as real, delaySecs as real;
    assert (Delays(2 * count, delaySecs) * 1000) as real == d * (2.0 * n) * 1000.0;
    assert minutes >= (2.0 * d / 60.0) * n;
    QuotientBound(minutes, 2.0 * d / 60.0, n);
    if elapsedMs > 0 {
      PositiveQuotient(minutes, n);
    } else {
      PositiveQuotient(n, 1.0);
      QuotientBound(-minutes, 0.0, n);
      assert -(minutes / n) == (-minutes) / n;
    }
  }

  lemma QuotientBound(x: real, y: real, z: real)
    requires z > 0.0 && x >= y * z
    ensures x / z >= y
  {
    assert x / z * z == x;
    assert (x / z - y) * z >= 0.0;
  }

  // ----- Tuning results of a completed test -----

  /** Why the results of a completed test are invalid, if they are: a condition on the PV range, the
      measured milliseconds and the template alone, the same for all three levels. */
  function ExpectedReason(config: LoopConfig, pvRange: PvRange, template: DcsTemplate, elapsedMs: int)
    : Option<InvalidReason>
  {
    if pvRange.high == pvRange.low then Some(NonFinitePvAmplitude)
    else if pvRange.high < pvRange.low then Some(NonPositivePvAmplitude)
    else if elapsedMs == 0 then Some(NonPositivePeriod)
    else if config.controllerType.P? && !template.integralType.ResetTime? then Some(NonFiniteIntegral)
    else None
  }

  /** What a completed test measures. */
  ghost predicate Measures(o: Oscillation, pvRange: PvRange, elapsedMs: int, count: nat, pi: real)
    requires count > 0
  {
    && o.pvAmpRaw > 0.0
    && o.periodMinutes == PeriodMinutes(elapsedMs, count)
    && o.frequency == Divide(2.0 * pi, o.periodMinutes)
    && (pvRange.high == pvRange.low ==> o.pvAmpPercent.NonFinite?)
    && (pvRange.high != pvRange.low ==>
          && o.pvAmpPercent.Finite?
          && (o.pvAmpPercent.v > 0.0 <==> pvRange.high > pvRange.low)
          && Scale(o.pvAmpPercent.v, pvRange.high - pvRange.low) == 100.0 * o.pvAmpRaw)
  }

  lemma PercentSign(amp: real, span: real)
    requires amp > 0.0 && span != 0.0
    ensures amp / span * 100.0 > 0.0 <==> span > 0.0
    ensures Scale(amp / span * 100.0, span) == 100.0 * amp
  {
    var q := amp / span;
    assert q * span == amp;
    assert Scale(q * 100.0, span) == 100.0 * (q * span);
    if span > 0.0 {
      PositiveQuotient(amp, span);
    } else {
      PositiveQuotient(amp, 0.0 - span);
      assert q == -(amp / (0.0 - span));
    }
  }

  lemma MeasurementFacts(peaks: seq<real>, troughs: seq<real>, times: seq<int>, mvSignInit: int, direction: Direction,
                         config: LoopConfig, pvRange: PvRange, pi: real)
    requires config.numCyclesCount > 0
    requires IsMeasurable(peaks, troughs, times, mvSignInit, direction, config.numCyclesCount)
    requires PvAmpRaw(peaks, troughs, mvSignInit, direction, config.numCyclesCount) > 0.0
    ensures times != []
    ensures var o := MeasureOscillation(peaks, troughs, times, mvSignInit, direction, config, pvRange, pi);
      o.Some? && Measures(o.value, pvRange, ElapsedMs(times), config.numCyclesCount, pi)
  {
    if pvRange.high != pvRange.low {
      PercentSign(PvAmpRaw(peaks, troughs, mvSignInit, direction, config.numCyclesCount), pvRange.high - pvRange.low);
    }
  }

  lemma CompletedMeasurement(config: LoopConfig, direction: Direction, initial: InitialReadings,
                             startTime: int, ticks: seq<Tick>, pvRange: PvRange, pi: real)
    requires Admissible(config, initial)
    requires Run(SetupFor(config, direction, initial), startTime, ticks).completed
    ensures var s := Run(SetupFor(config, direction, initial), startTime, ticks);
      var o := MeasureOscillation(s.peaks, s.troughs, s.switchTimes, s.mvSignInit, direction, config, pvRange, pi);
      && s.switchTimes != [] && o.Some?
      && Measures(o.value, pvRange, ElapsedMs(s.switchTimes), config.numCyclesCount, pi)
  {
    AmplitudeIsPositive(config, direction, initial, startTime, ticks, pvRange, pi);
    var s := Run(SetupFor(config, direction, initial), startTime, ticks);
    MeasurementFacts(s.peaks, s.troughs, s.switchTimes, s.mvSignInit, direction, config, pvRange, pi);
  }

  /** The tuning a valid level holds: its times are table multiples of the measured period. */
  ghost predicate TunesTo(t: TuningResult, config: LoopConfig, level: ResponseLevel, period: real, percent: real,
                          pi: real) {
    var tc := Lookup(config.processType, config.controllerType, level);
    && t.level == level
    && t.kp > 0.0
    && GainFrom(tc.c1, config.relayAmpPercent, percent, pi) == Finite(t.kp)
    && t.tiMinutes == Scale(tc.c2, period)
    && t.tdMinutes == Scale(tc.c3, period)
  }

  /** `c * 2pi / (2pi / period)` is `c * period`. */
  lemma TimeIsMultiple(c: real, period: real, pi: real)
    requires pi > 0.0 && period > 0.0
    ensures 2.0 * pi / period > 0.0
    ensures TimeFrom(c, 2.0 * pi / period, pi) == Finite(Scale(c, period))
  {
    var f := 2.0 * pi / period;
    PositiveQuotient(2.0 * pi, period);
    assert f * period == 2.0 * pi;
    assert c * 2.0 * pi == Scale(c, period) * f;
    Cancel(Scale(c, period), f);
  }

  lemma Cancel(x: real, y: real)
    requires y != 0.0
    ensures x * y / y == x
  {
  }

  lemma PositiveProduct(x: real, y: real)
    requires x > 0.0 && y > 0.0
    ensures x * y > 0.0
  {
  }

  lemma GainIsPositive(c1: real, amp: real, percent: real, pi: real)
    requires c1 > 0.0 && amp > 0.0 && percent > 0.0 && pi > 0.0
    ensures GainFrom(c1, amp, percent, pi).Finite? && GainFrom(c1, amp, percent, pi).v > 0.0
  {
    PositiveProduct(c1 * 4.0, amp);
    PositiveProduct(pi, percent);
    PositiveQuotient(c1 * 4.0 * amp, pi * percent);
  }

  lemma TuningOfOscillation(o: Oscillation, config: LoopConfig, level: ResponseLevel, pi: real)
    requires pi > 0.0 && o.periodMinutes > 0.0 && o.frequency == Divide(2.0 * pi, o.periodMinutes)
    requires o.pvAmpPercent.Finite? && o.pvAmpPercent.v > 0.0
    requires config.Validate().Ok? && config.controllerType.IsAllowedFor(config.processType)
    ensures o.frequency.Finite? && o.frequency.v > 0.0
    ensures var t := CalculateTuningResult(o.frequency.v, o.pvAmpPercent.v, config, level, pi);
      t.Ok? && TunesTo(t.value, config, level, o.periodMinutes, o.pvAmpPercent.v, pi)
  {
    var tc := Lookup(config.processType, config.controllerType, level);
    TableFacts(config.processType, config.controllerType);
    TimeIsMultiple(tc.c2, o.periodMinutes, pi);
    TimeIsMultiple(tc.c3, o.periodMinutes, pi);
    GainIsPositive(tc.c1, config.relayAmpPercent, o.pvAmpPercent.v, pi);
  }

  /** A template can express a tuning unless a P-only loop, which has no integral time, is asked for
      a rate or a gain. */
  lemma TemplateOutcome(t: TuningResult, config: LoopConfig, template: DcsTemplate)
    requires t.kp > 0.0 && (t.tiMinutes > 0.0 <==> !config.controllerType.P?)
    requires config.controllerType.P? ==> t.tiMinutes == 0.0
    ensures CalculatePidParameters(t, template).Err? <==>
      config.controllerType.P? && !template.integralType.ResetTime?
    ensures CalculatePidParameters(t, template).Err? ==>
      CalculatePidParameters(t, template).error == NonFiniteIntegral
  {
  }

  /** One level's result for any oscillation a completed test can measure. */
  lemma LevelOutcome(o: Oscillation, config: LoopConfig, pvRange: PvRange, template: DcsTemplate,
                     level: ResponseLevel, elapsedMs: nat, pi: real)
    requires config.Validate().Ok? && config.controllerType.IsAllowedFor(config.processType) && pi > 0.0
    requires Measures(o, pvRange, elapsedMs, config.numCyclesCount, pi)
    ensures var r := CheckedLevel(o, config, template, level, pi);
      && r.level == level
      && r.invalidReason == ExpectedReason(config, pvRange, template, elapsedMs)
      && (r.status.Valid? ==>
            && o.pvAmpPercent.Finite? && o.pvAmpPercent.v > 0.0
            && r.tuning.Some? && r.pid.Some?
            && TunesTo(r.tuning.value, config, level, o.periodMinutes, o.pvAmpPercent.v, pi)
            && CalculatePidParameters(r.tuning.value, template) == Ok(r.pid.value))
  {
    PeriodIsBounded(elapsedMs, config.numCyclesCount, 0);
    if pvRange.high > pvRange.low && elapsedMs > 0 {
      TuningOfOscillation(o, config, level, pi);
      TableFacts(config.processType, config.controllerType);
      var t := CalculateTuningResult(o.frequency.v, o.pvAmpPercent.v, config, level, pi).value;
      if !config.controllerType.P? {
        PositiveProduct(C2(config.processType, config.controllerType), o.periodMinutes);
      }
      TemplateOutcome(t, config, template);
    }
  }

  /** The results computed from a completed run. */
  function ResultsOf(config: LoopConfig, direction: Direction, initial: InitialReadings, startTime: int,
                     ticks: seq<Tick>, pvRange: PvRange, template: DcsTemplate, pi: real)
    : Option<seq<CheckedTuningResult>>
  {
    var s := Run(SetupFor(config, direction, initial), startTime, ticks);
    CalculateAllChecked(s.peaks, s.troughs, s.switchTimes, s.mvSignInit, direction, config, pvRange, template, pi)
  }

  /** Every completed run of an admissible loop gives three results, and all three are valid, or
      invalid for the same stated reason, according to `ExpectedReason`. A PV range given high end
      first is accepted when it is read but always ends here. */
  lemma CompletedRunOutcome(config: LoopConfig, direction: Direction, initial: InitialReadings, startTime: int,
                            ticks: seq<Tick>, pvRange: PvRange, template: DcsTemplate, pi: real)
    requires Admissible(config, initial) && pi > 0.0
    requires Run(SetupFor(config, direction, initial), startTime, ticks).completed
    ensures var times := Run(SetupFor(config, direction, initial), startTime, ticks).switchTimes;
      var r := ResultsOf(config, direction, initial, startTime, ticks, pvRange, template, pi);
      && times != [] && r.Some? && |r.value| == |ALL_LEVELS|
      && forall i | 0 <= i < |ALL_LEVELS| ::
           && r.value[i].level == ALL_LEVELS[i]
           && r.value[i].invalidReason == ExpectedReason(config, pvRange, template, ElapsedMs(times))
           && (r.value[i].UsableValues().Some? <==> r.value[i].invalidReason.None?)
  {
    var c := SetupFor(config, direction, initial);
    CompletedMeasurement(config, direction, initial, startTime, ticks, pvRange, pi);
    AdmissibleIsPhysical(config, direction, initial);
    ElapsedIsBounded(c, startTime, ticks);
    var s := Run(c, startTime, ticks);
    var o := MeasureOscillation(s.peaks, s.troughs, s.switchTimes, s.mvSignInit, direction, config, pvRange, pi).value;
    forall i | 0 <= i < |ALL_LEVELS|
      ensures var r := CheckedLevel(o, config, template, ALL_LEVELS[i], pi);
        && r.level == ALL_LEVELS[i]
        && r.invalidReason == ExpectedReason(config, pvRange, template, ElapsedMs(s.switchTimes))
        && (r.UsableValues().Some? <==> r.invalidReason.None?)
    {
      LevelOutcome(o, config, pvRange, template, ALL_LEVELS[i], ElapsedMs(s.switchTimes), pi);
      UsableIffValid(o, config, template, ALL_LEVELS[i], pi);
    }
  }

  /** Whatever was sampled: with any PV range that passes the range check, the results of a completed run
      are rejected for an amplitude that is not positive if and only if the range was given reversed. */
  lemma ReversedPvRange(config: LoopConfig, direction: Direction, initial: InitialReadings, startTime: int,
                        ticks: seq<Tick>, high: real, low: real, template: DcsTemplate, pi: real)
    requires Admissible(config, initial) && pi > 0.0 && NewPvRange(high, low).Ok?
    requires Run(SetupFor(config, direction, initial), startTime, ticks).completed
    ensures var r := ResultsOf(config, direction, initial, startTime, ticks, NewPvRange(high, low).value, template, pi);
      && r.Some? && |r.value| == |ALL_LEVELS|
      && forall i | 0 <= i < |ALL_LEVELS| ::
           r.value[i].invalidReason == Some(NonPositivePvAmplitude) <==> high < low
  {
    CompletedRunOutcome(config, direction, initial, startTime, ticks, NewPvRange(high, low).value, template, pi);
    var ms := ElapsedMs(Run(SetupFor(config, direction, initial), startTime, ticks).switchTimes);
    RangesKeepTheirEnds(high, low);
    ReversedReason(config, high, low, template, ms);
    var r := ResultsOf(config, direction, initial, startTime, ticks, NewPvRange(high, low).value, template, pi).value;
    forall i | 0 <= i < |ALL_LEVELS| ensures r[i].invalidReason == Some(NonPositivePvAmplitude) <==> high < low {
      assert r[i].invalidReason == ExpectedReason(config, NewPvRange(high, low).value, template, ms);
    }
  }

  lemma ReversedReason(config: LoopConfig, high: real, low: real, template: DcsTemplate, elapsedMs: int)
    ensures ExpectedReason(config, PvRange(high, low), template, elapsedMs) == Some(NonPositivePvAmplitude)
      <==> high < low
  {
  }

  // ----- The tuning law, in terms of what was recorded -----

  /** Half the distance between the means of the last `count` recorded peaks and troughs: all but the
      first recorded extremum. */
  ghost predicate IsAmplitude(a: real, peaks: seq<real>, troughs: seq<real>, count: nat) {
    && |peaks| >= count && |troughs| >= count && |peaks| + |troughs| == 2 * count + 1
    && Multiple(2 * count, a) == Sum(peaks[|peaks| - count..]) - Sum(troughs[|troughs| - count..])
  }

  /** The whole milliseconds between the first and the last recorded switch. */
  ghost predicate IsElapsed(ms: int, times: seq<int>, count: nat) {
    && |times| == 2 * count + 1
    && ms * 1_000_000 <= times[2 * count] - times[0] < (ms + 1) * 1_000_000
  }

  /** The gain relates the relay amplitude, in percent of the output, to the measured amplitude `a`, in
      percent of the PV range; the times are table multiples of the mean cycle of `count` in `ms`. */
  ghost predicate ObeysLaw(t: TuningResult, config: LoopConfig, level: ResponseLevel, pvRange: PvRange,
                           a: real, ms: int, pi: real) {
    var p, c, count := config.processType, config.controllerType, config.numCyclesCount as real;
    && t.level == level
    && t.kp * (pi * 100.0 * a) == 4.0 * C1(p, level, c) * config.relayAmpPercent * (pvRange.high - pvRange.low)
    && t.tiMinutes * 60_000.0 * count == C2(p, c) * ms as real
    && t.tdMinutes * 60_000.0 * count == C3(p, c) * ms as real
  }

  lemma AmplitudeOfLists(peaks: seq<real>, troughs: seq<real>, times: seq<int>, mvSignInit: int,
                         direction: Direction, count: nat)
    requires count > 0 && IsMeasurable(peaks, troughs, times, mvSignInit, direction, count)
    ensures IsAmplitude(PvAmpRaw(peaks, troughs, mvSignInit, direction, count), peaks, troughs, count)
  {
    assert AveragedPeaks(peaks, mvSignInit, direction) == peaks[|peaks| - count..];
    assert AveragedTroughs(troughs, mvSignInit, direction) == troughs[|troughs| - count..];
    HalfGapBack(Sum(peaks[|peaks| - count..]), Sum(troughs[|troughs| - count..]), count);
  }

  lemma HalfGapBack(peaksSum: real, troughsSum: real, count: nat)
    requires count > 0
    ensures Multiple(2 * count, HalfMeanGap(peaksSum, troughsSum, count)) == peaksSum - troughsSum
  {
    var n, q := 2.0 * count as real, HalfMeanGap(peaksSum, troughsSum, count);
    assert q * n == peaksSum - troughsSum;
    assert Multiple(2 * count, q) == n * q;
  }

  lemma ElapsedOfTimes(times: seq<int>, count: nat)
    requires |times| == 2 * count + 1 && times[2 * count] >= times[0]
    ensures IsElapsed(ElapsedMs(times), times, count)
  {
  }

  lemma GainLaw(c1: real, relay: real, percent: real, pi: real, kp: real, span: real, a: real)
    requires pi > 0.0 && percent > 0.0 && GainFrom(c1, relay, percent, pi) == Finite(kp)
    requires Scale(percent, span) == 100.0 * a
    ensures kp * (pi * 100.0 * a) == 4.0 * c1 * relay * span
  {
    PositiveProduct(pi, percent);
    assert kp * (pi * percent) == c1 * 4.0 * relay;
    assert kp * (pi * 100.0 * a) == kp * pi * Scale(percent, span);
    assert kp * pi * Scale(percent, span) == kp * (pi * percent) * span;
  }

  lemma PeriodLaw(c: real, ms: int, count: nat)
    requires count > 0
    ensures Scale(c, PeriodMinutes(ms, count)) * 60_000.0 * count as real == c * ms as real
  {
    var period, n := PeriodMinutes(ms, count), count as real;
    assert period * n == ms as real / 1000.0 / 60.0;
    assert Scale(c, period) * 60_000.0 * n == c * 60_000.0 * (period * n);
  }

  lemma LevelLaw(t: TuningResult, o: Oscillation, config: LoopConfig, level: ResponseLevel, pvRange: PvRange,
                 ms: int, pi: real)
    requires config.numCyclesCount > 0 && pi > 0.0 && pvRange.high != pvRange.low
    requires Measures(o, pvRange, ms, config.numCyclesCount, pi) && o.pvAmpPercent.v > 0.0
    requires TunesTo(t, config, level, o.periodMinutes, o.pvAmpPercent.v, pi)
    ensures ObeysLaw(t, config, level, pvRange, o.pvAmpRaw, ms, pi)
  {
    var tc := Lookup(config.processType, config.controllerType, level);
    GainLaw(tc.c1, config.relayAmpPercent, o.pvAmpPercent.v, pi, t.kp, pvRange.high - pvRange.low, o.pvAmpRaw);
    PeriodLaw(tc.c2, ms, config.numCyclesCount);
    PeriodLaw(tc.c3, ms, config.numCyclesCount);
  }

  /** All valid results obey the law. */
  ghost predicate AllObeyLaw(r: Option<seq<CheckedTuningResult>>, config: LoopConfig, pvRange: PvRange,
                             a: real, ms: int, pi: real) {
    && r.Some? && |r.value| == |ALL_LEVELS|
    && forall i | 0 <= i < |ALL_LEVELS| && r.value[i].UsableValues().Some? ::
         ObeysLaw(r.value[i].UsableValues().value.0, config, ALL_LEVELS[i], pvRange, a, ms, pi)
  }

  /** `a` and `ms` are what the recorded extrema and switch times say. */
  ghost predicate AreMeasured(a: real, ms: int, s: State, count: nat) {
    IsAmplitude(a, s.peaks, s.troughs, count) && a > 0.0 && IsElapsed(ms, s.switchTimes, count) && ms >= 0
  }

  lemma LevelsLaw(s: State, direction: Direction, config: LoopConfig, pvRange: PvRange, template: DcsTemplate,
                  ms: nat, pi: real)
    requires config.Validate().Ok? && config.controllerType.IsAllowedFor(config.processType) && pi > 0.0
    requires var o := MeasureOscillation(s.peaks, s.troughs, s.switchTimes, s.mvSignInit, direction, config,
                                         pvRange, pi);
      o.Some? && Measures(o.value, pvRange, ms, config.numCyclesCount, pi)
    ensures var o := MeasureOscillation(s.peaks, s.troughs, s.switchTimes, s.mvSignInit, direction, config,
                                        pvRange, pi);
      AllObeyLaw(CalculateAllChecked(s.peaks, s.troughs, s.switchTimes, s.mvSignInit, direction, config, pvRange,
                                     template, pi),
                 config, pvRange, o.value.pvAmpRaw, ms, pi)
  {
    var o := MeasureOscillation(s.peaks, s.troughs, s.switchTimes, s.mvSignInit, direction, config, pvRange, pi).value;
    forall i | 0 <= i < |ALL_LEVELS| && CheckedLevel(o, config, template, ALL_LEVELS[i], pi).UsableValues().Some?
      ensures ObeysLaw(CheckedLevel(o, config, template, ALL_LEVELS[i], pi).UsableValues().value.0, config,
                       ALL_LEVELS[i], pvRange, o.pvAmpRaw, ms, pi)
    {
      ValidLevelLaw(o, config, pvRange, template, ALL_LEVELS[i], ms, pi);
    }
  }

  lemma RecordedAmplitude(config: LoopConfig, direction: Direction, initial: InitialReadings, startTime: int,
                          ticks: seq<Tick>, pvRange: PvRange, pi: real)
    requires Admissible(config, initial)
    requires Run(SetupFor(config, direction, initial), startTime, ticks).completed
    ensures var s := Run(SetupFor(config, direction, initial), startTime, ticks);
      var o := MeasureOscillation(s.peaks, s.troughs, s.switchTimes, s.mvSignInit, direction, config, pvRange, pi);
      && o.Some? && o.value.pvAmpRaw > 0.0
      && IsAmplitude(o.value.pvAmpRaw, s.peaks, s.troughs, config.numCyclesCount)
  {
    var c := SetupFor(config, direction, initial);
    var s := Run(c, startTime, ticks);
    AmplitudeIsPositive(config, direction, initial, startTime, ticks, pvRange, pi);
    CompletionIsMeasurable(config, direction, c.beta, initial, startTime, ticks);
    AmplitudeOfLists(s.peaks, s.troughs, s.switchTimes, s.mvSignInit, direction, config.numCyclesCount);
  }

  lemma RecordedTime(c: Setup, startTime: int, ticks: seq<Tick>)
    requires c.Valid() && Run(c, startTime, ticks).completed
    ensures var times := Run(c, startTime, ticks).switchTimes;
      times != [] && ElapsedMs(times) >= 0 && IsElapsed(ElapsedMs(times), times, c.numCyclesCount)
  {
    ElapsedNanosBound(c, startTime, ticks);
    CompletedTimes(c, startTime, ticks);
    ElapsedOfTimes(Run(c, startTime, ticks).switchTimes, c.numCyclesCount);
  }

  /** Every valid result of every completed run obeys the tuning law, for the amplitude and the elapsed
      time that the recorded extrema and switch times determine. */
  lemma CompletedRunLaw(config: LoopConfig, direction: Direction, initial: InitialReadings, startTime: int,
                        ticks: seq<Tick>, pvRange: PvRange, template: DcsTemplate, pi: real)
    returns (a: real, ms: int)
    requires Admissible(config, initial) && pi > 0.0
    requires Run(SetupFor(config, direction, initial), startTime, ticks).completed
    ensures AreMeasured(a, ms, Run(SetupFor(config, direction, initial), startTime, ticks), config.numCyclesCount)
    ensures AllObeyLaw(ResultsOf(config, direction, initial, startTime, ticks, pvRange, template, pi),
                       config, pvRange, a, ms, pi)
  {
    var s := Run(SetupFor(config, direction, initial), startTime, ticks);
    AdmissibleIsPhysical(config, direction, initial);
    RecordedTime(SetupFor(config, direction, initial), startTime, ticks);
    RecordedAmplitude(config, direction, initial, startTime, ticks, pvRange, pi);
    CompletedMeasurement(config, direction, initial, startTime, ticks, pvRange, pi);
    ms := ElapsedMs(s.switchTimes);
    var o := MeasureOscillation(s.peaks, s.troughs, s.switchTimes, s.mvSignInit, direction, config, pvRange, pi).value;
    a := o.pvAmpRaw;
    LevelsLaw(s, direction, config, pvRange, template, ms, pi);
  }

  lemma ValidLevelLaw(o: Oscillation, config: LoopConfig, pvRange: PvRange, template: DcsTemplate,
                      level: ResponseLevel, ms: nat, pi: real)
    requires config.Validate().Ok? && config.controllerType.IsAllowedFor(config.processType) && pi > 0.0
    requires Measures(o, pvRange, ms, config.numCyclesCount, pi)
    requires CheckedLevel(o, config, template, level, pi).UsableValues().Some?
    ensures ObeysLaw(CheckedLevel(o, config, template, level, pi).UsableValues().value.0, config, level, pvRange,
                     o.pvAmpRaw, ms, pi)
  {
    LevelOutcome(o, config, pvRange, template, level, ms, pi);
    UsableIffValid(o, config, template, level, pi);
    LevelLaw(CheckedLevel(o, config, template, level, pi).tuning.value, o, config, level, pvRange, ms, pi);
  }

  /** The three tunings of one run share their times and differ in gain, from aggressive down to
      sluggish; the times are positive where the controller type uses them, and not less than the
      noise-protection delay allows. */
  ghost predicate IsTuningSet(t: seq<TuningResult>, config: LoopConfig)
    requires |t| == 3
  {
    var c2 := C2(config.processType, config.controllerType);
    && t[0].kp > t[1].kp > t[2].kp > 0.0
    && t[0].tiMinutes == t[1].tiMinutes == t[2].tiMinutes
    && t[0].tdMinutes == t[1].tdMinutes == t[2].tdMinutes
    && t[0].tiMinutes > 0.0
    && t[0].tiMinutes >= Scale(c2, 2.0 * config.noiseProtectionSecs as real / 60.0)
    && (if config.controllerType.Pid? then t[0].tdMinutes > 0.0 else t[0].tdMinutes == 0.0)
  }

  lemma GainOrder(high: real, low: real, amp: real, percent: real, pi: real)
    requires high > low && amp > 0.0 && percent > 0.0 && pi > 0.0
    requires GainFrom(high, amp, percent, pi).Finite? && GainFrom(low, amp, percent, pi).Finite?
    ensures GainFrom(high, amp, percent, pi).v > GainFrom(low, amp, percent, pi).v
  {
    var d := pi * percent;
    PositiveProduct(pi, percent);
    PositiveProduct((high - low) * 4.0, amp);
    PositiveQuotient((high - low) * 4.0 * amp, d);
    SplitQuotient((high - low) * 4.0 * amp, low * 4.0 * amp, d);
    assert (high - low) * 4.0 * amp + low * 4.0 * amp == high * 4.0 * amp;
  }

  lemma SplitQuotient(x: real, y: real, d: real)
    requires d > 0.0
    ensures (x + y) / d == x / d + y / d
  {
  }

  lemma TuningSet(t: seq<TuningResult>, config: LoopConfig, period: real, percent: real, pi: real)
    requires |t| == 3 && config.Validate().Ok? && config.controllerType.IsAllowedFor(config.processType)
    requires !config.controllerType.P? && pi > 0.0 && percent > 0.0 && period > 0.0
    requires period >= 2.0 * config.noiseProtectionSecs as real / 60.0
    requires forall i | 0 <= i < 3 :: TunesTo(t[i], config, ALL_LEVELS[i], period, percent, pi)
    ensures IsTuningSet(t, config)
  {
    var p, c := config.processType, config.controllerType;
    TableFacts(p, c);
    GainOrder(C1(p, Aggressive, c), C1(p, Moderate, c), config.relayAmpPercent, percent, pi);
    GainOrder(C1(p, Moderate, c), C1(p, Sluggish, c), config.relayAmpPercent, percent, pi);
    PositiveProduct(C2(p, c), period);
    ScaleGrows(C2(p, c), 2.0 * config.noiseProtectionSecs as real / 60.0, period);
    if c.Pid? {
      PositiveProduct(C3(p, c), period);
    }
  }

  lemma ScaleGrows(c: real, x: real, y: real)
    requires c > 0.0 && x <= y
    ensures Scale(c, x) <= Scale(c, y)
  {
  }

  lemma CompletedRunShape(config: LoopConfig, direction: Direction, initial: InitialReadings, startTime: int,
                          ticks: seq<Tick>, pvRange: PvRange, template: DcsTemplate, pi: real)
    requires Admissible(config, initial) && pi > 0.0
    requires Run(SetupFor(config, direction, initial), startTime, ticks).completed
    requires !config.controllerType.P? && config.noiseProtectionSecs >= 1 && pvRange.high > pvRange.low
    ensures var r := ResultsOf(config, direction, initial, startTime, ticks, pvRange, template, pi);
      && r.Some? && |r.value| == 3
      && (forall i | 0 <= i < 3 :: r.value[i].UsableValues().Some?)
      && IsTuningSet(seq(3, i requires 0 <= i < 3 => r.value[i].UsableValues().value.0), config)
  {
    var c := SetupFor(config, direction, initial);
    CompletedRunOutcome(config, direction, initial, startTime, ticks, pvRange, template, pi);
    CompletedMeasurement(config, direction, initial, startTime, ticks, pvRange, pi);
    AdmissibleIsPhysical(config, direction, initial);
    ElapsedIsBounded(c, startTime, ticks);
    var s := Run(c, startTime, ticks);
    var ms := ElapsedMs(s.switchTimes);
    PeriodIsBounded(ms, config.numCyclesCount, config.noiseProtectionSecs);
    PositiveDelays(2 * config.numCyclesCount, config.noiseProtectionSecs);
    var o := MeasureOscillation(s.peaks, s.troughs, s.switchTimes, s.mvSignInit, direction, config, pvRange, pi).value;
    forall i | 0 <= i < 3
      ensures var r := CheckedLevel(o, config, template, ALL_LEVELS[i], pi);
        r.tuning.Some? && TunesTo(r.tuning.value, config, ALL_LEVELS[i], o.periodMinutes, o.pvAmpPercent.v, pi)
    {
      LevelOutcome(o, config, pvRange, template, ALL_LEVELS[i], ms, pi);
    }
    var r := ResultsOf(config, direction, initial, startTime, ticks, pvRange, template, pi).value;
    TuningSet(seq(3, i requires 0 <= i < 3 => r[i].UsableValues().value.0), config,
              o.periodMinutes, o.pvAmpPercent.v, pi);
  }

  /** Every completed PI or PID run with at least a second of noise protection and an upright PV
      range is tuned at all three levels, in any template, as the tuning law says. */
  lemma CompletedRunIsTuned(config: LoopConfig, direction: Direction, initial: InitialReadings, startTime: int,
                            ticks: seq<Tick>, pvRange: PvRange, template: DcsTemplate, pi: real)
    returns (a: real, ms: int)
    requires Admissible(config, initial) && pi > 0.0
    requires Run(SetupFor(config, direction, initial), startTime, ticks).completed
    requires !config.controllerType.P? && config.noiseProtectionSecs >= 1 && pvRange.high > pvRange.low
    ensures AreMeasured(a, ms, Run(SetupFor(config, direction, initial), startTime, ticks), config.numCyclesCount)
    ensures var r := ResultsOf(config, direction, initial, startTime, ticks, pvRange, template, pi);
      && r.Some? && |r.value| == 3
      && (forall i | 0 <= i < 3 :: r.value[i].UsableValues().Some?)
      && IsTuningSet(seq(3, i requires 0 <= i < 3 => r.value[i].UsableValues().value.0), config)
    ensures AllObeyLaw(ResultsOf(config, direction, initial, startTime, ticks, pvRange, template, pi),
                       config, pvRange, a, ms, pi)
  {
    a, ms := CompletedRunLaw(config, direction, initial, startTime, ticks, pvRange, template, pi);
    CompletedRunShape(config, direction, initial, startTime, ticks, pvRange, template, pi);
  }

  lemma PositiveDelays(n: nat, secs: nat)
    requires n > 0 && secs > 0
    ensures Delays(n, secs) > 0
  {
  }

  // ----- Controller-ready values of a valid result -----

  /** The terms a controller type uses come out positive. */
  lemma ActiveTermsArePositive(t: TuningResult, pid: PidParameters, config: LoopConfig, template: DcsTemplate,
                               level: ResponseLevel, period: real, percent: real, pi: real)
    requires config.controllerType.IsAllowedFor(config.processType) && period > 0.0
    requires TunesTo(t, config, level, period, percent, pi)
    requires CalculatePidParameters(t, template) == Ok(pid)
    ensures pid.proportional > 0.0
    ensures !config.controllerType.P? ==> pid.integral > 0.0
    ensures config.controllerType.Pid? ==> pid.derivative > 0.0
  {
    var p, c := config.processType, config.controllerType;
    TableFacts(p, c);
    if c.P? {
      PositiveQuotient(100.0, t.kp);
    } else {
      PositiveProduct(C2(p, c), period);
      if c.Pid? {
        PositiveProduct(C3(p, c), period);
      }
      PidParametersAreInvertible(t, template);
    }
  }

  /** Whether the policy's last place is so coarse that it erases a term the controller type uses. */
  ghost predicate ErasesTerm(pid: PidParameters, controllerType: ControllerType, policy: PidRounding) {
    exists t | t in ActiveTerms(pid, controllerType) :: Erases(policy, t.1)
  }

  lemma PositiveTermsAreWritable(pid: PidParameters, controllerType: ControllerType, template: DcsTemplate)
    requires template.pidRounding.Validate().Ok?
    requires pid.proportional > 0.0 && (!controllerType.P? ==> pid.integral > 0.0)
    requires controllerType.Pid? ==> pid.derivative > 0.0
    ensures ControllerValues(pid, controllerType, template).Ok?
      <==> !ErasesTerm(pid, controllerType, template.pidRounding)
  {
    FirstObjectionOfActive(pid, controllerType, template.pidRounding);
    ControllerValuesOutcome(pid, controllerType, template);
    ErasedTerms(pid, controllerType, template.pidRounding);
  }

  lemma ErasedTerms(pid: PidParameters, controllerType: ControllerType, policy: PidRounding)
    ensures ErasesTerm(pid, controllerType, policy) <==>
      || Erases(policy, pid.proportional)
      || (!controllerType.P? && Erases(policy, pid.integral))
      || (controllerType.Pid? && Erases(policy, pid.derivative))
  {
    var p, i, d := (Proportional, pid.proportional), (Integral, pid.integral), (Derivative, pid.derivative);
    var terms := ActiveTerms(pid, controllerType);
    assert p in terms && (!controllerType.P? ==> i in terms) && (controllerType.Pid? ==> d in terms);
    assert forall t | t in terms :: t == p || (!controllerType.P? && t == i) || (controllerType.Pid? && t == d);
  }

  /** Under any valid policy, a valid result of a completed run can be written to the controller if and
      only if the policy erases none of its terms: rounding is the only thing that can turn a tuning into
      a refusal. */
  lemma CompletedRunIsWritable(config: LoopConfig, direction: Direction, initial: InitialReadings, startTime: int,
                               ticks: seq<Tick>, pvRange: PvRange, template: DcsTemplate, pi: real, i: nat)
    requires Admissible(config, initial) && pi > 0.0
    requires Run(SetupFor(config, direction, initial), startTime, ticks).completed
    requires template.pidRounding.Validate().Ok? && i < |ALL_LEVELS|
    ensures var r := ResultsOf(config, direction, initial, startTime, ticks, pvRange, template, pi);
      && r.Some? && |r.value| == |ALL_LEVELS|
      && (r.value[i].UsableValues().Some? ==>
            var pid := r.value[i].UsableValues().value.1;
            ControllerValues(pid, config.controllerType, template).Ok?
            <==> !ErasesTerm(pid, config.controllerType, template.pidRounding))
  {
    CompletedRunOutcome(config, direction, initial, startTime, ticks, pvRange, template, pi);
    CompletedMeasurement(config, direction, initial, startTime, ticks, pvRange, pi);
    AdmissibleIsPhysical(config, direction, initial);
    ElapsedIsBounded(SetupFor(config, direction, initial), startTime, ticks);
    var s := Run(SetupFor(config, direction, initial), startTime, ticks);
    var o := MeasureOscillation(s.peaks, s.troughs, s.switchTimes, s.mvSignInit, direction, config, pvRange, pi).value;
    LevelWritable(o, config, pvRange, template, ALL_LEVELS[i], ElapsedMs(s.switchTimes), pi);
  }

  lemma LevelWritable(o: Oscillation, config: LoopConfig, pvRange: PvRange, template: DcsTemplate,
                      level: ResponseLevel, elapsedMs: nat, pi: real)
    requires config.Validate().Ok? && config.controllerType.IsAllowedFor(config.processType) && pi > 0.0
    requires Measures(o, pvRange, elapsedMs, config.numCyclesCount, pi)
    requires template.pidRounding.Validate().Ok?
    ensures var r := CheckedLevel(o, config, template, level, pi);
      r.UsableValues().Some? ==>
        var pid := r.UsableValues().value.1;
        ControllerValues(pid, config.controllerType, template).Ok?
        <==> !ErasesTerm(pid, config.controllerType, template.pidRounding)
  {
    var r := CheckedLevel(o, config, template, level, pi);
    LevelOutcome(o, config, pvRange, template, level, elapsedMs, pi);
    PeriodIsBounded(elapsedMs, config.numCyclesCount, 0);
    if r.status.Valid? {
      ActiveTermsArePositive(r.tuning.value, r.pid.value, config, template, level,
                             o.periodMinutes, o.pvAmpPercent.v, pi);
      PositiveTermsAreWritable(r.pid.value, config.controllerType, template);
    }
  }

  /** A significant-digit policy erases nothing, so it never refuses a valid result. */
  lemma SignificantDigitsAlwaysWrite(config: LoopConfig, direction: Direction, initial: InitialReadings,
                                     startTime: int, ticks: seq<Tick>, pvRange: PvRange, template: DcsTemplate,
                                     pi: real, i: nat)
    requires Admissible(config, initial) && pi > 0.0
    requires Run(SetupFor(config, direction, initial), startTime, ticks).completed
    requires template.pidRounding.Validate().Ok? && template.pidRounding.kind.SignificantDigits?
    requires i < |ALL_LEVELS|
    ensures var r := ResultsOf(config, direction, initial, startTime, ticks, pvRange, template, pi);
      && r.Some? && |r.value| == |ALL_LEVELS|
      && (r.value[i].UsableValues().Some? ==>
            ControllerValues(r.value[i].UsableValues().value.1, config.controllerType, template).Ok?)
  {
    CompletedRunIsWritable(config, direction, initial, startTime, ticks, pvRange, template, pi, i);
  }
}
