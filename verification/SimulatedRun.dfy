/** The engine driving the simulated process: the samples it sees are the process's answers to the
    MVs it wrote. */
module SimulatedRun {
  import opened LoopConfigs
  import opened MrftSpec
  import opened Traces
  import opened MrftRuns
  import opened MrftTheorems
  import opened TuningMath
  import opened EndToEnd
  import opened SimulatorSpec
  import opened SimulatorTheorems

  /** The MV in force at each sample. */
  function InForce(c: Setup, startTime: int, ticks: seq<Tick>): (r: seq<real>)
    ensures |r| == |ticks|
  {
    seq(|ticks|, k requires 0 <= k < |ticks| => Run(c, startTime, ticks[..k]).mvCurrent)
  }

  /** Every sample is one step of the process under the MVs the engine held until then. */
  ghost predicate Simulated(c: Setup, startTime: int, ticks: seq<Tick>, p: Plant, noises: seq<real>) {
    && p.Valid() && p.initialMv == c.mvIni
    && |noises| == |ticks| && AllWithin(noises, -p.noiseAmplitude, p.noiseAmplitude)
    && forall k | 0 <= k < |ticks| ::
         ticks[k].pv == PvAfter(p, InForce(c, startTime, ticks)[..k + 1], noises[..k + 1])
  }

  lemma InForceIsBounded(c: Setup, startTime: int, ticks: seq<Tick>)
    requires Physical(c)
    ensures AllWithin(InForce(c, startTime, ticks), c.mvIni - c.relayAmpRaw, c.mvIni + c.relayAmpRaw)
  {
    forall k | 0 <= k < |ticks|
      ensures c.mvIni - c.relayAmpRaw <= Run(c, startTime, ticks[..k]).mvCurrent <= c.mvIni + c.relayAmpRaw
    {
      RunCounted(c, startTime, ticks[..k]);
    }
  }

  /** Over a whole simulated run the process value stays in the hull of the two relay levels. */
  lemma SimulatedPvInHull(c: Setup, startTime: int, ticks: seq<Tick>, p: Plant, noises: seq<real>, k: nat)
    requires Physical(c) && Simulated(c, startTime, ticks, p, noises) && k < |ticks|
    ensures HullLow(p, c.mvIni - c.relayAmpRaw, c.mvIni + c.relayAmpRaw)
         <= ticks[k].pv
         <= HullHigh(p, c.mvIni - c.relayAmpRaw, c.mvIni + c.relayAmpRaw)
  {
    InForceIsBounded(c, startTime, ticks);
    PvStaysInHull(p, InForce(c, startTime, ticks)[..k + 1], noises[..k + 1],
                  c.mvIni - c.relayAmpRaw, c.mvIni + c.relayAmpRaw);
  }

  lemma {:induction false} LiveIsPrefix(c: Setup, startTime: int, ticks: seq<Tick>)
    ensures Live(c, startTime, ticks) <= ticks
  {
    if ticks != [] {
      var n := |ticks| - 1;
      var before := ticks[..n];
      LiveIsPrefix(c, startTime, before);
      HistoryAppend(c, startTime, before, ticks[n]);
      assert before + [ticks[n]] == ticks;
      if !Run(c, startTime, before).completed {
        LiveWhileRunning(c, startTime, before);
      }
    }
  }

  ghost predicate TicksWithin(ticks: seq<Tick>, lo: real, hi: real) {
    forall i | 0 <= i < |ticks| :: lo <= ticks[i].pv <= hi
  }

  /** A window after the first holds samples only, so its extremes are within their bounds. */
  lemma WindowWithin(c: Setup, ticks: seq<Tick>, sw: seq<nat>, k: nat, lo: real, hi: real)
    requires Positions(sw, |ticks|) && 1 <= k < |sw| && TicksWithin(ticks, lo, hi)
    ensures lo <= MinOf(ClosedWindow(c, ticks, sw, k)) && MaxOf(ClosedWindow(c, ticks, sw, k)) <= hi
  {
    Extremes(ClosedWindow(c, ticks, sw, k));
  }

  lemma PeaksWithin(c: Setup, ticks: seq<Tick>, sw: seq<nat>, init: int, peaks: seq<real>,
                    direction: Direction, lo: real, hi: real)
    requires c.Valid() && c.actionMultiplier == direction.ActionMultiplier() && (init == 1 || init == -1)
    requires Positions(sw, |ticks|) && TicksWithin(ticks, lo, hi) && PeaksFrom(c, ticks, sw, init, peaks)
    ensures var xs := AveragedPeaks(peaks, init, direction); Sum(xs) <= Multiple(|xs|, hi)
  {
    var skip := if FirstIsPeak(c, init) then 1 else 0;
    assert FirstSwitchIsPeak(init, direction) <==> FirstIsPeak(c, init);
    forall i | skip <= i < |peaks| ensures peaks[i] <= hi {
      WindowWithin(c, ticks, sw, PeakSwitch(c, init, i), lo, hi);
    }
    SumAtMost(AveragedPeaks(peaks, init, direction), hi);
  }

  lemma TroughsWithin(c: Setup, ticks: seq<Tick>, sw: seq<nat>, init: int, troughs: seq<real>,
                      direction: Direction, lo: real, hi: real)
    requires c.Valid() && c.actionMultiplier == direction.ActionMultiplier() && (init == 1 || init == -1)
    requires Positions(sw, |ticks|) && TicksWithin(ticks, lo, hi) && TroughsFrom(c, ticks, sw, init, troughs)
    ensures var xs := AveragedTroughs(troughs, init, direction); Sum(xs) >= Multiple(|xs|, lo)
  {
    var skip := if FirstIsPeak(c, init) then 0 else 1;
    assert FirstSwitchIsPeak(init, direction) <==> FirstIsPeak(c, init);
    forall i | skip <= i < |troughs| ensures troughs[i] >= lo {
      WindowWithin(c, ticks, sw, TroughSwitch(c, init, i), lo, hi);
    }
    SumAtLeast(AveragedTroughs(troughs, init, direction), lo);
  }

  /** The amplitude of a completed run is at most half the width of any bounds of its samples. */
  lemma AmplitudeWithin(c: Setup, direction: Direction, startTime: int, ticks: seq<Tick>, lo: real, hi: real)
    requires Physical(c) && c.actionMultiplier == direction.ActionMultiplier() && c.numCyclesCount > 0
    requires Run(c, startTime, ticks).completed && TicksWithin(ticks, lo, hi)
    ensures var s := Run(c, startTime, ticks);
      PvAmpRaw(s.peaks, s.troughs, s.mvSignInit, direction, c.numCyclesCount) <= (hi - lo) / 2.0
  {
    var s, live, sw := Run(c, startTime, ticks), Live(c, startTime, ticks), Switches(c, startTime, ticks);
    LiveIsPrefix(c, startTime, ticks);
    CompletedRecords(c, startTime, ticks);
    AveragedExtremesReach(c, direction, startTime, ticks);
    PeaksWithin(c, live, sw, s.mvSignInit, s.peaks, direction, lo, hi);
    TroughsWithin(c, live, sw, s.mvSignInit, s.troughs, direction, lo, hi);
    GapWithin(Sum(AveragedPeaks(s.peaks, s.mvSignInit, direction)),
              Sum(AveragedTroughs(s.troughs, s.mvSignInit, direction)),
              c.numCyclesCount, lo, hi);
  }

  lemma HalfWidth(p: Plant, mv: real, amp: real)
    requires p.Valid() && amp >= 0.0
    ensures (HullHigh(p, mv - amp, mv + amp) - HullLow(p, mv - amp, mv + amp)) / 2.0
         == Scale(Abs(p.gain), amp) + Margin(p)
  {
    assert p.Steady(mv + amp) - p.Steady(mv - amp) == 2.0 * Scale(p.gain, amp);
    if p.gain < 0.0 {
      NegatedScale(p.gain, amp);
      MonotoneScale(-p.gain, 0.0, amp);
    } else {
      MonotoneScale(p.gain, 0.0, amp);
    }
  }

  lemma GapWithin(peaksSum: real, troughsSum: real, count: nat, lo: real, hi: real)
    requires count > 0 && peaksSum <= Multiple(count, hi) && troughsSum >= Multiple(count, lo)
    ensures HalfMeanGap(peaksSum, troughsSum, count) <= (hi - lo) / 2.0
  {
    var gap, half, n := peaksSum - troughsSum, (hi - lo) / 2.0, count as real;
    assert half * (2.0 * n) == n * hi - n * lo;
    QuotientBound(-gap, -half, 2.0 * n);
    assert (-gap) / (2.0 * n) == -(gap / (2.0 * n));
  }

  /** The amplitude measured on the simulated process is positive and no larger than the process can
      produce: its gain times the relay amplitude, plus what noise can add. */
  lemma SimulatedAmplitude(config: LoopConfig, direction: Direction, initial: InitialReadings, startTime: int,
                           ticks: seq<Tick>, pvRange: PvRange, pi: real, p: Plant, noises: seq<real>)
    requires Admissible(config, initial)
    requires Run(SetupFor(config, direction, initial), startTime, ticks).completed
    requires Simulated(SetupFor(config, direction, initial), startTime, ticks, p, noises)
    ensures var c := SetupFor(config, direction, initial);
      var s := Run(c, startTime, ticks);
      var o := MeasureOscillation(s.peaks, s.troughs, s.switchTimes, s.mvSignInit, direction, config, pvRange, pi);
      && o.Some?
      && 0.0 < o.value.pvAmpRaw <= Scale(Abs(p.gain), c.relayAmpRaw) + Margin(p)
  {
    AmplitudeIsPositive(config, direction, initial, startTime, ticks, pvRange, pi);
    AdmissibleIsPhysical(config, direction, initial);
    AmplitudeInHull(SetupFor(config, direction, initial), direction, startTime, ticks, p, noises);
  }

  lemma AmplitudeInHull(c: Setup, direction: Direction, startTime: int, ticks: seq<Tick>, p: Plant, noises: seq<real>)
    requires Physical(c) && c.actionMultiplier == direction.ActionMultiplier() && c.numCyclesCount > 0
    requires Run(c, startTime, ticks).completed && Simulated(c, startTime, ticks, p, noises)
    ensures var s := Run(c, startTime, ticks);
      PvAmpRaw(s.peaks, s.troughs, s.mvSignInit, direction, c.numCyclesCount)
      <= Scale(Abs(p.gain), c.relayAmpRaw) + Margin(p)
  {
    var lo, hi := HullLow(p, c.mvIni - c.relayAmpRaw, c.mvIni + c.relayAmpRaw),
                  HullHigh(p, c.mvIni - c.relayAmpRaw, c.mvIni + c.relayAmpRaw);
    forall k | 0 <= k < |ticks| ensures lo <= ticks[k].pv <= hi {
      SimulatedPvInHull(c, startTime, ticks, p, noises, k);
    }
    AmplitudeWithin(c, direction, startTime, ticks, lo, hi);
    HalfWidth(p, c.mvIni, c.relayAmpRaw);
  }
}
