/** When a relay test on the simulated process comes to its end. A relay that acts against the process and
    swings it far enough beyond the noise completes on every long enough sequence of samples; without
    noise, no other relay does. */
module SimulatedCompletion {
  import opened LoopConfigs
  import opened MrftSpec
  import opened Traces
  import opened MrftRuns
  import opened MrftTheorems
  import opened TuningMath
  import opened EndToEnd
  import opened ConfiguredRun
  import opened SimulatorSpec
  import opened SimulatorTheorems
  import opened SimulatedRun
  import opened Timing

  // ----- What the relay does to the process -----

  /** The relay pushes the process back to where it started. */
  predicate Opposes(c: Setup, p: Plant) {
    Signed(c.actionMultiplier, p.gain) > 0.0
  }

  /** A process without noise, at rest where the test starts. */
  predicate AtRest(c: Setup, p: Plant) {
    p.Valid() && p.noiseAmplitude == 0.0 && p.initialPv == c.pvIni && p.initialMv == c.mvIni
  }

  /** The largest deviation the relay can hold the process at. */
  function Reach(c: Setup, p: Plant): real { Scale(Abs(p.gain), c.relayAmpRaw) }

  /** How far the process can be from where its outputs alone would have it, as seen from the initial
      reading: the noise, and the error of that reading. */
  function Unrest(c: Setup, p: Plant): real
    requires p.Valid()
  {
    Margin(p) + Abs(c.pvIni - p.initialPv)
  }

  /** The largest deviation of any sample. */
  function Swing(c: Setup, p: Plant): real
    requires p.Valid()
  {
    Reach(c, p) + Unrest(c, p)
  }

  /** The relay swings the process beyond the noise and the widest hysteresis. */
  predicate Dominates(c: Setup, p: Plant)
    requires p.Valid()
  {
    Scale(c.beta, Swing(c, p)) + Unrest(c, p) < Reach(c, p)
  }

  // ----- Settling -----

  /** The distance to `level` that is left of `offset` after `n` ticks. */
  function Left(decay: real, n: nat, offset: real): real { Scale(Pow(decay, n), offset) }

  /** After `n` ticks toward a level, what is left of the way there is less than the relay has to spare. */
  predicate Settled(c: Setup, p: Plant, n: nat)
    requires p.Valid()
  {
    Scale(c.beta, Swing(c, p)) + Unrest(c, p) + Left(p.decay, n, Reach(c, p) + Swing(c, p)) < Reach(c, p)
  }

  /** A number of ticks after which `width` has faded below `spare`. */
  function FadingTicks(decay: real, width: real, spare: real): nat
    requires 0.0 <= decay < 1.0 && width > 0.0 && spare > 0.0
  {
    PartIsPositive(spare, 1.0 - decay);
    QuotientSign(width, Scale(spare, 1.0 - decay));
    (width / Scale(spare, 1.0 - decay)).Floor + 1
  }

  lemma PartIsPositive(x: real, y: real)
    requires x > 0.0 && y > 0.0
    ensures Scale(x, y) > 0.0
  {
    PositiveProduct(x, y);
  }

  /** A geometric sequence falls at least as fast as a harmonic one. */
  lemma {:induction false} PowFades(decay: real, n: nat)
    requires 0.0 <= decay < 1.0
    ensures Pow(decay, n) >= 0.0
    ensures Scale(Pow(decay, n), 1.0 + Multiple(n, 1.0 - decay)) <= 1.0
  {
    if n > 0 {
      var q, rest, m := Pow(decay, n - 1), 1.0 - decay, Multiple(n - 1, 1.0 - decay);
      PowFades(decay, n - 1);
      assert Multiple(n, rest) == m + rest;
      assert m >= 0.0;
      FadeStep(q, rest, m);
    }
  }

  lemma FadeStep(q: real, rest: real, m: real)
    requires q >= 0.0 && 0.0 < rest <= 1.0 && m >= 0.0 && Scale(q, 1.0 + m) <= 1.0
    ensures Scale(1.0 - rest, q) >= 0.0
    ensures Scale(Scale(1.0 - rest, q), 1.0 + (m + rest)) <= 1.0
  {
    var loss := m * rest + rest * rest;
    assert (1.0 - rest) * (1.0 + m + rest) == 1.0 + m - loss;
    assert Scale(Scale(1.0 - rest, q), 1.0 + (m + rest)) == q * (1.0 + m) - q * loss;
  }

  lemma Fades(decay: real, width: real, spare: real, n: nat)
    requires 0.0 <= decay < 1.0 && width > 0.0 && spare > 0.0 && n >= FadingTicks(decay, width, spare)
    ensures Left(decay, n, width) < spare
  {
    var rest := 1.0 - decay;
    PowFades(decay, n);
    PartIsPositive(spare, rest);
    FloorIsExceeded(width / Scale(spare, rest), n);
    EnoughTicks(width, spare, rest, n);
    HasFaded(Pow(decay, n), width, spare, Multiple(n, rest));
  }

  lemma FloorIsExceeded(x: real, n: nat)
    requires n >= x.Floor + 1
    ensures n as real > x
  {
  }

  lemma EnoughTicks(width: real, spare: real, rest: real, n: nat)
    requires spare > 0.0 && rest > 0.0 && Scale(spare, rest) > 0.0 && n as real > width / Scale(spare, rest)
    ensures Scale(spare, Multiple(n, rest)) > width
  {
    var part := Scale(spare, rest);
    var x := width / part;
    assert Scale(x, part) == width;
    PartIsPositive(n as real - x, part);
    assert Scale(n as real - x, part) == Scale(n as real, part) - Scale(x, part);
    assert Scale(spare, Multiple(n, rest)) == Scale(n as real, part);
  }

  lemma HasFaded(q: real, width: real, spare: real, grown: real)
    requires q >= 0.0 && width > 0.0 && spare > 0.0 && Scale(spare, grown) > width && Scale(q, 1.0 + grown) <= 1.0
    ensures Scale(q, width) < spare
  {
    assert Scale(q, 1.0 + grown) == q + Scale(q, grown);
    assert Scale(spare, q + Scale(q, grown)) == Scale(spare, q) + Scale(q, Scale(spare, grown));
    MonotoneScale(spare, q + Scale(q, grown), 1.0);
    assert Scale(spare, 1.0) == spare;
    if q > 0.0 {
      PartIsPositive(spare, q);
      MonotoneScale(q, width, Scale(spare, grown));
    }
  }

  // ----- A held output carries the process across -----

  /** Samples `pace` or more positions apart are at least the noise-protection delay apart. */
  ghost predicate Paced(c: Setup, ticks: seq<Tick>, pace: nat) {
    forall i, j | 0 <= i && i + pace <= j < |ticks| ::
      ticks[j].time >= ticks[i].time + Seconds(c.noiseProtectionSecs)
  }

  /** The most samples from one switch to the next: a wait that is known from the configuration. */
  function WaitTicks(c: Setup, p: Plant, pace: nat): (r: nat)
    requires Physical(c) && p.Valid() && Dominates(c, p)
  {
    DominatingReach(c, p);
    Larger(pace, p.delay + FadingTicks(p.decay, Reach(c, p) + Swing(c, p), Spare(c, p)))
  }

  /** What the relay has to spare beyond the noise and the widest hysteresis. */
  function Spare(c: Setup, p: Plant): real
    requires p.Valid()
  {
    Reach(c, p) - Unrest(c, p) - Scale(c.beta, Swing(c, p))
  }

  lemma DominatingReach(c: Setup, p: Plant)
    requires Physical(c) && p.Valid() && Dominates(c, p)
    ensures Unrest(c, p) >= 0.0 && Swing(c, p) >= Reach(c, p) > 0.0 && Spare(c, p) > 0.0
  {
    MarginIsFixed(p);
    GainTimesAmplitude(c, p);
    MonotoneScale(c.beta, 0.0, Swing(c, p));
  }

  function Larger(x: nat, y: nat): (r: nat)
    ensures r >= x && r >= y && (r == x || r == y)
  {
    if x >= y then x else y
  }

  /** A wait that outlasts the delay between switches, the dead time and the settling. */
  ghost predicate Outlasts(wait: nat, c: Setup, p: Plant, pace: nat)
    requires p.Valid()
  {
    && wait >= 1 && wait >= pace && wait >= p.delay
    && forall m: nat | m >= wait - p.delay :: Settled(c, p, m)
  }

  lemma WaitTicksOutlast(c: Setup, p: Plant, pace: nat)
    requires Physical(c) && p.Valid() && Dominates(c, p)
    ensures Outlasts(WaitTicks(c, p, pace), c, p, pace)
  {
    DominatingReach(c, p);
    var width, spare := Reach(c, p) + Swing(c, p), Spare(c, p);
    StaysFaded(p.decay, width, spare, FadingTicks(p.decay, width, spare));
  }

  lemma StaysFaded(decay: real, width: real, spare: real, ticks: nat)
    requires 0.0 <= decay < 1.0 && width > 0.0 && spare > 0.0 && ticks == FadingTicks(decay, width, spare)
    ensures ticks >= 1
    ensures forall m: nat | m >= ticks :: Left(decay, m, width) < spare
  {
    PartIsPositive(spare, 1.0 - decay);
    QuotientSign(width, Scale(spare, 1.0 - decay));
    forall m: nat | m >= ticks ensures Left(decay, m, width) < spare {
      Fades(decay, width, spare, m);
    }
  }

  lemma LeftFacts(decay: real, n: nat, offset: real)
    ensures Left(decay, 0, offset) == offset
    ensures Left(decay, n + 1, offset) == Scale(decay, Left(decay, n, offset))
  {
    ScaleAlgebra(decay, offset, 0.0, Pow(decay, n));
  }

  /** A process value is as far from a level as `left` says, give or take the noise. */
  predicate Near(p: Plant, pv: real, level: real, left: real)
    requires p.Valid()
  {
    -Margin(p) <= pv - level - left <= Margin(p)
  }

  /** A step toward a level keeps a distance of `margin` from the noise-free approach. */
  lemma NoisyStep(p: Plant, level: real, left: real, pv: real, noise: real)
    requires p.Valid() && -p.noiseAmplitude <= noise <= p.noiseAmplitude
    requires Near(p, pv, level, left)
    ensures Near(p, Blend(p.decay, pv, level) + noise, level, Scale(p.decay, left))
  {
    var error := pv - level - left;
    MarginIsFixed(p);
    Approach(p.decay, level, left + error);
    ScaleAlgebra(p.decay, left, error, 0.0);
    MonotoneScale(p.decay, error, Margin(p));
    MonotoneScale(p.decay, -Margin(p), error);
    assert Scale(p.decay, -Margin(p)) == -Scale(p.decay, Margin(p));
  }

  /** Once the dead time has passed, a held output is approached exponentially, to within the noise. */
  lemma {:induction false} HeldApproach(p: Plant, mvs: seq<real>, noises: seq<real>, from: nat, mv: real, level: real)
    requires p.Valid() && |mvs| == |noises| && from + p.delay <= |mvs| && p.Steady(mv) == level
    requires AllWithin(noises, -p.noiseAmplitude, p.noiseAmplitude)
    requires forall i | from <= i < |mvs| :: mvs[i] == mv
    ensures var k := from + p.delay;
      Near(p, PvAfter(p, mvs, noises), level, Left(p.decay, |mvs| - k, PvAfter(p, mvs[..k], noises[..k]) - level))
  {
    var k := from + p.delay;
    var offset := PvAfter(p, mvs[..k], noises[..k]) - level;
    MarginIsFixed(p);
    if |mvs| == k {
      assert mvs[..k] == mvs && noises[..k] == noises;
      LeftFacts(p.decay, 0, offset);
    } else {
      var n := |mvs| - 1;
      assert mvs[..n][..k] == mvs[..k] && noises[..n][..k] == noises[..k];
      HeldApproach(p, mvs[..n], noises[..n], from, mv, level);
      LeftFacts(p.decay, n - k, offset);
      HeldStep(p, mvs, noises, n, level, Left(p.decay, n - k, offset));
    }
  }

  lemma HeldStep(p: Plant, mvs: seq<real>, noises: seq<real>, n: nat, level: real, left: real)
    requires p.Valid() && |mvs| == |noises| == n + 1 && p.Steady(p.Delayed(mvs, n)) == level
    requires -p.noiseAmplitude <= noises[n] <= p.noiseAmplitude
    requires Near(p, PvAfter(p, mvs[..n], noises[..n]), level, left)
    ensures Near(p, PvAfter(p, mvs, noises), level, Scale(p.decay, left))
  {
    NoisyStep(p, level, left, PvAfter(p, mvs[..n], noises[..n]), noises[n]);
  }

  /** The output has been held since the last switch. */
  lemma {:induction false} HeldSince(c: Setup, startTime: int, ticks: seq<Tick>, j: nat)
    requires j <= |ticks|
    requires var sw := Switches(c, startTime, ticks); sw == [] || sw[|sw| - 1] < j
    ensures Switches(c, startTime, ticks[..j]) == Switches(c, startTime, ticks)
    ensures Run(c, startTime, ticks[..j]).mvCurrent == Run(c, startTime, ticks).mvCurrent
  {
    if j == |ticks| {
      assert ticks[..j] == ticks;
    } else {
      var n := |ticks| - 1;
      assert ticks[..n][..j] == ticks[..j];
      HeldSince(c, startTime, ticks[..n], j);
    }
  }

  lemma SteadyAtLevel(c: Setup, p: Plant, sign: int)
    requires p.Valid() && p.initialMv == c.mvIni
    ensures p.Steady(c.mvIni + Signed(sign, c.relayAmpRaw)) == p.initialPv + Signed(sign, Scale(p.gain, c.relayAmpRaw))
  {
  }

  lemma GainTimesAmplitude(c: Setup, p: Plant)
    requires Physical(c)
    ensures Reach(c, p) == Abs(Scale(p.gain, c.relayAmpRaw))
  {
    MonotoneScale(Abs(p.gain), 0.0, c.relayAmpRaw);
    NegatedScale(p.gain, c.relayAmpRaw);
  }

  lemma NoMargin(p: Plant)
    requires p.Valid() && p.noiseAmplitude == 0.0
    ensures Margin(p) == 0.0
  {
    ZeroQuotient(1.0 - p.decay);
  }

  lemma ZeroQuotient(y: real)
    requires y > 0.0
    ensures 0.0 / y == 0.0
  {
  }

  /** No sample is further from the start than the relay and the noise can take it. */
  lemma SamplesWithinReach(c: Setup, startTime: int, ticks: seq<Tick>, p: Plant, noises: seq<real>)
    requires Physical(c) && Simulated(c, startTime, ticks, p, noises)
    ensures forall k | 0 <= k < |ticks| ::
      Abs(ticks[k].pv - p.initialPv) <= Reach(c, p) + Margin(p) && Abs(ticks[k].pv - c.pvIni) <= Swing(c, p)
  {
    forall k | 0 <= k < |ticks|
      ensures Abs(ticks[k].pv - p.initialPv) <= Reach(c, p) + Margin(p) && Abs(ticks[k].pv - c.pvIni) <= Swing(c, p)
    {
      SimulatedPvInHull(c, startTime, ticks, p, noises, k);
      SteadyAtLevel(c, p, 1);
      SteadyAtLevel(c, p, -1);
      GainTimesAmplitude(c, p);
    }
  }

  lemma DeviationWithin(pvs: seq<real>, center: real, reach: real)
    requires reach >= 0.0 && forall i | 0 <= i < |pvs| :: Abs(pvs[i] - center) <= reach
    ensures MaxDeviation(pvs, center) <= reach
  {
    DeviationIsLargest(pvs, center);
  }

  /** A process close enough to an opposing relay level is past the hysteresis. */
  lemma CloseHasCrossed(c: Setup, push: real, sign: int, pv: real, hysteresis: real)
    requires Physical(c) && (sign == 1 || sign == -1) && Signed(c.actionMultiplier, push) > 0.0
    requires Abs(pv - (c.pvIni + Signed(sign, push))) + hysteresis < Abs(push)
    ensures NextSign(c, pv, hysteresis, sign) == -sign
  {
  }

  lemma LeftOfDistance(decay: real, n: nat, distance: real, width: real)
    requires 0.0 <= decay < 1.0 && -width <= distance <= width
    ensures -Left(decay, n, width) <= Left(decay, n, distance) <= Left(decay, n, width)
  {
    PowFades(decay, n);
    MonotoneScale(Pow(decay, n), distance, width);
    MonotoneScale(Pow(decay, n), -width, distance);
    assert Scale(Pow(decay, n), -width) == -Scale(Pow(decay, n), width);
  }

  // ----- An opposing relay keeps switching -----

  lemma SimulatedPrefix(c: Setup, startTime: int, ticks: seq<Tick>, p: Plant, noises: seq<real>, n: nat)
    requires Simulated(c, startTime, ticks, p, noises) && n <= |ticks|
    ensures Simulated(c, startTime, ticks[..n], p, noises[..n])
  {
    forall k | 0 <= k < n
      ensures ticks[..n][k].pv == PvAfter(p, InForce(c, startTime, ticks[..n])[..k + 1], noises[..n][..k + 1])
    {
      InForcePrefix(c, startTime, ticks, n, k + 1);
      assert noises[..n][..k + 1] == noises[..k + 1];
    }
  }

  lemma InForcePrefix(c: Setup, startTime: int, ticks: seq<Tick>, n: nat, k: nat)
    requires k <= n <= |ticks|
    ensures InForce(c, startTime, ticks[..n])[..k] == InForce(c, startTime, ticks)[..k]
  {
    forall j | 0 <= j < k ensures InForce(c, startTime, ticks[..n])[j] == InForce(c, startTime, ticks)[j] {
      assert ticks[..n][..j] == ticks[..j];
    }
  }

  /** The output in force after a switch is the one it set, as long as no other follows. */
  lemma InForceSince(c: Setup, startTime: int, ticks: seq<Tick>, n: nat, last: nat)
    requires |ticks| == n + 1
    requires var sw := Switches(c, startTime, ticks[..n]); sw != [] && sw[|sw| - 1] == last
    ensures forall i | last + 1 <= i <= n :: InForce(c, startTime, ticks)[i] == Run(c, startTime, ticks[..n]).mvCurrent
  {
    forall i | last + 1 <= i <= n
      ensures InForce(c, startTime, ticks)[i] == Run(c, startTime, ticks[..n]).mvCurrent
    {
      assert ticks[..n][..i] == ticks[..i];
      HeldSince(c, startTime, ticks[..n], i);
    }
  }

  lemma SampleIsProcessValue(c: Setup, startTime: int, ticks: seq<Tick>, p: Plant, noises: seq<real>, k: nat)
    requires Simulated(c, startTime, ticks, p, noises) && k < |ticks|
    ensures ticks[k].pv == PvAfter(p, InForce(c, startTime, ticks)[..k + 1], noises[..k + 1])
  {
  }

  /** An opposing process that has settled has crossed the hysteresis. */
  lemma HasCrossed(c: Setup, p: Plant, sign: int, waited: nat, start: real, pv: real, hysteresis: real)
    requires Physical(c) && p.Valid() && Opposes(c, p) && c.relayAmpRaw > 0.0 && (sign == 1 || sign == -1)
    requires Settled(c, p, waited) && hysteresis <= Scale(c.beta, Swing(c, p))
    requires Abs(start - p.initialPv) <= Reach(c, p) + Margin(p)
    requires var level := p.initialPv + Signed(sign, Scale(p.gain, c.relayAmpRaw));
      Near(p, pv, level, Left(p.decay, waited, start - level))
    ensures NextSign(c, pv, hysteresis, sign) == -sign
  {
    var push := Scale(p.gain, c.relayAmpRaw);
    var level := p.initialPv + Signed(sign, push);
    GainTimesAmplitude(c, p);
    PushOpposes(c, p);
    LeftOfDistance(p.decay, waited, start - level, Reach(c, p) + Swing(c, p));
    CloseHasCrossed(c, push, sign, pv, hysteresis);
  }

  lemma HeldHasCrossed(c: Setup, p: Plant, mvs: seq<real>, noises: seq<real>, from: nat, waited: nat,
                       sign: int, start: real, hysteresis: real)
    requires Physical(c) && p.Valid() && p.initialMv == c.mvIni
    requires Opposes(c, p) && c.relayAmpRaw > 0.0 && (sign == 1 || sign == -1)
    requires |mvs| == |noises| == from + p.delay + waited
    requires AllWithin(noises, -p.noiseAmplitude, p.noiseAmplitude)
    requires forall i | from <= i < |mvs| :: mvs[i] == c.mvIni + Signed(sign, c.relayAmpRaw)
    requires Settled(c, p, waited) && hysteresis <= Scale(c.beta, Swing(c, p))
    requires start == PvAfter(p, mvs[..from + p.delay], noises[..from + p.delay])
    requires Abs(start - p.initialPv) <= Reach(c, p) + Margin(p)
    ensures NextSign(c, PvAfter(p, mvs, noises), hysteresis, sign) == -sign
  {
    var level := p.initialPv + Signed(sign, Scale(p.gain, c.relayAmpRaw));
    SteadyAtLevel(c, p, sign);
    HeldApproach(p, mvs, noises, from, c.mvIni + Signed(sign, c.relayAmpRaw), level);
    HasCrossed(c, p, sign, waited, start, PvAfter(p, mvs, noises), hysteresis);
  }

  lemma CrossedBySample(c: Setup, startTime: int, ticks: seq<Tick>, n: nat, p: Plant, noises: seq<real>,
                        last: nat, waited: nat, sign: int, hysteresis: real)
    requires Physical(c) && Opposes(c, p) && c.relayAmpRaw > 0.0 && (sign == 1 || sign == -1)
    requires Simulated(c, startTime, ticks, p, noises) && |ticks| == n + 1 && last + p.delay + waited == n
    requires forall i | last + 1 <= i <= n ::
      InForce(c, startTime, ticks)[i] == c.mvIni + Signed(sign, c.relayAmpRaw)
    requires Settled(c, p, waited) && hysteresis <= Scale(c.beta, Swing(c, p))
    ensures NextSign(c, ticks[n].pv, hysteresis, sign) == -sign
  {
    var mvs, k := InForce(c, startTime, ticks), last + 1 + p.delay;
    SamplesWithinReach(c, startTime, ticks, p, noises);
    SampleIsProcessValue(c, startTime, ticks, p, noises, n);
    SampleIsProcessValue(c, startTime, ticks, p, noises, k - 1);
    assert mvs[..n + 1] == mvs && noises[..n + 1] == noises;
    HeldHasCrossed(c, p, mvs, noises, last + 1, waited, sign, ticks[k - 1].pv, hysteresis);
  }

  /** On an opposing process, a relay that has waited out the dead time and the settling wants to reverse. */
  lemma WantsReversal(c: Setup, startTime: int, ticks: seq<Tick>, n: nat, p: Plant, noises: seq<real>,
                      last: nat, waited: nat)
    requires Physical(c) && c.relayAmpRaw > 0.0 && Opposes(c, p)
    requires Simulated(c, startTime, ticks, p, noises) && Settled(c, p, waited)
    requires |ticks| == n + 1 && !Run(c, startTime, ticks[..n]).completed && last + p.delay + waited == n
    requires var sw := Switches(c, startTime, ticks[..n]); sw != [] && last == sw[|sw| - 1]
    ensures var s, sw := Run(c, startTime, ticks[..n]), Switches(c, startTime, ticks[..n]);
      var sign := SignAt(s.mvSignInit, |sw| - 1);
      NextSign(c, ticks[n].pv, Observe(c, s, ticks[n]).hysteresis, sign) == -sign
  {
    var s, sw := Run(c, startTime, ticks[..n]), Switches(c, startTime, ticks[..n]);
    RunningCounted(c, startTime, ticks[..n]);
    HoldsLevel(c, ticks[..n], sw, s);
    InForceSince(c, startTime, ticks, n, last);
    HysteresisWithin(c, startTime, ticks, n, p, noises);
    CrossedBySample(c, startTime, ticks, n, p, noises, last, waited, SignAt(s.mvSignInit, |sw| - 1),
                    Observe(c, s, ticks[n]).hysteresis);
  }

  /** On an opposing process, a relay that has waited long enough switches on its next sample. */
  lemma MustSwitch(c: Setup, startTime: int, ticks: seq<Tick>, n: nat, p: Plant, noises: seq<real>,
                   pace: nat, wait: nat)
    requires Physical(c) && c.relayAmpRaw >= MIN_MV_CHANGE && Opposes(c, p)
    requires Simulated(c, startTime, ticks, p, noises) && Paced(c, ticks, pace) && Outlasts(wait, c, p, pace)
    requires |ticks| == n + 1 && !Run(c, startTime, ticks[..n]).completed
    requires var sw := Switches(c, startTime, ticks[..n]); sw != [] && n >= sw[|sw| - 1] + wait
    ensures Switching(c, Run(c, startTime, ticks[..n]), ticks[n])
  {
    var sw := Switches(c, startTime, ticks[..n]);
    var last := sw[|sw| - 1];
    RunningCounted(c, startTime, ticks[..n]);
    WaitSettles(wait, c, p, pace, n - last - p.delay);
    WantsReversal(c, startTime, ticks, n, p, noises, last, n - last - p.delay);
    SwitchesWhenDue(c, ticks, n, sw, Run(c, startTime, ticks[..n]), pace);
  }

  lemma WaitSettles(wait: nat, c: Setup, p: Plant, pace: nat, n: nat)
    requires p.Valid() && Outlasts(wait, c, p, pace) && n + p.delay >= wait
    ensures Settled(c, p, n)
  {
  }

  lemma SwitchesWhenDue(c: Setup, ticks: seq<Tick>, n: nat, sw: seq<nat>, s: State, pace: nat)
    requires Physical(c) && |ticks| == n + 1 && Paced(c, ticks, pace)
    requires Counted(c, ticks[..n], sw, s) && sw != [] && !s.completed && sw[|sw| - 1] + pace <= n
    requires var sign := SignAt(s.mvSignInit, |sw| - 1);
      NextSign(c, ticks[n].pv, Observe(c, s, ticks[n]).hysteresis, sign) == -sign
    ensures Switching(c, s, ticks[n])
  {
    SwitchingIsReversal(c, ticks[..n], sw, s, ticks[n]);
    assert ticks[n].time >= ticks[sw[|sw| - 1]].time + Seconds(c.noiseProtectionSecs);
  }

  /** Between its first switch and its last, the relay holds the level its sign says. */
  lemma HoldsLevel(c: Setup, ticks: seq<Tick>, sw: seq<nat>, s: State)
    requires Counted(c, ticks, sw, s) && !s.completed && sw != []
    ensures var sign := SignAt(s.mvSignInit, |sw| - 1);
      (sign == 1 || sign == -1) && s.mvCurrent == c.mvIni + Signed(sign, c.relayAmpRaw)
  {
  }

  lemma RunningCounted(c: Setup, startTime: int, ticks: seq<Tick>)
    requires c.Valid() && !Run(c, startTime, ticks).completed
    ensures Counted(c, ticks, Switches(c, startTime, ticks), Run(c, startTime, ticks))
  {
    RunCounted(c, startTime, ticks);
    LiveWhileRunning(c, startTime, ticks);
  }

  lemma PushOpposes(c: Setup, p: Plant)
    requires c.relayAmpRaw > 0.0 && Opposes(c, p)
    ensures Signed(c.actionMultiplier, Scale(p.gain, c.relayAmpRaw)) > 0.0
  {
    PartIsPositive(Signed(c.actionMultiplier, p.gain), c.relayAmpRaw);
    NegatedScale(p.gain, c.relayAmpRaw);
  }

  lemma HysteresisWithin(c: Setup, startTime: int, ticks: seq<Tick>, n: nat, p: Plant, noises: seq<real>)
    requires Physical(c) && Simulated(c, startTime, ticks, p, noises)
    requires |ticks| == n + 1 && !Run(c, startTime, ticks[..n]).completed
    ensures Observe(c, Run(c, startTime, ticks[..n]), ticks[n]).hysteresis <= Scale(c.beta, Swing(c, p))
  {
    var sw := Switches(c, startTime, ticks[..n]);
    RunInvariant(c, startTime, ticks[..n]);
    LiveWhileRunning(c, startTime, ticks[..n]);
    HysteresisIsBatch(c, ticks[..n], sw, Run(c, startTime, ticks[..n]), ticks[n]);
    SamplesWithinReach(c, startTime, ticks, p, noises);
    BatchWithin(c, ticks, n, sw, Swing(c, p));
  }

  /** Where the samples since the last switch begin. */
  function CycleStart(sw: seq<nat>): nat { if sw == [] then 0 else sw[|sw| - 1] + 1 }

  lemma CycleSamples(ticks: seq<Tick>, sw: seq<nat>)
    requires Positions(sw, |ticks|)
    ensures CycleStart(sw) <= |ticks|
    ensures CycleWindow(ticks, sw) == Pvs(ticks[CycleStart(sw)..])
  {
    assert ticks[0..] == ticks;
  }

  lemma PvsFrom(ticks: seq<Tick>, from: nat)
    requires from <= |ticks|
    ensures var pvs := Pvs(ticks[from..]);
      |pvs| == |ticks| - from && forall i | 0 <= i < |pvs| :: pvs[i] == ticks[from + i].pv
  {
  }

  lemma BatchWithin(c: Setup, ticks: seq<Tick>, n: nat, sw: seq<nat>, reach: real)
    requires Physical(c) && |ticks| == n + 1 && Positions(sw, n)
    requires forall k | 0 <= k < |ticks| :: Abs(ticks[k].pv - c.pvIni) <= reach
    ensures BatchHysteresis(c, CycleWindow(ticks[..n], sw) + [ticks[n].pv]) <= Scale(c.beta, reach)
  {
    var cycle := CycleWindow(ticks[..n], sw);
    var since := cycle + [ticks[n].pv];
    CycleSamples(ticks[..n], sw);
    PvsFrom(ticks[..n], CycleStart(sw));
    forall i | 0 <= i < |since| ensures Abs(since[i] - c.pvIni) <= reach {
      if i < |cycle| {
        assert since[i] == ticks[..n][CycleStart(sw) + i].pv == ticks[CycleStart(sw) + i].pv;
      }
    }
    DeviationWithin(since, c.pvIni, reach);
    MonotoneScale(c.beta, MaxDeviation(since, c.pvIni), reach);
  }

  /** So many waits of `wait` samples. */
  function Waits(n: nat, wait: nat): nat { n * wait }

  lemma WaitsGrow(n: nat, m: nat, wait: nat)
    requires n <= m
    ensures Waits(n, wait) <= Waits(m, wait) && Waits(n + 1, wait) == Waits(n, wait) + wait
  {
  }

  /** A test of an opposing process, sampled often enough. */
  ghost predicate Driven(c: Setup, startTime: int, ticks: seq<Tick>, p: Plant, noises: seq<real>,
                         pace: nat, wait: nat) {
    && Physical(c) && c.relayAmpRaw >= MIN_MV_CHANGE && Opposes(c, p)
    && Simulated(c, startTime, ticks, p, noises) && Paced(c, ticks, pace) && Outlasts(wait, c, p, pace)
  }

  lemma DrivenPrefix(c: Setup, startTime: int, ticks: seq<Tick>, p: Plant, noises: seq<real>,
                     pace: nat, wait: nat, n: nat)
    requires Driven(c, startTime, ticks, p, noises, pace, wait) && n <= |ticks|
    ensures |noises| == |ticks| && Driven(c, startTime, ticks[..n], p, noises[..n], pace, wait)
  {
    SimulatedPrefix(c, startTime, ticks, p, noises, n);
    PacedPrefix(c, ticks, pace, n);
  }

  /** No two switches, and no switch and the end of `n` samples, are further apart than the wait. */
  ghost predicate InTime(sw: seq<nat>, n: nat, wait: nat) {
    sw != [] && n <= sw[|sw| - 1] + wait && sw[|sw| - 1] <= Waits(|sw| - 1, wait)
  }

  lemma InTimeStep(sw: seq<nat>, n: nat, wait: nat)
    requires InTime(sw, n, wait) && wait >= 1
    ensures InTime(sw + [n], n + 1, wait)
    ensures n < sw[|sw| - 1] + wait ==> InTime(sw, n + 1, wait)
  {
    WaitsGrow(|sw| - 1, |sw|, wait);
  }

  /** Until the test completes, its switches keep coming. */
  lemma {:induction false} SwitchesKeepComing(c: Setup, startTime: int, ticks: seq<Tick>, p: Plant,
                                              noises: seq<real>, pace: nat, wait: nat)
    requires Driven(c, startTime, ticks, p, noises, pace, wait)
    requires ticks != [] && !Run(c, startTime, ticks).completed
    ensures InTime(Switches(c, startTime, ticks), |ticks|, wait)
  {
    var n := |ticks| - 1;
    var sw := Switches(c, startTime, ticks[..n]);
    if n == 0 {
      StartsOnFirstSampleOrNever(c, startTime, ticks);
      assert ticks[..0] == [];
    } else {
      DrivenPrefix(c, startTime, ticks, p, noises, pace, wait, n);
      SwitchesKeepComing(c, startTime, ticks[..n], p, noises[..n], pace, wait);
      InTimeStep(sw, n, wait);
      if n == sw[|sw| - 1] + wait {
        MustSwitch(c, startTime, ticks, n, p, noises, pace, wait);
      }
    }
  }

  lemma PacedPrefix(c: Setup, ticks: seq<Tick>, pace: nat, n: nat)
    requires Paced(c, ticks, pace) && n <= |ticks|
    ensures Paced(c, ticks[..n], pace)
  {
  }

  lemma RunningTestIsShort(c: Setup, startTime: int, ticks: seq<Tick>, p: Plant, noises: seq<real>,
                           pace: nat, wait: nat)
    requires Driven(c, startTime, ticks, p, noises, pace, wait) && c.Total() > 1
    requires !Run(c, startTime, ticks).completed
    ensures |ticks| <= Waits(c.Total() - 1, wait)
  {
    if ticks != [] {
      var sw := Switches(c, startTime, ticks);
      SwitchesKeepComing(c, startTime, ticks, p, noises, pace, wait);
      RunCounted(c, startTime, ticks);
      WaitsGrow(|sw| - 1, |sw|, wait);
      WaitsGrow(|sw|, c.Total() - 1, wait);
    }
  }

  // ----- A relay that does not oppose the process never reverses -----

  /** Whether a PV is where a relay that holds sign 1 pushes it, or where the test started. */
  predicate WithPush(c: Setup, pv: real) {
    if c.actionMultiplier == 1 then pv <= c.pvIni else pv >= c.pvIni
  }

  /** While the relay holds no other output than its first, the process moves the way the relay
      pushes, if it moves at all. */
  lemma DriftsAway(c: Setup, startTime: int, ticks: seq<Tick>, p: Plant, noises: seq<real>, n: nat)
    requires Physical(c) && AtRest(c, p) && !Opposes(c, p) && Simulated(c, startTime, ticks, p, noises)
    requires |ticks| == n + 1 && AllWithin(InForce(c, startTime, ticks), c.mvIni, c.mvIni + c.relayAmpRaw)
    ensures WithPush(c, ticks[n].pv)
  {
    var mvs := InForce(c, startTime, ticks);
    SampleIsProcessValue(c, startTime, ticks, p, noises, n);
    assert mvs[..n + 1] == mvs && noises[..n + 1] == noises;
    PvStaysInHull(p, mvs, noises, c.mvIni, c.mvIni + c.relayAmpRaw);
    DriftHull(c, p);
  }

  /** Both outputs keep the process with the push. */
  lemma DriftHull(c: Setup, p: Plant)
    requires Physical(c) && AtRest(c, p) && !Opposes(c, p)
    ensures if c.actionMultiplier == 1 then HullHigh(p, c.mvIni, c.mvIni + c.relayAmpRaw) <= c.pvIni
            else HullLow(p, c.mvIni, c.mvIni + c.relayAmpRaw) >= c.pvIni
  {
    NoMargin(p);
    SteadyAtLevel(c, p, 1);
    if p.gain >= 0.0 {
      MonotoneScale(p.gain, 0.0, c.relayAmpRaw);
    } else {
      MonotoneScale(-p.gain, 0.0, c.relayAmpRaw);
      NegatedScale(p.gain, c.relayAmpRaw);
    }
  }

  /** Where a run whose relay has not reversed stands. */
  ghost predicate OneSided(sw: seq<nat>, s: State) {
    |sw| <= 1 && (sw != [] ==> s.mvSignInit == 1)
  }

  lemma OneSidedInForce(c: Setup, startTime: int, ticks: seq<Tick>, k: nat)
    requires Physical(c) && c.Total() > 1 && k <= |ticks|
    requires OneSided(Switches(c, startTime, ticks[..k]), Run(c, startTime, ticks[..k]))
    ensures c.mvIni <= Run(c, startTime, ticks[..k]).mvCurrent <= c.mvIni + c.relayAmpRaw
  {
    RunCounted(c, startTime, ticks[..k]);
  }

  lemma FirstSignIsUp(c: Setup, s: State, t: Tick)
    requires Physical(c) && Counted(c, [], [], s) && Tracked(c, [], [], s) && Switching(c, s, t) && WithPush(c, t.pv)
    ensures Step(c, s, t).0.mvSignInit == 1
  {
    FirstSwitchRule(c, s, t);
    SwitchEffect(c, s, t);
  }

  lemma HoldsUp(c: Setup, ticks: seq<Tick>, sw: seq<nat>, s: State, t: Tick)
    requires Physical(c) && Counted(c, ticks, sw, s) && Tracked(c, ticks, sw, s)
    requires |sw| == 1 && s.mvSignInit == 1 && !s.completed && WithPush(c, t.pv)
    ensures !Switching(c, s, t) && Step(c, s, t).0.mvSignInit == 1
  {
    SwitchingIsRelayRule(c, ticks, sw, s, t);
    HysteresisBound(c, CycleWindow(ticks, sw) + [t.pv]);
  }

  /** A sample on the side the relay already pushes to leaves it as it is. */
  lemma OneSidedStep(c: Setup, startTime: int, ticks: seq<Tick>, n: nat)
    requires Physical(c) && c.Total() > 1 && |ticks| == n + 1 && WithPush(c, ticks[n].pv)
    requires OneSided(Switches(c, startTime, ticks[..n]), Run(c, startTime, ticks[..n]))
    ensures OneSided(Switches(c, startTime, ticks), Run(c, startTime, ticks))
  {
    var s, sw := Run(c, startTime, ticks[..n]), Switches(c, startTime, ticks[..n]);
    RunInvariant(c, startTime, ticks[..n]);
    if !s.completed {
      LiveWhileRunning(c, startTime, ticks[..n]);
      if sw != [] {
        HoldsUp(c, ticks[..n], sw, s, ticks[n]);
      } else if Switching(c, s, ticks[n]) {
        SwitchReverses(c, ticks[..n], sw, s, ticks[n]);
        StartsOnFirst(c, startTime, ticks[..n]);
        FirstSignIsUp(c, s, ticks[n]);
      }
    }
  }

  /** A relay large enough to switch has done so once it has seen a sample. */
  lemma StartsOnFirst(c: Setup, startTime: int, ticks: seq<Tick>)
    requires c.Valid() && Abs(c.relayAmpRaw) >= MIN_MV_CHANGE && Switches(c, startTime, ticks) == []
    ensures ticks == []
  {
    if ticks != [] {
      StartsOnFirstSampleOrNever(c, startTime, ticks);
    }
  }

  lemma {:induction false} NeverReverses(c: Setup, startTime: int, ticks: seq<Tick>, p: Plant, noises: seq<real>)
    requires Physical(c) && c.Total() > 1 && AtRest(c, p) && !Opposes(c, p)
    requires Simulated(c, startTime, ticks, p, noises)
    ensures OneSided(Switches(c, startTime, ticks), Run(c, startTime, ticks))
    decreases |ticks|
  {
    if ticks != [] {
      var n := |ticks| - 1;
      forall k | 0 <= k < |ticks|
        ensures OneSided(Switches(c, startTime, ticks[..k]), Run(c, startTime, ticks[..k]))
        ensures c.mvIni <= InForce(c, startTime, ticks)[k] <= c.mvIni + c.relayAmpRaw
      {
        SimulatedPrefix(c, startTime, ticks, p, noises, k);
        NeverReverses(c, startTime, ticks[..k], p, noises[..k]);
        OneSidedInForce(c, startTime, ticks, k);
      }
      DriftsAway(c, startTime, ticks, p, noises, n);
      OneSidedStep(c, startTime, ticks, n);
    }
  }

  // ----- Completion -----

  /** A large enough relay that opposes the process and dominates its noise completes every test with
      enough samples, whatever the noise does. Enough is one wait for each switch after the first: the
      dead time and the settling, or the delay between switches. There is such a wait, by
      `WaitTicksOutlast`. */
  lemma OpposedTestCompletes(c: Setup, startTime: int, ticks: seq<Tick>, p: Plant, noises: seq<real>,
                             pace: nat, wait: nat)
    requires Physical(c) && c.Total() > 1 && c.relayAmpRaw >= MIN_MV_CHANGE && Opposes(c, p)
    requires Simulated(c, startTime, ticks, p, noises) && Paced(c, ticks, pace)
    requires Outlasts(wait, c, p, pace) && |ticks| > Waits(c.Total() - 1, wait)
    ensures Run(c, startTime, ticks).completed
  {
    if !Run(c, startTime, ticks).completed {
      RunningTestIsShort(c, startTime, ticks, p, noises, pace, wait);
    }
  }

  /** Without noise, a relay that opposes the process dominates it. */
  lemma QuietIsDominated(c: Setup, p: Plant)
    requires Physical(c) && AtRest(c, p) && Opposes(c, p) && c.relayAmpRaw > 0.0
    ensures Dominates(c, p)
  {
    NoMargin(p);
    GainTimesAmplitude(c, p);
    PushOpposes(c, p);
    Shrinks(c.beta, Reach(c, p));
  }

  /** Without noise, a test of the simulated process with enough samples completes exactly when its
      amplitude is large enough to count and the relay acts against the process; otherwise no number of
      samples completes it. */
  lemma SimulatedTestCompletes(c: Setup, startTime: int, ticks: seq<Tick>, p: Plant, noises: seq<real>, pace: nat)
    requires Physical(c) && c.Total() > 1 && AtRest(c, p)
    requires Simulated(c, startTime, ticks, p, noises) && Paced(c, ticks, pace)
    ensures c.relayAmpRaw >= MIN_MV_CHANGE && Opposes(c, p) ==> Dominates(c, p)
    ensures Run(c, startTime, ticks).completed ==> c.relayAmpRaw >= MIN_MV_CHANGE && Opposes(c, p)
    ensures c.relayAmpRaw >= MIN_MV_CHANGE && Opposes(c, p) && |ticks| > Waits(c.Total() - 1, WaitTicks(c, p, pace)) ==>
      Run(c, startTime, ticks).completed
  {
    RunCounted(c, startTime, ticks);
    if !Opposes(c, p) {
      NeverReverses(c, startTime, ticks, p, noises);
    } else if c.relayAmpRaw >= MIN_MV_CHANGE {
      QuietIsDominated(c, p);
      WaitTicksOutlast(c, p, pace);
      if |ticks| > Waits(c.Total() - 1, WaitTicks(c, p, pace)) {
        OpposedTestCompletes(c, startTime, ticks, p, noises, pace, WaitTicks(c, p, pace));
      }
    }
  }

  // ----- Noise that the relay does not dominate -----

  /** Samples at the given times that never leave the initial PV. */
  function Stalled(c: Setup, times: seq<int>): (r: seq<Tick>)
    ensures |r| == |times|
  {
    seq(|times|, k requires 0 <= k < |times| => Tick(times[k], c.pvIni))
  }

  /** The noise that cancels what the outputs in force do to the process. */
  function Cancelling(c: Setup, startTime: int, p: Plant, ticks: seq<Tick>): (r: seq<real>)
    ensures |r| == |ticks|
  {
    seq(|ticks|, k requires 0 <= k < |ticks| =>
      Scale(1.0 - p.decay, c.pvIni - p.Steady(p.Delayed(InForce(c, startTime, ticks), k))))
  }

  lemma {:induction false} CancelledStaysPut(p: Plant, mvs: seq<real>, noises: seq<real>, pv: real)
    requires |mvs| == |noises| && p.initialPv == pv
    requires forall k | 0 <= k < |mvs| :: noises[k] == Scale(1.0 - p.decay, pv - p.Steady(p.Delayed(mvs, k)))
    ensures PvAfter(p, mvs, noises) == pv
  {
    if mvs != [] {
      var n := |mvs| - 1;
      CancelledStaysPut(p, mvs[..n], noises[..n], pv);
      Cancels(p.decay, pv, p.Steady(p.Delayed(mvs, n)));
    }
  }

  lemma Cancels(decay: real, pv: real, target: real)
    ensures Blend(decay, pv, target) + Scale(1.0 - decay, pv - target) == pv
  {
  }

  lemma CancellingIsNoise(c: Setup, startTime: int, p: Plant, ticks: seq<Tick>)
    requires Physical(c) && p.Valid() && p.initialPv == c.pvIni && p.initialMv == c.mvIni
    requires Margin(p) >= Reach(c, p)
    ensures AllWithin(Cancelling(c, startTime, p, ticks), -p.noiseAmplitude, p.noiseAmplitude)
  {
    var mvs := InForce(c, startTime, ticks);
    InForceIsBounded(c, startTime, ticks);
    forall k | 0 <= k < |ticks|
      ensures -p.noiseAmplitude <= Cancelling(c, startTime, p, ticks)[k] <= p.noiseAmplitude
    {
      var mv := p.Delayed(mvs, k);
      SteadyBetween(p, mv, c.mvIni - c.relayAmpRaw, c.mvIni + c.relayAmpRaw);
      SteadyAtLevel(c, p, 1);
      SteadyAtLevel(c, p, -1);
      GainTimesAmplitude(c, p);
      WithinAmplitude(p, c.pvIni - p.Steady(mv));
    }
  }

  lemma WithinAmplitude(p: Plant, x: real)
    requires p.Valid() && -Margin(p) <= x <= Margin(p)
    ensures -p.noiseAmplitude <= Scale(1.0 - p.decay, x) <= p.noiseAmplitude
  {
    var rest := 1.0 - p.decay;
    MarginIsFixed(p);
    MonotoneScale(rest, x, Margin(p));
    MonotoneScale(rest, -Margin(p), x);
    assert Scale(rest, Margin(p)) == Margin(p) - Scale(p.decay, Margin(p));
    assert Scale(rest, -Margin(p)) == -Scale(rest, Margin(p));
  }

  lemma {:induction false} StalledIsOneSided(c: Setup, startTime: int, times: seq<int>)
    requires Physical(c) && c.Total() > 1
    ensures OneSided(Switches(c, startTime, Stalled(c, times)), Run(c, startTime, Stalled(c, times)))
  {
    if times != [] {
      var n := |times| - 1;
      StalledIsOneSided(c, startTime, times[..n]);
      assert Stalled(c, times)[..n] == Stalled(c, times[..n]);
      OneSidedStep(c, startTime, Stalled(c, times), n);
    }
  }

  /** Noise as strong as the relay can hold it still for ever: at any times there is a simulated test, of
      any process, that shows no deviation at all and never completes. */
  lemma NoiseCanStall(c: Setup, startTime: int, p: Plant, times: seq<int>)
    requires Physical(c) && c.Total() > 1 && p.Valid() && p.initialPv == c.pvIni && p.initialMv == c.mvIni
    requires Margin(p) >= Reach(c, p)
    ensures var ticks := Stalled(c, times);
      && Simulated(c, startTime, ticks, p, Cancelling(c, startTime, p, ticks))
      && !Run(c, startTime, ticks).completed
  {
    var ticks := Stalled(c, times);
    var mvs, noises := InForce(c, startTime, ticks), Cancelling(c, startTime, p, ticks);
    CancellingIsNoise(c, startTime, p, ticks);
    forall k | 0 <= k < |ticks| ensures ticks[k].pv == PvAfter(p, mvs[..k + 1], noises[..k + 1]) {
      CancelledStaysPut(p, mvs[..k + 1], noises[..k + 1], c.pvIni);
    }
    StalledIsOneSided(c, startTime, times);
    RunCounted(c, startTime, ticks);
  }

  // ----- The test that a fixed-step simulation runs -----

  /** The samples of the engine and the process driving each other, at the given times. */
  function ClosedLoop(c: Setup, startTime: int, p: Plant, times: seq<int>, noises: seq<real>): (r: seq<Tick>)
    requires |times| == |noises|
    ensures |r| == |times| && forall i | 0 <= i < |r| :: r[i].time == times[i]
  {
    if times == [] then []
    else
      var n := |times| - 1;
      var before := ClosedLoop(c, startTime, p, times[..n], noises[..n]);
      var mvs := InForce(c, startTime, before) + [Run(c, startTime, before).mvCurrent];
      before + [Tick(times[n], PvAfter(p, mvs, noises))]
  }

  lemma {:induction false} ClosedLoopIsSimulated(c: Setup, startTime: int, p: Plant, times: seq<int>, noises: seq<real>)
    requires p.Valid() && p.initialMv == c.mvIni
    requires |times| == |noises| && AllWithin(noises, -p.noiseAmplitude, p.noiseAmplitude)
    ensures Simulated(c, startTime, ClosedLoop(c, startTime, p, times, noises), p, noises)
  {
    if times != [] {
      var n := |times| - 1;
      var before := ClosedLoop(c, startTime, p, times[..n], noises[..n]);
      var ticks := ClosedLoop(c, startTime, p, times, noises);
      ClosedLoopIsSimulated(c, startTime, p, times[..n], noises[..n]);
      assert ticks[..n] == before;
      SimulatedExtends(c, startTime, ticks, n, p, noises);
    }
  }

  lemma SimulatedExtends(c: Setup, startTime: int, ticks: seq<Tick>, n: nat, p: Plant, noises: seq<real>)
    requires |ticks| == |noises| == n + 1 && AllWithin(noises, -p.noiseAmplitude, p.noiseAmplitude)
    requires Simulated(c, startTime, ticks[..n], p, noises[..n])
    requires ticks[n].pv
          == PvAfter(p, InForce(c, startTime, ticks[..n]) + [Run(c, startTime, ticks[..n]).mvCurrent], noises)
    ensures Simulated(c, startTime, ticks, p, noises)
  {
    forall k | 0 <= k <= n
      ensures ticks[k].pv == PvAfter(p, InForce(c, startTime, ticks)[..k + 1], noises[..k + 1])
    {
      if k < n {
        EarlierSample(c, startTime, ticks, n, p, noises, k);
      } else {
        LastOfLoop(c, startTime, ticks, ticks[..n], n);
        assert noises[..n + 1] == noises;
      }
    }
  }

  lemma EarlierSample(c: Setup, startTime: int, ticks: seq<Tick>, n: nat, p: Plant, noises: seq<real>, k: nat)
    requires |ticks| == |noises| == n + 1 && k < n && Simulated(c, startTime, ticks[..n], p, noises[..n])
    ensures ticks[k].pv == PvAfter(p, InForce(c, startTime, ticks)[..k + 1], noises[..k + 1])
  {
    SampleIsProcessValue(c, startTime, ticks[..n], p, noises[..n], k);
    InForcePrefix(c, startTime, ticks, n, k + 1);
    assert noises[..n][..k + 1] == noises[..k + 1];
  }

  lemma LastOfLoop(c: Setup, startTime: int, ticks: seq<Tick>, before: seq<Tick>, n: nat)
    requires |ticks| == n + 1 && ticks[..n] == before
    ensures InForce(c, startTime, ticks)[..n + 1]
         == InForce(c, startTime, before) + [Run(c, startTime, before).mvCurrent]
  {
    InForcePrefix(c, startTime, ticks, n, n);
  }

  /** `pace` samples, `intervalMs` apart, span the noise-protection delay. */
  predicate Covers(pace: nat, intervalMs: nat, secs: nat) {
    Waits(pace, intervalMs) >= 1000 * secs
  }

  lemma FixedStepsArePaced(c: Setup, ticks: seq<Tick>, anchor: int, intervalMs: nat, pace: nat)
    requires Covers(pace, intervalMs, c.noiseProtectionSecs)
    requires forall i | 0 <= i < |ticks| :: ticks[i].time == FixedSteps(anchor, 1_000_000 * intervalMs, |ticks|)[i]
    ensures Paced(c, ticks, pace)
  {
    forall i, j | 0 <= i && i + pace <= j < |ticks|
      ensures ticks[j].time >= ticks[i].time + Seconds(c.noiseProtectionSecs)
    {
      SpansDelay(i, j, pace, intervalMs, c.noiseProtectionSecs);
    }
  }

  lemma SpansDelay(i: nat, j: nat, pace: nat, intervalMs: nat, secs: nat)
    requires Covers(pace, intervalMs, secs) && i + pace <= j
    ensures (j + 1) * (1_000_000 * intervalMs) >= (i + 1) * (1_000_000 * intervalMs) + Seconds(secs)
  {
    var gap := j - i;
    WaitsGrow(pace, gap, intervalMs);
    assert (j + 1) * (1_000_000 * intervalMs) - (i + 1) * (1_000_000 * intervalMs)
        == 1_000_000 * Waits(gap, intervalMs);
  }

  /** The samples of a simulated test at the times of the fixed-step clock. */
  function FixedStepTest(c: Setup, p: Plant, anchor: int, intervalMs: nat, noises: seq<real>): (r: seq<Tick>)
    ensures |r| == |noises|
  {
    ClosedLoop(c, anchor, p, FixedSteps(anchor, 1_000_000 * intervalMs, |noises|), noises)
  }

  lemma FixedStepTestIsSimulated(c: Setup, p: Plant, anchor: int, intervalMs: nat, noises: seq<real>, pace: nat)
    requires p.Valid() && p.initialMv == c.mvIni && AllWithin(noises, -p.noiseAmplitude, p.noiseAmplitude)
    requires Covers(pace, intervalMs, c.noiseProtectionSecs)
    ensures var ticks := FixedStepTest(c, p, anchor, intervalMs, noises);
      Simulated(c, anchor, ticks, p, noises) && Paced(c, ticks, pace)
  {
    ClosedLoopIsSimulated(c, anchor, p, FixedSteps(anchor, 1_000_000 * intervalMs, |noises|), noises);
    FixedStepsArePaced(c, FixedStepTest(c, p, anchor, intervalMs, noises), anchor, intervalMs, pace);
  }

  /** A reverse-acting loop suits a process that its output raises, a direct-acting one a process that its
      output lowers. */
  predicate Suits(direction: Direction, p: Plant) {
    if direction.Reverse? then p.gain > 0.0 else p.gain < 0.0
  }

  lemma SuitedIsOpposed(config: LoopConfig, direction: Direction, initial: InitialReadings, p: Plant)
    requires Admissible(config, initial)
    ensures Suits(direction, p) <==> Opposes(SetupFor(config, direction, initial), p)
  {
    SetupOfConfig(config, direction, initial);
  }

  /** The simulator's own test, sampled by its fixed-step clock: for any admissible configuration, any
      process it suits and dominates and any noise, it completes within one wait per switch. */
  lemma FixedStepTestCompletes(config: LoopConfig, direction: Direction, initial: InitialReadings, p: Plant,
                               anchor: int, intervalMs: nat, pace: nat, wait: nat, noises: seq<real>)
    requires Admissible(config, initial) && p.Valid() && p.initialMv == initial.mvIni
    requires AllWithin(noises, -p.noiseAmplitude, p.noiseAmplitude)
    requires Covers(pace, intervalMs, config.noiseProtectionSecs)
    requires Outlasts(wait, SetupFor(config, direction, initial), p, pace)
    requires |noises| > Waits(SetupFor(config, direction, initial).Total() - 1, wait)
    requires RelayAmplitude(config, initial) >= 0.01 && Suits(direction, p)
    ensures var c := SetupFor(config, direction, initial);
      Run(c, anchor, FixedStepTest(c, p, anchor, intervalMs, noises)).completed
  {
    var c := SetupFor(config, direction, initial);
    SetupOfConfig(config, direction, initial);
    SuitedIsOpposed(config, direction, initial, p);
    FixedStepTestIsSimulated(c, p, anchor, intervalMs, noises, pace);
    OpposedTestCompletes(c, anchor, FixedStepTest(c, p, anchor, intervalMs, noises), p, noises, pace, wait);
  }

  /** A noise-free test on the fixed-step clock whose direction does not suit the process never completes. */
  lemma UnsuitedTestNeverCompletes(config: LoopConfig, direction: Direction, initial: InitialReadings, p: Plant,
                                   anchor: int, intervalMs: nat, noises: seq<real>)
    requires Admissible(config, initial) && !Suits(direction, p)
    requires AtRest(SetupFor(config, direction, initial), p) && AllWithin(noises, 0.0, 0.0)
    ensures var c := SetupFor(config, direction, initial);
      !Run(c, anchor, FixedStepTest(c, p, anchor, intervalMs, noises)).completed
  {
    var c := SetupFor(config, direction, initial);
    var ticks := FixedStepTest(c, p, anchor, intervalMs, noises);
    SetupOfConfig(config, direction, initial);
    SuitedIsOpposed(config, direction, initial, p);
    ClosedLoopIsSimulated(c, anchor, p, FixedSteps(anchor, 1_000_000 * intervalMs, |noises|), noises);
    NeverReverses(c, anchor, ticks, p, noises);
    RunCounted(c, anchor, ticks);
  }

  /** From configuration to tuning without assuming anything of the samples: such a test tunes a PI or PID
      loop at all three levels. */
  lemma FixedStepTestIsTuned(config: LoopConfig, direction: Direction, initial: InitialReadings, p: Plant,
                             anchor: int, intervalMs: nat, pace: nat, wait: nat, noises: seq<real>,
                             pvRange: PvRange, template: DcsTemplate, pi: real)
    requires Admissible(config, initial) && p.Valid() && p.initialMv == initial.mvIni
    requires AllWithin(noises, -p.noiseAmplitude, p.noiseAmplitude)
    requires Covers(pace, intervalMs, config.noiseProtectionSecs)
    requires Outlasts(wait, SetupFor(config, direction, initial), p, pace)
    requires |noises| > Waits(SetupFor(config, direction, initial).Total() - 1, wait)
    requires RelayAmplitude(config, initial) >= 0.01 && Suits(direction, p)
    requires !config.controllerType.P? && config.noiseProtectionSecs >= 1 && pvRange.high > pvRange.low && pi > 0.0
    ensures var c := SetupFor(config, direction, initial);
      var ticks := FixedStepTest(c, p, anchor, intervalMs, noises);
      var r := ResultsOf(config, direction, initial, anchor, ticks, pvRange, template, pi);
      && r.Some? && |r.value| == 3
      && (forall i | 0 <= i < 3 :: r.value[i].UsableValues().Some?)
      && IsTuningSet(seq(3, i requires 0 <= i < 3 => r.value[i].UsableValues().value.0), config)
  {
    var ticks := FixedStepTest(SetupFor(config, direction, initial), p, anchor, intervalMs, noises);
    FixedStepTestCompletes(config, direction, initial, p, anchor, intervalMs, pace, wait, noises);
    var _, _ := CompletedRunIsTuned(config, direction, initial, anchor, ticks, pvRange, template, pi);
  }
}
