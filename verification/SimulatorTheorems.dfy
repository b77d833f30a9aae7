/** What the simulated loop guarantees over runs of any length. */
module SimulatorTheorems {
  import opened Wrappers
  import opened MrftSpec
  import opened SimulatorSpec

  // ----- Closed forms of the process -----

  function Pow(x: real, n: nat): real {
    if n == 0 then 1.0 else Scale(x, Pow(x, n - 1))
  }

  /** The inputs of the past, each faded by the time since it acted. */
  function Faded(decay: real, inputs: seq<real>): real {
    if inputs == [] then 0.0
    else Scale(decay, Faded(decay, inputs[..|inputs| - 1])) + inputs[|inputs| - 1]
  }

  /** The steady states that the delayed outputs pull the process toward. */
  function Targets(p: Plant, mvs: seq<real>): (r: seq<real>)
    ensures |r| == |mvs|
  {
    seq(|mvs|, k requires 0 <= k < |mvs| => p.Steady(p.Delayed(mvs, k)))
  }

  lemma ScaleAlgebra(d: real, x: real, y: real, z: real)
    ensures Scale(x, d) == Scale(d, x)
    ensures Scale(d, x + y) == Scale(d, x) + Scale(d, y)
    ensures Scale(d, Scale(z, x)) == Scale(z, Scale(d, x))
    ensures Scale(Scale(d, z), x) == Scale(d, Scale(z, x))
  {
  }

  /** The recurrence is a convolution: the faded start value, the faded targets and the faded noise. */
  lemma {:induction false} PvIsConvolution(p: Plant, mvs: seq<real>, noises: seq<real>)
    requires |mvs| == |noises|
    ensures PvAfter(p, mvs, noises)
         == Scale(Pow(p.decay, |mvs|), p.initialPv)
            + Scale(1.0 - p.decay, Faded(p.decay, Targets(p, mvs)))
            + Faded(p.decay, noises)
  {
    if mvs != [] {
      var n := |mvs| - 1;
      var start, targets, noise := Scale(Pow(p.decay, n), p.initialPv),
                                   Faded(p.decay, Targets(p, mvs[..n])), Faded(p.decay, noises[..n]);
      PvIsConvolution(p, mvs[..n], noises[..n]);
      assert Targets(p, mvs)[..n] == Targets(p, mvs[..n]);
      ScaleAlgebra(p.decay, PvAfter(p, mvs[..n], noises[..n]), 0.0, 0.0);
      ScaleAlgebra(p.decay, start + Scale(1.0 - p.decay, targets), noise, 0.0);
      ScaleAlgebra(p.decay, start, Scale(1.0 - p.decay, targets), 0.0);
      ScaleAlgebra(p.decay, targets, 0.0, 1.0 - p.decay);
      ScaleAlgebra(p.decay, p.initialPv, 0.0, Pow(p.decay, n));
      ScaleAlgebra(1.0 - p.decay, Scale(p.decay, targets), p.Steady(p.Delayed(mvs, n)), 0.0);
    } else {
      assert Scale(1.0, p.initialPv) == p.initialPv;
      assert Scale(1.0 - p.decay, 0.0) == 0.0;
    }
  }

  /** The response to one change of output, without noise: nothing at all for exactly the dead time,
      then an exponential approach to the new steady state. */
  lemma {:induction false} StepResponse(p: Plant, mv: real, n: nat)
    requires p.Valid()
    ensures PvAfter(p, seq(n, _ => mv), seq(n, _ => 0.0))
         == if n <= p.delay then p.initialPv
            else p.Steady(mv) + Scale(Pow(p.decay, n - p.delay), p.initialPv - p.Steady(mv))
  {
    if n > 0 {
      var mvs, noises := seq(n - 1, _ => mv), seq(n - 1, _ => 0.0);
      StepResponse(p, mv, n - 1);
      assert seq(n, _ => mv) == mvs + [mv] && seq(n, _ => 0.0) == noises + [0.0];
      PvAppend(p, mvs, noises, mv, 0.0);
      if n <= p.delay {
        BlendFixed(p.decay, p.initialPv);
      } else {
        var k: nat := n - 1 - p.delay;
        assert Scale(1.0, p.initialPv - p.Steady(mv)) == p.initialPv - p.Steady(mv);
        Approach(p.decay, p.Steady(mv), Scale(Pow(p.decay, k), p.initialPv - p.Steady(mv)));
        ScaleAlgebra(p.decay, p.initialPv - p.Steady(mv), 0.0, Pow(p.decay, k));
      }
    }
  }

  lemma BlendFixed(decay: real, pv: real)
    ensures Blend(decay, pv, pv) == pv
  {
  }

  lemma Approach(decay: real, target: real, offset: real)
    ensures Blend(decay, target + offset, target) == target + Scale(decay, offset)
  {
  }

  // ----- The process value stays in a hull -----

  /** How far noise can carry the process value past its steady states. */
  function Margin(p: Plant): real
    requires p.Valid()
  {
    p.noiseAmplitude / (1.0 - p.decay)
  }

  function HullLow(p: Plant, lo: real, hi: real): real
    requires p.Valid()
  {
    Min(p.Steady(lo), p.Steady(hi)) - Margin(p)
  }

  function HullHigh(p: Plant, lo: real, hi: real): real
    requires p.Valid()
  {
    Max(p.Steady(lo), p.Steady(hi)) + Margin(p)
  }

  ghost predicate AllWithin(xs: seq<real>, lo: real, hi: real) {
    forall i | 0 <= i < |xs| :: lo <= xs[i] <= hi
  }

  lemma SteadyBetween(p: Plant, mv: real, lo: real, hi: real)
    requires lo <= mv <= hi
    ensures Min(p.Steady(lo), p.Steady(hi)) <= p.Steady(mv) <= Max(p.Steady(lo), p.Steady(hi))
  {
    if p.gain >= 0.0 {
      MonotoneScale(p.gain, lo, mv);
      MonotoneScale(p.gain, mv, hi);
    } else {
      MonotoneScale(-p.gain, lo, mv);
      MonotoneScale(-p.gain, mv, hi);
      NegatedScale(p.gain, lo);
      NegatedScale(p.gain, mv);
      NegatedScale(p.gain, hi);
    }
  }

  lemma MonotoneScale(g: real, x: real, y: real)
    requires g >= 0.0 && x <= y
    ensures Scale(g, x) <= Scale(g, y)
  {
  }

  lemma NegatedScale(g: real, x: real)
    ensures Scale(-g, x) == -Scale(g, x)
  {
  }

  lemma MarginIsFixed(p: Plant)
    requires p.Valid()
    ensures Margin(p) >= 0.0
    ensures Scale(p.decay, Margin(p)) + p.noiseAmplitude == Margin(p)
  {
    var rest := 1.0 - p.decay;
    assert Margin(p) * rest == p.noiseAmplitude;
    QuotientSign(p.noiseAmplitude, rest);
  }

  lemma QuotientSign(x: real, y: real)
    requires x >= 0.0 && y > 0.0
    ensures x / y >= 0.0
  {
  }

  /** One step keeps a value within `margin` of an interval that holds its target. */
  lemma BlendBound(decay: real, pv: real, target: real, lo: real, hi: real, margin: real)
    requires 0.0 <= decay < 1.0 && margin >= 0.0
    requires lo <= target <= hi && lo - margin <= pv <= hi + margin
    ensures lo - Scale(decay, margin) <= Blend(decay, pv, target) <= hi + Scale(decay, margin)
  {
    MonotoneScale(decay, pv, hi + margin);
    MonotoneScale(decay, lo - margin, pv);
    MonotoneScale(1.0 - decay, target, hi);
    MonotoneScale(1.0 - decay, lo, target);
    Distribute(decay, hi, margin);
    Distribute(decay, lo, -margin);
    NegatedScale(margin, decay);
    assert Scale(pv, decay) == Scale(decay, pv);
    assert Scale(decay, -margin) == -Scale(decay, margin);
  }

  lemma Distribute(d: real, x: real, m: real)
    ensures Scale(d, x + m) + Scale(1.0 - d, x) == x + Scale(d, m)
  {
  }

  /** Whatever the outputs and the noise, as long as they stay within their bounds: a process that
      starts at rest never leaves the hull of the steady states of its output bounds. */
  lemma {:induction false} PvStaysInHull(p: Plant, mvs: seq<real>, noises: seq<real>, lo: real, hi: real)
    requires p.Valid() && |mvs| == |noises| && lo <= p.initialMv <= hi
    requires AllWithin(mvs, lo, hi) && AllWithin(noises, -p.noiseAmplitude, p.noiseAmplitude)
    ensures HullLow(p, lo, hi) <= PvAfter(p, mvs, noises) <= HullHigh(p, lo, hi)
  {
    MarginIsFixed(p);
    if mvs == [] {
      SteadyBetween(p, p.initialMv, lo, hi);
    } else {
      var n := |mvs| - 1;
      var mv := p.Delayed(mvs, n);
      PvStaysInHull(p, mvs[..n], noises[..n], lo, hi);
      SteadyBetween(p, mv, lo, hi);
      BlendBound(p.decay, PvAfter(p, mvs[..n], noises[..n]), p.Steady(mv),
                 Min(p.Steady(lo), p.Steady(hi)), Max(p.Steady(lo), p.Steady(hi)), Margin(p));
    }
  }

  // ----- The closed loop -----

  /** One controller driving one process: what has been fed and read so far. */
  datatype Loop = Loop(mvs: seq<real>, noises: seq<real>, pid: PidState, pv: real)

  /** The loop after one tick per setpoint: the controller acts on the last process value, then the
      process advances. */
  function RunLoop(p: Plant, c: PidConfig, dt: real, setpoints: seq<real>, noises: seq<real>): (r: Loop)
    requires |setpoints| == |noises|
    ensures |r.mvs| == |r.noises| == |setpoints|
  {
    if setpoints == [] then Loop([], [], NEW_PID, p.initialPv)
    else
      var n := |setpoints| - 1;
      var before := RunLoop(p, c, dt, setpoints[..n], noises[..n]);
      var (pid, mv) := PidStep(c, before.pid, setpoints[n], before.pv, dt);
      var mvs, fed := before.mvs + [mv], before.noises + [noises[n]];
      Loop(mvs, fed, pid, PvAfter(p, mvs, fed))
  }

  lemma {:induction false} RunLoopFacts(p: Plant, c: PidConfig, dt: real, setpoints: seq<real>, noises: seq<real>)
    requires |setpoints| == |noises| && c.outputMin <= c.outputMax
    ensures var r := RunLoop(p, c, dt, setpoints, noises);
      && r.noises == noises
      && AllWithin(r.mvs, c.outputMin, c.outputMax)
      && r.pv == PvAfter(p, r.mvs, r.noises)
  {
    if setpoints != [] {
      var n := |setpoints| - 1;
      RunLoopFacts(p, c, dt, setpoints[..n], noises[..n]);
    }
  }

  /** However the controller is tuned and whatever the setpoints, the process value stays in the hull
      of the steady states of the output limits. */
  lemma LoopStaysInHull(p: Plant, c: PidConfig, dt: real, setpoints: seq<real>, noises: seq<real>)
    requires p.Valid() && |setpoints| == |noises| && c.outputMin <= p.initialMv <= c.outputMax
    requires AllWithin(noises, -p.noiseAmplitude, p.noiseAmplitude)
    ensures HullLow(p, c.outputMin, c.outputMax)
         <= RunLoop(p, c, dt, setpoints, noises).pv
         <= HullHigh(p, c.outputMin, c.outputMax)
  {
    var r := RunLoop(p, c, dt, setpoints, noises);
    RunLoopFacts(p, c, dt, setpoints, noises);
    PvStaysInHull(p, r.mvs, r.noises, c.outputMin, c.outputMax);
  }

  // ----- Anti-windup -----

  /** The scaled integral is untouched or lies where it cannot drive the output past its limits by
      more than the rest of the controller can. */
  predicate IntegralBounded(c: PidConfig, integral: real, bound: real) {
    integral == 0.0
    || c.outputMin - c.outputBias - bound <= IntegralTerm(c, integral) <= c.outputMax - c.outputBias + bound
  }

  lemma PidStepBounds(c: PidConfig, s: PidState, setpoint: real, pv: real, dt: real, bound: real)
    requires c.IntegralGain().Some? && IntegralBounded(c, s.integral, bound) && c.outputMin <= c.outputMax
    requires -bound <= ProportionalAndDerivative(c, s, setpoint, pv, dt) <= bound
    ensures IntegralBounded(c, PidStep(c, s, setpoint, pv, dt).0.integral, bound)
  {
  }

  /** A bound on the derivative part while the process value moves within `width`. */
  function DerivativeReach(c: PidConfig, dt: real, width: real): real
    requires dt > 0.0
  {
    match c.tdS
    case Some(td) => if td > 0.0 then Scale(Abs(c.kc) * td / dt, width) else 0.0
    case None => 0.0
  }

  /** A bound on the proportional and derivative parts while the process value stays in `[lo, hi]`
      and the setpoint in `[spLo, spHi]`. */
  function RestBound(c: PidConfig, dt: real, lo: real, hi: real, spLo: real, spHi: real): real
    requires dt > 0.0
  {
    Scale(Abs(c.kc), Max(spHi - lo, hi - spLo)) + DerivativeReach(c, dt, hi - lo)
  }

  lemma MagnitudeOfScale(g: real, x: real, reach: real)
    requires -reach <= x <= reach
    ensures -Scale(Abs(g), reach) <= Scale(g, x) <= Scale(Abs(g), reach)
  {
    MonotoneScale(Abs(g), x, reach);
    MonotoneScale(Abs(g), -reach, x);
    NegatedScale(reach, Abs(g));
    assert Scale(Abs(g), -reach) == -Scale(Abs(g), reach);
    if g < 0.0 {
      NegatedScale(g, x);
    }
  }

  lemma DerivativeBound(c: PidConfig, prev: real, pv: real, dt: real, td: real, width: real)
    requires c.tdS == Some(td) && td > 0.0 && dt > 0.0 && -width <= pv - prev <= width
    ensures -DerivativeReach(c, dt, width) <= DerivativeTerm(c, Some(prev), pv, dt) <= DerivativeReach(c, dt, width)
  {
    var g := -c.kc * td / dt;
    AbsQuotient(c.kc, td, dt);
    assert DerivativeTerm(c, Some(prev), pv, dt) == Scale(g, pv - prev);
    assert DerivativeReach(c, dt, width) == Scale(Abs(g), width);
    MagnitudeOfScale(g, pv - prev, width);
  }

  lemma AbsQuotient(k: real, td: real, dt: real)
    requires td > 0.0 && dt > 0.0
    ensures Abs(-k * td / dt) == Abs(k) * td / dt
  {
    var u := td / dt;
    QuotientSign(td, dt);
    assert -k * td / dt == -k * u && Abs(k) * td / dt == Abs(k) * u;
  }

  lemma DerivativeIsBounded(c: PidConfig, s: PidState, pv: real, dt: real, lo: real, hi: real)
    requires dt > 0.0 && lo <= pv <= hi && PrevWithin(s, lo, hi)
    ensures var reach := DerivativeReach(c, dt, hi - lo);
      -reach <= DerivativeTerm(c, s.prevPv, pv, dt) <= reach
  {
    if c.tdS.Some? && c.tdS.value > 0.0 {
      var prev := if s.prevPv.Some? then s.prevPv.value else pv;
      NoDerivativeYet(c, pv, dt);
      assert DerivativeTerm(c, s.prevPv, pv, dt) == DerivativeTerm(c, Some(prev), pv, dt);
      DerivativeBound(c, prev, pv, dt, c.tdS.value, hi - lo);
    } else {
      assert DerivativeTerm(c, s.prevPv, pv, dt) == 0.0;
    }
  }

  /** Without a previous value the derivative is that of a value that has not moved. */
  lemma NoDerivativeYet(c: PidConfig, pv: real, dt: real)
    ensures DerivativeTerm(c, Some(pv), pv, dt) == DerivativeTerm(c, None, pv, dt) == 0.0
  {
    if c.tdS.Some? {
      assert -c.kc * c.tdS.value * 0.0 == 0.0;
    }
  }

  lemma RestIsBounded(c: PidConfig, s: PidState, setpoint: real, pv: real, dt: real,
                      lo: real, hi: real, spLo: real, spHi: real)
    requires dt > 0.0 && lo <= pv <= hi && spLo <= setpoint <= spHi && PrevWithin(s, lo, hi)
    ensures var b := RestBound(c, dt, lo, hi, spLo, spHi);
      -b <= ProportionalAndDerivative(c, s, setpoint, pv, dt) <= b
  {
    MagnitudeOfScale(c.kc, setpoint - pv, Max(spHi - lo, hi - spLo));
    DerivativeIsBounded(c, s, pv, dt, lo, hi);
  }

  ghost predicate PrevWithin(s: PidState, lo: real, hi: real) {
    s.prevPv.Some? ==> lo <= s.prevPv.value <= hi
  }

  /** In the closed loop the integrator never winds up: over runs of any length its contribution stays
      within a bound fixed by the configuration, the hull and the setpoint range alone. */
  lemma {:induction false} LoopIntegralIsBounded(p: Plant, c: PidConfig, dt: real, setpoints: seq<real>,
                                                 noises: seq<real>, spLo: real, spHi: real)
    requires p.Valid() && |setpoints| == |noises| && c.outputMin <= p.initialMv <= c.outputMax
    requires AllWithin(noises, -p.noiseAmplitude, p.noiseAmplitude) && AllWithin(setpoints, spLo, spHi)
    requires dt > 0.0 && c.IntegralGain().Some?
    ensures var lo, hi := HullLow(p, c.outputMin, c.outputMax), HullHigh(p, c.outputMin, c.outputMax);
      var pid := RunLoop(p, c, dt, setpoints, noises).pid;
      && PrevWithin(pid, lo, hi)
      && IntegralBounded(c, pid.integral, RestBound(c, dt, lo, hi, spLo, spHi))
  {
    if setpoints != [] {
      var n := |setpoints| - 1;
      var lo, hi := HullLow(p, c.outputMin, c.outputMax), HullHigh(p, c.outputMin, c.outputMax);
      var before := RunLoop(p, c, dt, setpoints[..n], noises[..n]);
      LoopIntegralIsBounded(p, c, dt, setpoints[..n], noises[..n], spLo, spHi);
      LoopStaysInHull(p, c, dt, setpoints[..n], noises[..n]);
      RestIsBounded(c, before.pid, setpoints[n], before.pv, dt, lo, hi, spLo, spHi);
      PidStepBounds(c, before.pid, setpoints[n], before.pv, dt, RestBound(c, dt, lo, hi, spLo, spHi));
    }
  }

  // ----- The controller is a textbook PID while nothing is clamped -----

  datatype Reading = Reading(setpoint: real, pv: real)

  function PidAfter(c: PidConfig, dt: real, readings: seq<Reading>): PidState {
    if readings == [] then NEW_PID
    else
      var n := |readings| - 1;
      PidStep(c, PidAfter(c, dt, readings[..n]), readings[n].setpoint, readings[n].pv, dt).0
  }

  /** The output given at the last reading. */
  function LastOutput(c: PidConfig, dt: real, readings: seq<Reading>): real
    requires readings != []
  {
    var n := |readings| - 1;
    PidStep(c, PidAfter(c, dt, readings[..n]), readings[n].setpoint, readings[n].pv, dt).1
  }

  predicate NeverAtLimit(c: PidConfig, dt: real, readings: seq<Reading>) {
    readings != [] ==>
      && NeverAtLimit(c, dt, readings[..|readings| - 1])
      && c.outputMin < LastOutput(c, dt, readings) < c.outputMax
  }

  /** The error over time: each error times the length of its step. */
  function ErrorOverTime(dt: real, readings: seq<Reading>): real {
    if readings == [] then 0.0
    else
      var last := readings[|readings| - 1];
      ErrorOverTime(dt, readings[..|readings| - 1]) + Scale(last.setpoint - last.pv, dt)
  }

  /** A step whose output is not at a limit adds exactly the error over the step; any other step adds
      that or nothing. */
  lemma IntegralStep(c: PidConfig, s: PidState, setpoint: real, pv: real, dt: real)
    ensures var (next, output) := PidStep(c, s, setpoint, pv, dt);
      && next.prevPv == Some(pv)
      && (c.outputMin < output < c.outputMax ==> next.integral == s.integral + Scale(setpoint - pv, dt))
      && (next.integral == s.integral + Scale(setpoint - pv, dt) || next.integral == s.integral)
  {
  }

  /** The state that some readings lead to, as far as the next output depends on it. */
  ghost predicate Accumulates(s: PidState, dt: real, readings: seq<Reading>) {
    && s.integral == ErrorOverTime(dt, readings)
    && s.prevPv == if readings == [] then None else Some(readings[|readings| - 1].pv)
  }

  lemma AccumulatesStep(c: PidConfig, dt: real, readings: seq<Reading>, s: PidState, last: Reading)
    requires Accumulates(s, dt, readings)
    requires c.outputMin < PidStep(c, s, last.setpoint, last.pv, dt).1 < c.outputMax
    ensures Accumulates(PidStep(c, s, last.setpoint, last.pv, dt).0, dt, readings + [last])
  {
    assert (readings + [last])[..|readings|] == readings;
    IntegralStep(c, s, last.setpoint, last.pv, dt);
  }

  lemma {:induction false} IntegralAccumulates(c: PidConfig, dt: real, readings: seq<Reading>)
    requires NeverAtLimit(c, dt, readings)
    ensures Accumulates(PidAfter(c, dt, readings), dt, readings)
  {
    if readings != [] {
      var n := |readings| - 1;
      IntegralAccumulates(c, dt, readings[..n]);
      AccumulatesStep(c, dt, readings[..n], PidAfter(c, dt, readings[..n]), readings[n]);
      assert readings[..n] + [readings[n]] == readings;
    }
  }

  /** Bias, proportional, integral and derivative terms: the gain times the error, times the error over
      time per integral time, and against the last rise of the process value times the derivative time.
      Only positive times take part. */
  ghost predicate IsTextbook(c: PidConfig, dt: real, readings: seq<Reading>, output: real, i: real, d: real)
    requires readings != []
  {
    var n := |readings| - 1;
    && output == c.outputBias + Scale(c.kc, readings[n].setpoint - readings[n].pv) + i + d
    && (if c.tiS.Some? && c.tiS.value > 0.0 then Scale(i, c.tiS.value) == Scale(c.kc, ErrorOverTime(dt, readings))
        else i == 0.0)
    && (if c.tdS.Some? && c.tdS.value > 0.0 && n > 0
        then Scale(d, dt) == -Scale(Scale(c.kc, c.tdS.value), readings[n].pv - readings[n - 1].pv)
        else d == 0.0)
  }

  /** The terms of one output that is not at a limit. */
  lemma StepTerms(c: PidConfig, dt: real, readings: seq<Reading>, s: PidState) returns (i: real, d: real)
    requires readings != [] && dt > 0.0 && Accumulates(s, dt, readings[..|readings| - 1])
    requires var last := readings[|readings| - 1];
      c.outputMin < PidStep(c, s, last.setpoint, last.pv, dt).1 < c.outputMax
    ensures var last := readings[|readings| - 1];
      IsTextbook(c, dt, readings, PidStep(c, s, last.setpoint, last.pv, dt).1, i, d)
  {
    var n := |readings| - 1;
    var last := readings[n];
    i := IntegralTerm(c, s.integral + Scale(last.setpoint - last.pv, dt));
    d := DerivativeTerm(c, s.prevPv, last.pv, dt);
    if c.tiS.Some? && c.tiS.value > 0.0 {
      ScaledQuotient(c.kc, c.tiS.value, ErrorOverTime(dt, readings));
    }
    if c.tdS.Some? && c.tdS.value > 0.0 && n > 0 {
      DerivativeTimesStep(c, readings[n - 1].pv, last.pv, dt, c.tdS.value);
    }
  }

  lemma ScaledQuotient(kc: real, ti: real, integral: real)
    requires ti > 0.0
    ensures Scale(Scale(kc / ti, integral), ti) == Scale(kc, integral)
  {
    var ki := kc / ti;
    assert ki * ti == kc;
    assert Scale(Scale(ki, integral), ti) == (ki * ti) * integral;
  }

  lemma DerivativeTimesStep(c: PidConfig, prev: real, pv: real, dt: real, td: real)
    requires c.tdS == Some(td) && td > 0.0 && dt > 0.0
    ensures Scale(DerivativeTerm(c, Some(prev), pv, dt), dt) == -Scale(Scale(c.kc, td), pv - prev)
  {
    var rise := -c.kc * td * (pv - prev);
    assert rise / dt * dt == rise;
  }

  /** While no output is at a limit, each is that of the textbook controller, over runs of any length. */
  lemma TextbookPid(c: PidConfig, dt: real, readings: seq<Reading>) returns (i: real, d: real)
    requires readings != [] && dt > 0.0 && NeverAtLimit(c, dt, readings)
    ensures IsTextbook(c, dt, readings, LastOutput(c, dt, readings), i, d)
  {
    var before := readings[..|readings| - 1];
    IntegralAccumulates(c, dt, before);
    i, d := StepTerms(c, dt, readings, PidAfter(c, dt, before));
  }
}
