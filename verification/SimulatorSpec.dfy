/** The simulated process and controller as functions: the process value after any sequence of
    controller outputs, and one step of the controller. */
module SimulatorSpec {
  import opened Wrappers
  import opened MrftSpec

  // ----- The process -----

  /** A first-order process with dead time, at rest at its starting point. `decay` is the fraction
      of a deviation left after one tick. */
  datatype Plant = Plant(gain: real, bias: real, decay: real, delay: nat, noiseAmplitude: real,
                         initialPv: real, initialMv: real)
  {
    predicate Valid() {
      0.0 <= decay < 1.0 && noiseAmplitude >= 0.0 && initialPv == Steady(initialMv)
    }

    /** The process value that an MV held for ever leads to. */
    function Steady(mv: real): real { bias + Scale(gain, mv) }

    /** The MV acting on the process at a step, given the outputs set at every step so far: the one
        set `delay` steps earlier. */
    function Delayed(mvs: seq<real>, step: nat): real
      requires step < |mvs|
    {
      if step >= delay then mvs[step - delay] else initialMv
    }
  }

  /** A weighted mean that keeps `decay` of `pv`. */
  function Blend(decay: real, pv: real, target: real): real {
    Scale(pv, decay) + Scale(1.0 - decay, target)
  }

  /** The process value after one step per output in `mvs`. */
  function PvAfter(p: Plant, mvs: seq<real>, noises: seq<real>): real
    requires |mvs| == |noises|
  {
    if mvs == [] then p.initialPv
    else
      var n := |mvs| - 1;
      Blend(p.decay, PvAfter(p, mvs[..n], noises[..n]), p.Steady(p.Delayed(mvs, n))) + noises[n]
  }

  lemma PvAppend(p: Plant, mvs: seq<real>, noises: seq<real>, mv: real, noise: real)
    requires |mvs| == |noises|
    ensures PvAfter(p, mvs + [mv], noises + [noise])
         == Blend(p.decay, PvAfter(p, mvs, noises), p.Steady(p.Delayed(mvs + [mv], |mvs|))) + noise
  {
    assert (mvs + [mv])[..|mvs|] == mvs && (noises + [noise])[..|mvs|] == noises;
  }

  // ----- The controller -----

  datatype PidConfig = PidConfig(kc: real, tiS: Option<real>, tdS: Option<real>,
                                 outputMin: real, outputMax: real, outputBias: real)
  {
    function IntegralGain(): Option<real> {
      match tiS
      case Some(ti) => if ti > 0.0 then Some(kc / ti) else None
      case None => None
    }
  }

  datatype PidState = PidState(integral: real, prevPv: Option<real>)

  const NEW_PID := PidState(0.0, None)

  function Clamp(x: real, lo: real, hi: real): real {
    if x < lo then lo else if x > hi then hi else x
  }

  function DerivativeTerm(c: PidConfig, prevPv: Option<real>, pv: real, dt: real): real {
    match (c.tdS, prevPv)
    case (Some(td), Some(prev)) => if td > 0.0 && dt > 0.0 then -c.kc * td * (pv - prev) / dt else 0.0
    case _ => 0.0
  }

  function IntegralTerm(c: PidConfig, integral: real): real {
    match c.IntegralGain()
    case Some(ki) => Scale(ki, integral)
    case None => 0.0
  }

  /** The part of the output that does not come from the integral. */
  function ProportionalAndDerivative(c: PidConfig, s: PidState, setpoint: real, pv: real, dt: real): real {
    Scale(c.kc, setpoint - pv) + DerivativeTerm(c, s.prevPv, pv, dt)
  }

  function RawOutput(c: PidConfig, s: PidState, setpoint: real, pv: real, dt: real): real {
    c.outputBias + Scale(c.kc, setpoint - pv) + IntegralTerm(c, s.integral + Scale(setpoint - pv, dt))
    + DerivativeTerm(c, s.prevPv, pv, dt)
  }

  /** One control step: the clamped output, and an integral committed only when nothing was clamped. */
  function PidStep(c: PidConfig, s: PidState, setpoint: real, pv: real, dt: real): (PidState, real) {
    var raw := RawOutput(c, s, setpoint, pv, dt);
    var output := Clamp(raw, c.outputMin, c.outputMax);
    (PidState(if output == raw then s.integral + Scale(setpoint - pv, dt) else s.integral, Some(pv)), output)
  }
}
