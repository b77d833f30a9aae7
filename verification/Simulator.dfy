/** The simulated process and controller as objects that update their fields in place. */
module Simulator {
  import opened Wrappers
  import opened MrftSpec
  import opened SimulatorSpec

  datatype FopdtConfig = FopdtConfig(gain: real, timeConstantS: real, deadTimeS: real, tickIntervalS: real,
                                     noiseAmplitude: real)

  function Ceil(x: real): int { -((-x).Floor) }

  function DelayTicks(c: FopdtConfig): nat {
    if c.deadTimeS > 0.0 && c.tickIntervalS > 0.0 then
      assert c.deadTimeS / c.tickIntervalS > 0.0;
      Ceil(c.deadTimeS / c.tickIntervalS)
    else 0
  }

  /** The process a configuration describes. `exponential` is the value of
      `exp(-tickInterval / timeConstant)`. */
  function PlantOf(c: FopdtConfig, initialPv: real, initialMv: real, exponential: real): Plant {
    Plant(c.gain, initialPv - Scale(c.gain, initialMv), if c.timeConstantS > 0.0 then exponential else 0.0,
          DelayTicks(c), c.noiseAmplitude, initialPv, initialMv)
  }

  /** A configured process starts at rest, and its dead time is the least number of ticks that covers the
      configured one. */
  lemma ConfiguredPlant(c: FopdtConfig, initialPv: real, initialMv: real, exponential: real)
    requires 0.0 <= exponential < 1.0 && c.noiseAmplitude >= 0.0
    ensures var p := PlantOf(c, initialPv, initialMv, exponential);
      && p.Valid() && p.initialPv == initialPv && p.initialMv == initialMv && p.noiseAmplitude == c.noiseAmplitude
      && (forall mv :: p.Steady(mv) - initialPv == c.gain * (mv - initialMv))
      && (p.decay == if c.timeConstantS > 0.0 then exponential else 0.0)
      && (if c.deadTimeS > 0.0 && c.tickIntervalS > 0.0
          then p.delay > 0 && (p.delay - 1) as real * c.tickIntervalS < c.deadTimeS <= p.delay as real * c.tickIntervalS
          else p.delay == 0)
  {
    if c.deadTimeS > 0.0 && c.tickIntervalS > 0.0 {
      var q := c.deadTimeS / c.tickIntervalS;
      assert q * c.tickIntervalS == c.deadTimeS;
      CeilBounds(q);
      TicksCover(q, DelayTicks(c), c.tickIntervalS);
    }
  }

  lemma CeilBounds(x: real)
    ensures (Ceil(x) - 1) as real < x <= Ceil(x) as real
  {
  }

  lemma TicksCover(q: real, n: int, tick: real)
    requires (n - 1) as real < q <= n as real && tick > 0.0
    ensures (n - 1) as real * tick < q * tick <= n as real * tick
  {
  }

  class FopdtProcess {
    const gain: real
    const noiseAmplitude: real
    const bias: real
    const decay: real
    var pv: real
    var currentMv: real
    var mvDelayLine: seq<real>

    ghost const plant: Plant
    // The outputs in force at each step taken so far, and the noise added at each.
    ghost var mvs: seq<real>
    ghost var noises: seq<real>

    /** The process value is the one the whole history of outputs leads to, and the delay line holds
        the last `delay` outputs, oldest first. */
    ghost predicate Valid()
      reads this
    {
      && plant.gain == gain && plant.bias == bias && plant.decay == decay
      && plant.noiseAmplitude == noiseAmplitude
      && |noises| == |mvs|
      && pv == PvAfter(plant, mvs, noises)
      && mvDelayLine == DelayLine(plant, mvs)
    }

    constructor (config: FopdtConfig, initialPv: real, initialMv: real, exponential: real)
      ensures Valid()
      ensures plant == PlantOf(config, initialPv, initialMv, exponential)
      ensures mvs == [] && currentMv == initialMv && pv == initialPv
    {
      gain := config.gain;
      noiseAmplitude := config.noiseAmplitude;
      bias := initialPv - Scale(config.gain, initialMv);
      decay := if config.timeConstantS > 0.0 then exponential else 0.0;
      pv := initialPv;
      currentMv := initialMv;
      mvDelayLine := seq(DelayTicks(config), _ => initialMv);
      plant := PlantOf(config, initialPv, initialMv, exponential);
      mvs, noises := [], [];
    }

    method SetMv(mv: real)
      requires Valid()
      modifies `currentMv
      ensures Valid() && currentMv == mv
    {
      currentMv := mv;
    }

    /** `noise` is the draw of the random generator, used only when the amplitude is positive. */
    method Step(noise: real) returns (r: real)
      requires Valid()
      modifies `pv, `mvDelayLine, `mvs, `noises
      ensures Valid()
      ensures mvs == old(mvs) + [currentMv]
      ensures noises == old(noises) + [if noiseAmplitude > 0.0 then noise else 0.0]
      ensures r == pv
    {
      DelayLineStep(plant, mvs, currentMv);
      var line := mvDelayLine + [currentMv];
      var effectiveMv := line[0];
      mvDelayLine := line[1..];

      pv := Scale(pv, decay) + Scale(1.0 - decay, bias + Scale(gain, effectiveMv));
      ghost var added := 0.0;
      if noiseAmplitude > 0.0 {
        pv := pv + noise;
        added := noise;
      }
      PvAppend(plant, mvs, noises, currentMv, added);
      mvs, noises := mvs + [currentMv], noises + [added];
      r := pv;
    }
  }

  /** The contents of the delay line after one step per output in `mvs`. */
  ghost function DelayLine(p: Plant, mvs: seq<real>): (r: seq<real>)
    ensures |r| == p.delay
  {
    seq(p.delay, i requires 0 <= i < p.delay =>
      if |mvs| + i >= p.delay then mvs[|mvs| + i - p.delay] else p.initialMv)
  }

  /** Pushing the current output and popping the oldest yields the output of `delay` steps ago. */
  lemma DelayLineStep(p: Plant, mvs: seq<real>, mv: real)
    ensures var line := DelayLine(p, mvs) + [mv];
      && line[0] == p.Delayed(mvs + [mv], |mvs|)
      && line[1..] == DelayLine(p, mvs + [mv])
  {
  }

  class VirtualPid {
    const config: PidConfig
    var integral: real
    var prevPv: Option<real>

    ghost function View(): PidState
      reads this
    {
      PidState(integral, prevPv)
    }

    constructor (config: PidConfig)
      ensures View() == NEW_PID && this.config == config
    {
      this.config := config;
      integral := 0.0;
      prevPv := None;
    }

    method Step(setpoint: real, pv: real, dt: real) returns (output: real)
      requires config.outputMin <= config.outputMax
      modifies this
      ensures (View(), output) == PidStep(config, old(View()), setpoint, pv, dt)
      ensures config.outputMin <= output <= config.outputMax
    {
      var error := setpoint - pv;
      var candidateIntegral := integral + Scale(error, dt);
      var derivativeTerm := DerivativeTerm(config, prevPv, pv, dt);
      prevPv := Some(pv);
      var proportionalTerm := Scale(config.kc, error);
      var integralTerm := IntegralTerm(config, candidateIntegral);
      var rawOutput := config.outputBias + proportionalTerm + integralTerm + derivativeTerm;
      output := Clamp(rawOutput, config.outputMin, config.outputMax);
      if output == rawOutput {
        integral := candidateIntegral;
      }
    }
  }
}
