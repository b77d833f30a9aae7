/** How a loop is configured: the process and controller types, the relay settings, the signal
    ranges read before a run, and the tuning-constant tables. */
module LoopConfigs {
  import opened Wrappers

  datatype ProcessType =
    | Flow
    | PressureLine
    | PressureVessel
    | Level
    | TemperatureMixing
    | TemperatureHeatExchange
  {
    predicate AllowsPid() {
      TemperatureMixing? || TemperatureHeatExchange?
    }

    function DefaultCyclesTest(): nat {
      if Flow? || PressureLine? then 2 else 1
    }

    function DefaultNoiseProtectionSecs(): nat {
      match this
      case Flow => 3
      case PressureLine => 3
      case PressureVessel => 10
      case Level => 10
      case TemperatureMixing => 20
      case TemperatureHeatExchange => 20
    }
  }

  datatype ControllerType = P | Pi | Pid {
    predicate IsAllowedFor(processType: ProcessType) {
      Pid? ==> processType.AllowsPid()
    }
  }

  datatype ResponseLevel = Aggressive | Moderate | Sluggish

  const ALL_LEVELS := [Aggressive, Moderate, Sluggish]

  datatype Direction = Direct | Reverse {
    /** -1 for direct-acting loops, 1 for reverse-acting ones. */
    function ActionMultiplier(): (m: int) {
      match this
      case Direct => -1
      case Reverse => 1
    }
  }

  // ----- Loop configuration -----

  const RELAY_AMP_PERCENT_MIN := 0.1
  const RELAY_AMP_PERCENT_MAX := 50.0
  const MRFT_DELAY_SECS_MAX := 3600
  const DEFAULT_CYCLES_SKIP := 1
  const I32_MAX := 0x7fff_ffff

  datatype LoopConfigError =
    | RelayAmpOutOfRange(value: real)
    | CyclesCountMustBeAtLeastOne
    | MrftDelayOutOfRange(secs: nat)

  datatype LoopConfig = LoopConfig(
    processType: ProcessType,
    controllerType: ControllerType,
    relayAmpPercent: real,
    numCyclesSkip: nat,
    numCyclesCount: nat,
    noiseProtectionSecs: nat,
    mrftDelaySecs: nat)
  {
    function Validate(): Result<(), LoopConfigError> {
      if !(RELAY_AMP_PERCENT_MIN <= relayAmpPercent <= RELAY_AMP_PERCENT_MAX) then
        Err(RelayAmpOutOfRange(relayAmpPercent))
      else if numCyclesCount < 1 then
        Err(CyclesCountMustBeAtLeastOne)
      else if mrftDelaySecs > MRFT_DELAY_SECS_MAX then
        Err(MrftDelayOutOfRange(mrftDelaySecs))
      else
        Ok(())
    }

    /** The machine counters hold `2 * skip + 1 + 2 * count` without wrapping. */
    predicate CountersFit() {
      2 * numCyclesSkip + 1 + 2 * numCyclesCount < I32_MAX
    }

    function WithProcessType(newType: ProcessType): LoopConfig {
      this.(processType := newType,
            numCyclesSkip := DEFAULT_CYCLES_SKIP,
            numCyclesCount := newType.DefaultCyclesTest(),
            noiseProtectionSecs := newType.DefaultNoiseProtectionSecs(),
            controllerType := if controllerType.IsAllowedFor(newType) then controllerType else Pi)
    }
  }

  // ----- Signal ranges -----

  datatype RangeError =
    | ZeroSpan(high: real, low: real)
    | LowNotBelowHigh(low: real, high: real)

  /** The PV scale. Its bounds need only differ: either may be the larger. */
  datatype PvRange = PvRange(high: real, low: real)

  function NewPvRange(high: real, low: real): Result<PvRange, RangeError> {
    if high == low then Err(ZeroSpan(high, low)) else Ok(PvRange(high, low))
  }

  datatype MvRange = MvRange(high: real, low: real) {
    predicate Contains(value: real) {
      low <= value <= high
    }
  }

  function NewMvRange(high: real, low: real): Result<MvRange, RangeError> {
    if low >= high then Err(LowNotBelowHigh(low, high)) else Ok(MvRange(high, low))
  }

  /** An accepted range has the ends it was given, and an accepted output range contains what lies
      between them. */
  lemma RangesKeepTheirEnds(high: real, low: real)
    ensures NewPvRange(high, low).Ok? <==> high != low
    ensures high != low ==> NewPvRange(high, low).value.high == high && NewPvRange(high, low).value.low == low
    ensures NewMvRange(high, low).Ok? <==> low < high
    ensures low < high ==>
      && NewMvRange(high, low).value == MvRange(high, low)
      && forall x :: NewMvRange(high, low).value.Contains(x) <==> low <= x <= high
  {
  }

  // ----- Tuning constants -----

  datatype TuningConstants = TuningConstants(c1: real, c2: real, c3: real, beta: real)

  function C1(p: ProcessType, level: ResponseLevel, c: ControllerType): real {
    match p
    case Flow => Pick(c, Pick3(level, 0.5, 0.333, 0.25), Pick3(level, 0.451, 0.302, 0.226), 0.0)
    case PressureLine => Pick(c, Pick3(level, 0.5, 0.333, 0.25), Pick3(level, 0.442, 0.296, 0.221), 0.0)
    case PressureVessel => Pick(c, Pick3(level, 0.333, 0.222, 0.167), Pick3(level, 0.331, 0.222, 0.166), 0.0)
    case Level => Pick(c, Pick3(level, 0.333, 0.222, 0.167), Pick3(level, 0.331, 0.222, 0.166), 0.0)
    case TemperatureMixing =>
      Pick(c, Pick3(level, 0.5, 0.25, 0.167), Pick3(level, 0.47, 0.235, 0.155), Pick3(level, 0.498, 0.249, 0.164))
    case TemperatureHeatExchange =>
      Pick(c, Pick3(level, 0.333, 0.222, 0.167), Pick3(level, 0.325, 0.218, 0.163), Pick3(level, 0.332, 0.222, 0.166))
  }

  function C2(p: ProcessType, c: ControllerType): real {
    match p
    case Flow => Pick(c, 0.0, 0.331, 0.0)
    case PressureLine => Pick(c, 0.0, 0.302, 0.0)
    case PressureVessel => Pick(c, 0.0, 1.216, 0.0)
    case Level => Pick(c, 0.0, 1.216, 0.0)
    case TemperatureMixing => Pick(c, 0.0, 0.436, 0.162)
    case TemperatureHeatExchange => Pick(c, 0.0, 0.704, 0.275)
  }

  function C3(p: ProcessType, c: ControllerType): real {
    match p
    case TemperatureMixing => Pick(c, 0.0, 0.0, 0.14)
    case TemperatureHeatExchange => Pick(c, 0.0, 0.0, 0.09)
    case _ => 0.0
  }

  function Beta(p: ProcessType, c: ControllerType): real {
    match p
    case Flow => Pick(c, 0.0, 0.433, 0.0)
    case PressureLine => Pick(c, 0.0, 0.466, 0.0)
    case PressureVessel => Pick(c, 0.0, 0.13, 0.0)
    case Level => Pick(c, 0.0, 0.13, 0.0)
    case TemperatureMixing => Pick(c, 0.0, 0.343, 0.102)
    case TemperatureHeatExchange => Pick(c, 0.0, 0.221, 0.013)
  }

  function Pick(c: ControllerType, p: real, pi: real, pid: real): real {
    match c
    case P => p
    case Pi => pi
    case Pid => pid
  }

  function Pick3(level: ResponseLevel, aggressive: real, moderate: real, sluggish: real): real {
    match level
    case Aggressive => aggressive
    case Moderate => moderate
    case Sluggish => sluggish
  }

  function Lookup(p: ProcessType, c: ControllerType, level: ResponseLevel): TuningConstants {
    TuningConstants(C1(p, level, c), C2(p, c), C3(p, c), Beta(p, c))
  }

  /** What the tables guarantee for every process type and every controller type it allows. */
  lemma TableFacts(p: ProcessType, c: ControllerType)
    ensures 0.0 <= Beta(p, c) < 1.0
    ensures c.IsAllowedFor(p) ==>
      C1(p, Aggressive, c) > C1(p, Moderate, c) > C1(p, Sluggish, c) > 0.0
    ensures c.IsAllowedFor(p) && !c.P? ==> C2(p, c) > 0.0
    ensures c.IsAllowedFor(p) && c.Pid? ==> C3(p, c) > 0.0
    ensures c.P? ==> C2(p, c) == C3(p, c) == Beta(p, c) == 0.0
    ensures c.Pi? ==> C3(p, c) == 0.0
    ensures !c.IsAllowedFor(p) ==>
      C2(p, c) == C3(p, c) == 0.0 && forall level :: C1(p, level, c) == 0.0
  {
  }

  /** Re-deriving the defaults never leaves a controller the process type refuses, and the
      relay amplitude and padding, which decide half of validation, are untouched. */
  lemma WithProcessTypeIsUsable(config: LoopConfig, newType: ProcessType)
    ensures var next := config.WithProcessType(newType);
      && next.controllerType.IsAllowedFor(next.processType)
      && next.CountersFit()
      && (next.Validate().Ok? <==>
            && 0.1 <= config.relayAmpPercent <= 50.0
            && config.mrftDelaySecs <= 3600)
      && (next.controllerType != config.controllerType <==>
            config.controllerType.Pid? && !newType.AllowsPid())
  {
  }

  /** What a change of process type leaves behind depends on the new type alone, except for the controller
      type it can keep, the amplitude and the padding: no earlier cycle count or delay survives it. */
  lemma DefaultsForgetThePast(config: LoopConfig, other: LoopConfig, newType: ProcessType)
    ensures var next := config.WithProcessType(newType);
      && next == other.WithProcessType(newType).(controllerType := next.controllerType,
                                                 relayAmpPercent := config.relayAmpPercent,
                                                 mrftDelaySecs := config.mrftDelaySecs)
      && next.WithProcessType(newType) == next
      && next.processType == newType && next.noiseProtectionSecs >= 1 && next.numCyclesCount >= 1
      && (config.controllerType.IsAllowedFor(newType) ==> next.controllerType == config.controllerType)
  {
  }
}
