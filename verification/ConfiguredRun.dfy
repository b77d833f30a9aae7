/** What a configured test does, in terms of the configuration, the direction and the samples alone. */
module ConfiguredRun {
  import opened Wrappers
  import opened LoopConfigs
  import opened MrftSpec
  import opened Traces
  import opened MrftRuns
  import opened MrftTheorems
  import opened EndToEnd

  /** The configured percentage of the output range, or the distance to the nearer limit if that is less. */
  function RelayAmplitude(config: LoopConfig, initial: InitialReadings): real {
    Min(config.relayAmpPercent / 100.0 * (initial.mvRangeHigh - initial.mvRangeLow),
        Min(initial.mvRangeHigh - initial.mvIni, initial.mvIni - initial.mvRangeLow))
  }

  lemma SetupOfConfig(config: LoopConfig, direction: Direction, initial: InitialReadings)
    requires Admissible(config, initial)
    ensures var c := SetupFor(config, direction, initial);
      && Physical(c) && c.Total() >= 3
      && c.relayAmpRaw == RelayAmplitude(config, initial) >= 0.0
      && c.pvIni == initial.pvIni && c.mvIni == initial.mvIni
      && (direction.Reverse? <==> c.actionMultiplier == 1)
  {
    AdmissibleIsPhysical(config, direction, initial);
    RangesKeepTheirEnds(initial.mvRangeHigh, initial.mvRangeLow);
    ValidatedClampStaysInRange(config, NewMvRange(initial.mvRangeHigh, initial.mvRangeLow).value, initial.mvIni);
  }

  /** Whether a loop of this direction answers a PV with a higher output: a reverse-acting one when the PV
      is not above where it started, a direct-acting one when it is not below. */
  predicate RaisesAt(direction: Direction, pv: real, pvIni: real) {
    if direction.Reverse? then pv <= pvIni else pv >= pvIni
  }

  /** The level that answers a PV. */
  function AnswerTo(config: LoopConfig, direction: Direction, initial: InitialReadings, pv: real): real {
    if RaisesAt(direction, pv, initial.pvIni) then initial.mvIni + RelayAmplitude(config, initial)
    else initial.mvIni - RelayAmplitude(config, initial)
  }

  lemma SignAnswers(config: LoopConfig, direction: Direction, initial: InitialReadings, pv: real, sign: int)
    requires Admissible(config, initial) && (sign == 1 || sign == -1)
    requires OnSide(SetupFor(config, direction, initial), pv, sign)
    ensures var c := SetupFor(config, direction, initial);
      c.mvIni + Signed(sign, c.relayAmpRaw) == AnswerTo(config, direction, initial, pv)
  {
    SetupOfConfig(config, direction, initial);
  }

  /** The first sample decides the first output: a step of the configured amplitude against the deviation,
      in the sense of the direction; an amplitude below 0.01 never moves the output at all. */
  lemma FirstActionByDirection(config: LoopConfig, direction: Direction, initial: InitialReadings,
                               startTime: int, ticks: seq<Tick>)
    requires Admissible(config, initial) && ticks != []
    ensures var actions := Actions(SetupFor(config, direction, initial), startTime, ticks);
      if RelayAmplitude(config, initial) < 0.01 then actions == []
      else actions != [] && actions[0] == WriteMv(AnswerTo(config, direction, initial, ticks[0].pv))
  {
    var c := SetupFor(config, direction, initial);
    SetupOfConfig(config, direction, initial);
    StartsOnFirstSampleOrNever(c, startTime, ticks);
    if c.relayAmpRaw >= MIN_MV_CHANGE {
      EngineRefinesRelay(c, startTime, ticks);
      FirstWrite(c, startTime, ticks);
      SignAnswers(config, direction, initial, ticks[0].pv, FirstSign(c, ticks[0].pv));
    }
  }

  lemma FirstWrite(c: Setup, startTime: int, ticks: seq<Tick>)
    requires Physical(c) && c.Total() >= 2 && c.relayAmpRaw >= MIN_MV_CHANGE && ticks != []
    requires Run(c, startTime, ticks).mvSignInit == FirstSign(c, ticks[0].pv)
    ensures var actions := Actions(c, startTime, ticks);
      actions != [] && actions[0] == WriteMv(c.mvIni + Signed(FirstSign(c, ticks[0].pv), c.relayAmpRaw))
  {
    StartsOnFirstSampleOrNever(c, startTime, ticks);
    ActionLog(c, startTime, ticks);
    RunCounted(c, startTime, ticks);
  }

  /** Every switch of a completed test but the last answers the sample it happened on, and the last one
      returns to the initial output; the samples are those at the switch positions. */
  lemma CompletedWrites(config: LoopConfig, direction: Direction, initial: InitialReadings,
                        startTime: int, ticks: seq<Tick>, k: nat)
    requires Admissible(config, initial)
    requires Run(SetupFor(config, direction, initial), startTime, ticks).completed
    requires k < 2 * config.numCyclesSkip + 2 * config.numCyclesCount + 1
    ensures var c := SetupFor(config, direction, initial);
      var actions, live, sw := Actions(c, startTime, ticks), Live(c, startTime, ticks), Switches(c, startTime, ticks);
      && Positions(sw, |live|) && k < |sw| && k < |actions|
      && actions[k] == WriteMv(if k == 2 * config.numCyclesSkip + 2 * config.numCyclesCount then initial.mvIni
                               else AnswerTo(config, direction, initial, live[sw[k]].pv))
  {
    var c := SetupFor(config, direction, initial);
    SetupOfConfig(config, direction, initial);
    RunSided(c, startTime, ticks);
    RunCounted(c, startTime, ticks);
    ActionLog(c, startTime, ticks);
    var s, live, sw := Run(c, startTime, ticks), Live(c, startTime, ticks), Switches(c, startTime, ticks);
    assert Actions(c, startTime, ticks)[k] == WriteMv(MvWritten(c, s.mvSignInit, k));
    SwitchAnswers(config, direction, initial, live, sw, s.mvSignInit, k);
  }

  lemma SwitchAnswers(config: LoopConfig, direction: Direction, initial: InitialReadings, live: seq<Tick>,
                      sw: seq<nat>, init: int, k: nat)
    requires Admissible(config, initial) && Positions(sw, |live|) && k < |sw| && (init == 1 || init == -1)
    requires Sided(SetupFor(config, direction, initial), live, sw, init)
    ensures var c := SetupFor(config, direction, initial);
      c.mvIni + Signed(SignAt(init, k), c.relayAmpRaw) == AnswerTo(config, direction, initial, live[sw[k]].pv)
  {
    SignAnswers(config, direction, initial, live[sw[k]].pv, SignAt(init, k));
  }

  /** On every sample of a running test the hysteresis is the tabled factor of the process and controller
      types times the largest deviation from the initial PV since the last switch. */
  lemma HysteresisOfConfig(config: LoopConfig, direction: Direction, initial: InitialReadings,
                           startTime: int, ticks: seq<Tick>, t: Tick, level: ResponseLevel)
    requires Admissible(config, initial)
    requires !Run(SetupFor(config, direction, initial), startTime, ticks).completed
    ensures var c := SetupFor(config, direction, initial);
      Positions(Switches(c, startTime, ticks), |ticks|)
    ensures var c := SetupFor(config, direction, initial);
      var since := CycleWindow(ticks, Switches(c, startTime, ticks)) + [t.pv];
      Run(c, startTime, ticks + [t]).hysteresis
      == Scale(Lookup(config.processType, config.controllerType, level).beta, MaxDeviation(since, initial.pvIni))
  {
    var c := SetupFor(config, direction, initial);
    SetupOfConfig(config, direction, initial);
    assert c.beta == Lookup(config.processType, config.controllerType, level).beta;
    HysteresisOverRuns(c, startTime, ticks, t);
  }

  /** Consecutive switches of a configured run are at least the configured seconds apart. */
  lemma SpacingOfConfig(config: LoopConfig, direction: Direction, initial: InitialReadings,
                        startTime: int, ticks: seq<Tick>, k: nat)
    requires Admissible(config, initial)
    requires 1 <= k < |Switches(SetupFor(config, direction, initial), startTime, ticks)|
    ensures var c := SetupFor(config, direction, initial);
      var live, sw := Live(c, startTime, ticks), Switches(c, startTime, ticks);
      && Positions(sw, |live|)
      && live[sw[k]].time - live[sw[k - 1]].time >= config.noiseProtectionSecs * 1_000_000_000
  {
    SetupOfConfig(config, direction, initial);
    RunCounted(SetupFor(config, direction, initial), startTime, ticks);
  }
}
