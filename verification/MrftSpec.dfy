/** One sample's effect on the relay-feedback engine, as functions on a state value, and the state
    and actions after a whole sequence of samples. Times are integer nanoseconds; process values
    are exact reals. */
module MrftSpec {
  import opened LoopConfigs

  /** A whole number of seconds, in nanoseconds. */
  function Seconds(n: int): int { n * 1_000_000_000 }

  /** The smallest MV change that counts as a switch. */
  const MIN_MV_CHANGE := 0.01

  datatype Tick = Tick(time: int, pv: real)

  datatype Action =
    | WriteMv(mv: real)
    | Complete(peaks: seq<real>, troughs: seq<real>, switchTimes: seq<int>, mvSignInit: int)

  datatype InitialReadings = InitialReadings(pvIni: real, mvIni: real, mvRangeLow: real, mvRangeHigh: real)

  function Max(x: real, y: real): real { if x >= y then x else y }

  function Min(x: real, y: real): real { if x <= y then x else y }

  function Abs(x: real): real { if x >= 0.0 then x else -x }

  function Scale(x: real, y: real): real { x * y }

  /** `sign * x` for a sign of 1 or -1. */
  function Signed(sign: int, x: real): real { if sign == 1 then x else -x }

  /** Whether the product of two signs, each 1 or -1, is 1. */
  predicate SignsAgree(a: int, b: int) { a == b }

  /** Division of a machine integer by two, truncating toward zero. */
  function HalveTowardZero(n: int): int { if n >= 0 then n / 2 else -(-n / 2) }

  function ClampRelayAmplitude(percent: real, mvIni: real, low: real, high: real): real {
    var raw := percent / 100.0 * (high - low);
    if mvIni + raw > high then high - mvIni
    else if mvIni - raw < low then mvIni - low
    else raw
  }

  // ----- The step function -----

  /** What stays fixed for the life of one engine. */
  datatype Setup = Setup(
    beta: real,
    actionMultiplier: int,
    relayAmpRaw: real,
    pvIni: real,
    mvIni: real,
    numSwitchesSkip: nat,
    numCyclesCount: nat,
    noiseProtectionSecs: nat)
  {
    /** The number of switches after which the test is complete. */
    function Total(): nat { numSwitchesSkip + numCyclesCount * 2 }

    predicate Valid() {
      && (actionMultiplier == 1 || actionMultiplier == -1)
      && numSwitchesSkip % 2 == 1
    }
  }

  datatype State = State(
    mvCurrent: real,
    mvNextStep: real,
    maxPvCycle: real,
    minPvCycle: real,
    maxPvResult: real,
    minPvResult: real,
    hysteresis: real,
    mvSignNextStep: int,
    mvSignInit: int,
    timePreviousSwitch: int,
    counter: nat,
    peaks: seq<real>,
    troughs: seq<real>,
    switchTimes: seq<int>,
    completed: bool)

  function NewSetup(config: LoopConfig, direction: Direction, beta: real, initial: InitialReadings): Setup {
    Setup(beta,
          direction.ActionMultiplier(),
          ClampRelayAmplitude(config.relayAmpPercent, initial.mvIni, initial.mvRangeLow, initial.mvRangeHigh),
          initial.pvIni,
          initial.mvIni,
          config.numCyclesSkip * 2 + 1,
          config.numCyclesCount,
          config.noiseProtectionSecs)
  }

  /** Every engine alternates an odd number of skipped switches with the counted pairs. */
  lemma NewSetupIsValid(config: LoopConfig, direction: Direction, beta: real, initial: InitialReadings)
    ensures var c := NewSetup(config, direction, beta, initial);
      c.Valid() && c.Total() == 2 * config.numCyclesSkip + 2 * config.numCyclesCount + 1
  {
  }

  function Init(c: Setup, startTime: int): State {
    State(c.mvIni, c.mvIni, c.pvIni, c.pvIni, c.pvIni, c.pvIni, 0.0, 1, 0, startTime, 0, [], [], [], false)
  }

  function CyclesCompleted(s: State): int {
    HalveTowardZero(s.counter - 1)
  }

  function CyclesRemaining(c: Setup, s: State): int {
    HalveTowardZero(c.numSwitchesSkip + c.numCyclesCount * 2 - s.counter + 1)
  }

  predicate IsComplete(c: Setup, s: State) {
    s.counter >= c.numSwitchesSkip + c.numCyclesCount * 2
  }

  /** The sign the relay should take next, given the hysteresis and the sign it holds now. */
  function NextSign(c: Setup, pv: real, hysteresis: real, signPrevious: int): (r: int) {
    var spPvDiff := c.pvIni - pv;
    if c.actionMultiplier == 1 then
      if spPvDiff + Signed(signPrevious, hysteresis) >= 0.0 then 1 else -1
    else
      if spPvDiff - Signed(signPrevious, hysteresis) <= 0.0 then 1 else -1
  }

  function HysteresisFor(beta: real, hi: real, lo: real, center: real): real {
    Scale(beta, Max(hi - center, center - lo))
  }

  /** The extremum trackers and the hysteresis after a sample. */
  function Track(c: Setup, s: State, pv: real): State {
    var maxPvCycle := Max(s.maxPvCycle, pv);
    var minPvCycle := Min(s.minPvCycle, pv);
    s.(maxPvCycle := maxPvCycle,
       minPvCycle := minPvCycle,
       maxPvResult := Max(s.maxPvResult, pv),
       minPvResult := Min(s.minPvResult, pv),
       hysteresis := HysteresisFor(c.beta, maxPvCycle, minPvCycle, c.pvIni))
  }

  /** The relay sign and MV to take next, decided from tracked state. */
  function Decide(c: Setup, s: State, pv: real): State {
    var signPrevious := if s.mvCurrent >= c.mvIni then 1 else -1;
    var sign := NextSign(c, pv, s.hysteresis, signPrevious);
    s.(mvSignNextStep := sign,
       mvSignInit := if s.counter == 0 then sign else s.mvSignInit,
       mvNextStep := c.mvIni + Signed(sign, c.relayAmpRaw))
  }

  /** Everything updated on every sample before the completion. */
  function Observe(c: Setup, s: State, t: Tick): State {
    Decide(c, Track(c, s, t.pv), t.pv)
  }

  /** Whether an observed sample makes the relay switch. */
  predicate SwitchNeeded(c: Setup, s: State, t: Tick) {
    && Abs(s.mvNextStep - s.mvCurrent) >= MIN_MV_CHANGE
    && (s.timePreviousSwitch + Seconds(c.noiseProtectionSecs) <= t.time || s.counter == 0)
  }

  /** Records a switch's time and the extremum of the window it closes. */
  function RecordExtremum(c: Setup, s: State, time: int): State {
    var isPeak := SignsAgree(s.mvSignNextStep, c.actionMultiplier);
    s.(switchTimes := s.switchTimes + [time],
       peaks := if isPeak then s.peaks + [s.maxPvResult] else s.peaks,
       troughs := if isPeak then s.troughs else s.troughs + [s.minPvResult])
  }

  /** Counts a switch, records it once the skip period is over, and restarts the trackers: one
      pair from the initial PV, the other from this sample. */
  function Record(c: Setup, s: State, t: Tick): State {
    var counted := s.(timePreviousSwitch := t.time, counter := s.counter + 1);
    var recorded := if counted.counter >= c.numSwitchesSkip then RecordExtremum(c, counted, t.time) else counted;
    recorded.(maxPvCycle := c.pvIni, minPvCycle := c.pvIni, maxPvResult := t.pv, minPvResult := t.pv)
  }

  function PerformSwitch(c: Setup, s: State, t: Tick): State {
    var r := Record(c, s, t);
    r.(mvCurrent := if CyclesRemaining(c, r) == 0 then c.mvIni else r.mvNextStep)
  }

  /** One sample: whether a switch happened, the state it leaves and the actions it asks for. */
  function Step(c: Setup, s: State, t: Tick): (State, seq<Action>) {
    if s.completed then (s, [])
    else
      var observed := Observe(c, s, t);
      var switched := SwitchNeeded(c, observed, t);
      var after := if switched then PerformSwitch(c, observed, t) else observed;
      var writes := if switched then [WriteMv(after.mvCurrent)] else [];
      if IsComplete(c, after) then
        (after.(completed := true),
         writes + [Complete(after.peaks, after.troughs, after.switchTimes, after.mvSignInit)])
      else
        (after, writes)
  }

  /** The state after a whole sequence of samples. */
  function Run(c: Setup, startTime: int, ticks: seq<Tick>): State {
    if ticks == [] then Init(c, startTime)
    else Step(c, Run(c, startTime, ticks[..|ticks| - 1]), ticks[|ticks| - 1]).0
  }

  /** Every action emitted over a sequence of samples, in order. */
  function Actions(c: Setup, startTime: int, ticks: seq<Tick>): seq<Action> {
    if ticks == [] then []
    else
      var before := ticks[..|ticks| - 1];
      Actions(c, startTime, before) + Step(c, Run(c, startTime, before), ticks[|ticks| - 1]).1
  }

  lemma RunAppend(c: Setup, startTime: int, ticks: seq<Tick>, t: Tick)
    ensures Run(c, startTime, ticks + [t]) == Step(c, Run(c, startTime, ticks), t).0
    ensures Actions(c, startTime, ticks + [t])
         == Actions(c, startTime, ticks) + Step(c, Run(c, startTime, ticks), t).1
  {
    assert (ticks + [t])[..|ticks|] == ticks;
  }
}
