/** The guarantees of the engine, for every sequence of samples. */
module MrftTheorems {
  import opened LoopConfigs
  import opened MrftSpec
  import opened Traces
  import opened MrftRuns

  // ----- The relay amplitude and the MV range -----

  function RawAmplitude(percent: real, low: real, high: real): real {
    percent / 100.0 * (high - low)
  }

  /** The one-sided clamp is the largest amplitude that keeps both relay levels in range, exactly
      when the upper bound does not hide a tighter lower one. */
  lemma ClampIsTightest(percent: real, mvIni: real, low: real, high: real)
    requires low <= mvIni <= high && RawAmplitude(percent, low, high) >= 0.0
    ensures var raw := RawAmplitude(percent, low, high);
      ClampRelayAmplitude(percent, mvIni, low, high) == Min(raw, Min(high - mvIni, mvIni - low))
      <==> !(mvIni + raw > high && high - mvIni > mvIni - low)
  {
  }

  lemma ValidatedRawAmplitude(percent: real, low: real, high: real)
    requires low < high && RELAY_AMP_PERCENT_MIN <= percent <= RELAY_AMP_PERCENT_MAX
    ensures 0.0 < RawAmplitude(percent, low, high) <= (high - low) / 2.0
  {
    var fraction, span := percent / 100.0, high - low;
    assert fraction <= 0.5;
    assert fraction * span <= 0.5 * span;
    assert 0.0 < fraction * span;
  }

  /** Validation's upper bound on the amplitude rules the hidden case out. */
  lemma ValidatedClampStaysInRange(config: LoopConfig, range: MvRange, mvIni: real)
    requires config.Validate().Ok? && NewMvRange(range.high, range.low).Ok? && range.Contains(mvIni)
    ensures var raw := RawAmplitude(config.relayAmpPercent, range.low, range.high);
      var amp := ClampRelayAmplitude(config.relayAmpPercent, mvIni, range.low, range.high);
      && amp == Min(raw, Min(range.high - mvIni, mvIni - range.low))
      && amp >= 0.0
      && range.Contains(mvIni + amp) && range.Contains(mvIni - amp)
      && (amp == 0.0 <==> mvIni == range.low || mvIni == range.high)
  {
    ValidatedRawAmplitude(config.relayAmpPercent, range.low, range.high);
    ClampIsTightest(config.relayAmpPercent, mvIni, range.low, range.high);
  }

  /** A validated 60 % amplitude does not exist; if it did, the clamp would leave the range. */
  lemma ClampCanLeaveTheRange()
    ensures var amp := ClampRelayAmplitude(60.0, 45.0, 0.0, 100.0);
      amp == 55.0 && 45.0 - amp < 0.0
  {
  }

  // ----- Every action of a run -----

  lemma RunCounted(c: Setup, startTime: int, ticks: seq<Tick>)
    requires c.Valid()
    ensures Counted(c, Live(c, startTime, ticks), Switches(c, startTime, ticks), Run(c, startTime, ticks))
  {
    RunInvariant(c, startTime, ticks);
  }

  /** The `k`-th MV the run writes, counting from zero. */
  function MvWritten(c: Setup, init: int, k: nat): real {
    MvAfter(c, init, k + 1)
  }

  function Writes(c: Setup, init: int, n: nat): seq<Action> {
    seq(n, k requires 0 <= k < n => WriteMv(MvWritten(c, init, k)))
  }

  function Completion(s: State): seq<Action> {
    if s.completed then [Complete(s.peaks, s.troughs, s.switchTimes, s.mvSignInit)] else []
  }

  /** The actions emitted so far are the writes of all switches and the completion, if there is one. */
  ghost predicate IsLog(c: Setup, s: State, actions: seq<Action>) {
    actions == Writes(c, s.mvSignInit, s.counter) + Completion(s)
  }

  /** A run writes one alternating MV per switch, and then, once, its completion; nothing follows.
      This is the whole list of its actions, whatever the samples. */
  lemma {:induction false} ActionLog(c: Setup, startTime: int, ticks: seq<Tick>)
    requires c.Valid()
    ensures IsLog(c, Run(c, startTime, ticks), Actions(c, startTime, ticks))
  {
    if ticks != [] {
      var before, t := ticks[..|ticks| - 1], ticks[|ticks| - 1];
      ActionLog(c, startTime, before);
      RunCounted(c, startTime, before);
      assert before + [t] == ticks;
      ActionLogAppend(c, startTime, before, t);
    }
  }

  lemma ActionLogAppend(c: Setup, startTime: int, ticks: seq<Tick>, t: Tick)
    requires c.Valid() && Counted(c, Live(c, startTime, ticks), Switches(c, startTime, ticks), Run(c, startTime, ticks))
    requires IsLog(c, Run(c, startTime, ticks), Actions(c, startTime, ticks))
    ensures IsLog(c, Run(c, startTime, ticks + [t]), Actions(c, startTime, ticks + [t]))
  {
    var s := Run(c, startTime, ticks);
    RunAppend(c, startTime, ticks, t);
    if !s.completed {
      LiveWhileRunning(c, startTime, ticks);
      ActionLogStep(c, ticks, Switches(c, startTime, ticks), s, t);
      assert Actions(c, startTime, ticks) == Writes(c, s.mvSignInit, s.counter);
    }
  }

  /** The actions of one sample: the MV now held if it switched, and the completion if it is the
      completing one. */
  lemma StepActions(c: Setup, s: State, t: Tick)
    requires !s.completed
    ensures var (r, actions) := Step(c, s, t);
      actions == (if Switching(c, s, t) then [WriteMv(r.mvCurrent)] else []) + Completion(r)
  {
  }

  lemma ActionLogStep(c: Setup, ticks: seq<Tick>, sw: seq<nat>, s: State, t: Tick)
    requires c.Valid() && Counted(c, ticks, sw, s) && !s.completed
    ensures var (r, actions) := Step(c, s, t);
      Writes(c, s.mvSignInit, s.counter) + actions == Writes(c, r.mvSignInit, r.counter) + Completion(r)
  {
    var r := Step(c, s, t).0;
    StepActions(c, s, t);
    CountedStep(c, ticks, sw, s, t);
    WritesAgree(c, r.mvSignInit, s.mvSignInit, s.counter);
    if Switching(c, s, t) {
      SwitchIsLogged(c, r, s.counter);
    }
  }

  lemma SwitchIsLogged(c: Setup, r: State, n: nat)
    requires r.counter == n + 1 && r.mvCurrent == MvWritten(c, r.mvSignInit, n)
    ensures Writes(c, r.mvSignInit, n) + ([WriteMv(r.mvCurrent)] + Completion(r))
         == Writes(c, r.mvSignInit, r.counter) + Completion(r)
  {
    WritesAppend(c, r.mvSignInit, n);
  }

  lemma WritesAgree(c: Setup, init: int, other: int, n: nat)
    requires n > 0 ==> init == other
    ensures Writes(c, init, n) == Writes(c, other, n)
  {
  }

  lemma WritesAppend(c: Setup, init: int, n: nat)
    ensures Writes(c, init, n + 1) == Writes(c, init, n) + [WriteMv(MvWritten(c, init, n))]
  {
  }

  /** A relay too small to count never starts: the whole run emits nothing. Any other relay
      switches on the very first sample. */
  lemma StartsOnFirstSampleOrNever(c: Setup, startTime: int, ticks: seq<Tick>)
    requires c.Valid() && ticks != []
    ensures Actions(c, startTime, ticks) == [] <==> Abs(c.relayAmpRaw) < MIN_MV_CHANGE
    ensures Abs(c.relayAmpRaw) >= MIN_MV_CHANGE ==>
      Switches(c, startTime, ticks) != [] && Switches(c, startTime, ticks)[0] == 0
  {
    RunCounted(c, startTime, ticks);
    LiveIsNonempty(c, startTime, ticks);
    ActionLog(c, startTime, ticks);
    SilentOrStarted(c, Switches(c, startTime, ticks), Run(c, startTime, ticks), Actions(c, startTime, ticks));
  }

  lemma SilentOrStarted(c: Setup, sw: seq<nat>, s: State, actions: seq<Action>)
    requires IsLog(c, s, actions) && s.counter == |sw| && (s.completed ==> sw != [])
    ensures actions == [] <==> sw == []
  {
  }

  lemma {:induction false} LiveIsNonempty(c: Setup, startTime: int, ticks: seq<Tick>)
    requires ticks != [] && c.Valid()
    ensures Live(c, startTime, ticks) != []
  {
    if |ticks| > 1 {
      LiveIsNonempty(c, startTime, ticks[..|ticks| - 1]);
    } else {
      assert ticks[..0] == [];
    }
  }

  /** The completed run in full: `2 * skip + 2 * count + 1` writes that alternate around the
      initial MV and end on it, then the completion. */
  lemma CompletedRunLog(config: LoopConfig, direction: Direction, beta: real, initial: InitialReadings,
                        startTime: int, ticks: seq<Tick>)
    requires config.CountersFit() && Run(NewSetup(config, direction, beta, initial), startTime, ticks).completed
    ensures var c := NewSetup(config, direction, beta, initial);
      var s, log := Run(c, startTime, ticks), Actions(c, startTime, ticks);
      var n := 2 * config.numCyclesSkip + 2 * config.numCyclesCount + 1;
      && |log| == n + 1
      && (s.mvSignInit == 1 || s.mvSignInit == -1)
      && (forall k | 0 <= k < n - 1 ::
            var sign := if k % 2 == 0 then s.mvSignInit else -s.mvSignInit;
            log[k] == WriteMv(initial.mvIni + Signed(sign, c.relayAmpRaw)))
      && log[n - 1] == WriteMv(initial.mvIni)
      && log[n] == Complete(s.peaks, s.troughs, s.switchTimes, s.mvSignInit)
  {
    var c := NewSetup(config, direction, beta, initial);
    NewSetupIsValid(config, direction, beta, initial);
    var s := Run(c, startTime, ticks);
    ActionLog(c, startTime, ticks);
    RunCounted(c, startTime, ticks);
    forall k | 0 <= k < s.counter - 1
      ensures MvWritten(c, s.mvSignInit, k)
           == c.mvIni + Signed(if k % 2 == 0 then s.mvSignInit else -s.mvSignInit, c.relayAmpRaw)
    {
    }
  }

  /** Every MV a validated run ever writes lies in the MV range. */
  lemma EveryWriteInRange(config: LoopConfig, direction: Direction, beta: real, initial: InitialReadings,
                          startTime: int, ticks: seq<Tick>, mv: real)
    requires config.Validate().Ok? && config.CountersFit()
    requires NewMvRange(initial.mvRangeHigh, initial.mvRangeLow).Ok?
    requires initial.mvRangeLow <= initial.mvIni <= initial.mvRangeHigh
    requires WriteMv(mv) in Actions(NewSetup(config, direction, beta, initial), startTime, ticks)
    ensures initial.mvRangeLow <= mv <= initial.mvRangeHigh
  {
    var c := NewSetup(config, direction, beta, initial);
    NewSetupIsValid(config, direction, beta, initial);
    ValidatedClampStaysInRange(config, MvRange(initial.mvRangeHigh, initial.mvRangeLow), initial.mvIni);
    ActionLog(c, startTime, ticks);
    var s := Run(c, startTime, ticks);
    assert WriteMv(mv) in Writes(c, s.mvSignInit, s.counter);
    var k :| 0 <= k < s.counter && mv == MvWritten(c, s.mvSignInit, k);
  }

  /** The two cycle counters, under truncating division, on every reachable state. */
  lemma CycleCounters(config: LoopConfig, direction: Direction, beta: real, initial: InitialReadings,
                      startTime: int, ticks: seq<Tick>)
    requires config.CountersFit()
    ensures var c := NewSetup(config, direction, beta, initial);
      var s := Run(c, startTime, ticks);
      var total := config.numCyclesSkip + config.numCyclesCount;
      && CyclesCompleted(s) + CyclesRemaining(c, s) == (if s.counter == 0 then total + 1 else total)
      && 0 <= CyclesCompleted(s) <= total
      && (CyclesRemaining(c, s) == 0 <==> s.completed)
  {
    var c := NewSetup(config, direction, beta, initial);
    NewSetupIsValid(config, direction, beta, initial);
    RunCounted(c, startTime, ticks);
    CountersAdd(config.numCyclesSkip, config.numCyclesCount, Run(c, startTime, ticks).counter);
  }

  lemma CountersAdd(skip: nat, count: nat, counter: nat)
    requires counter <= 2 * skip + 1 + 2 * count
    ensures var done, left := HalveTowardZero(counter - 1), HalveTowardZero(2 * skip + 1 + 2 * count - counter + 1);
      && done + left == (if counter == 0 then skip + count + 1 else skip + count)
      && 0 <= done <= skip + count
      && (left == 0 <==> counter == 2 * skip + 1 + 2 * count)
  {
  }

  // ----- The shape of the recorded lists -----

  /** How many of the first `n` switches were recorded. */
  function RecordedCount(c: Setup, n: nat): nat {
    if n + 1 >= c.numSwitchesSkip then n + 1 - c.numSwitchesSkip else 0
  }

  predicate FirstIsPeak(c: Setup, init: int) {
    SignsAgree(init, c.actionMultiplier)
  }

  /** The switch that closed the `i`-th recorded peak. */
  function PeakSwitch(c: Setup, init: int, i: nat): nat
    requires c.Valid()
  {
    c.numSwitchesSkip - 1 + 2 * i + if FirstIsPeak(c, init) then 0 else 1
  }

  /** The switch that closed the `i`-th recorded trough. */
  function TroughSwitch(c: Setup, init: int, i: nat): nat
    requires c.Valid()
  {
    c.numSwitchesSkip - 1 + 2 * i + if FirstIsPeak(c, init) then 1 else 0
  }

  lemma PeakParity(c: Setup, init: int, k: nat)
    requires c.Valid() && (init == 1 || init == -1)
    ensures IsPeak(c, init, k) <==> (FirstIsPeak(c, init) <==> k % 2 == 0)
  {
  }

  /** The switches below `n` that were recorded on one side. */
  function RecordedOn(c: Setup, init: int, peak: bool, n: nat): (r: seq<nat>)
    ensures forall i | 0 <= i < |r| :: r[i] < n
  {
    if n == 0 then []
    else
      var before := RecordedOn(c, init, peak, n - 1);
      if RecordedAs(c, init, peak, n - 1) then before + [n - 1] else before
  }

  /** The recorded switches of one side are every other one, starting with the first recorded
      switch exactly when that one is on this side. */
  lemma {:induction false} RecordedEveryOther(c: Setup, init: int, peak: bool, n: nat)
    requires c.Valid() && (init == 1 || init == -1)
    ensures var r, j := RecordedOn(c, init, peak, n), RecordedCount(c, n);
      && |r| == (if FirstIsPeak(c, init) == peak then (j + 1) / 2 else j / 2)
      && forall i | 0 <= i < |r| :: r[i] == (if peak then PeakSwitch(c, init, i) else TroughSwitch(c, init, i))
  {
    if n > 0 {
      RecordedEveryOther(c, init, peak, n - 1);
      PeakParity(c, init, n - 1);
    }
  }

  lemma {:induction false} PeaksAreExtremes(c: Setup, ticks: seq<Tick>, sw: seq<nat>, init: int, n: nat)
    requires Positions(sw, |ticks|) && n <= |sw|
    ensures var peaks, on := Peaks(c, ticks, sw, init, n), RecordedOn(c, init, true, n);
      |peaks| == |on| && forall i | 0 <= i < |on| :: peaks[i] == MaxOf(ClosedWindow(c, ticks, sw, on[i]))
  {
    if n > 0 {
      PeaksAreExtremes(c, ticks, sw, init, n - 1);
      var before := RecordedOn(c, init, true, n - 1);
      assert Peaks(c, ticks, sw, init, n)[..|before|] == Peaks(c, ticks, sw, init, n - 1);
    }
  }

  lemma {:induction false} TroughsAreExtremes(c: Setup, ticks: seq<Tick>, sw: seq<nat>, init: int, n: nat)
    requires Positions(sw, |ticks|) && n <= |sw|
    ensures var troughs, on := Troughs(c, ticks, sw, init, n), RecordedOn(c, init, false, n);
      |troughs| == |on| && forall i | 0 <= i < |on| :: troughs[i] == MinOf(ClosedWindow(c, ticks, sw, on[i]))
  {
    if n > 0 {
      TroughsAreExtremes(c, ticks, sw, init, n - 1);
      var before := RecordedOn(c, init, false, n - 1);
      assert Troughs(c, ticks, sw, init, n)[..|before|] == Troughs(c, ticks, sw, init, n - 1);
    }
  }

  lemma {:induction false} TimesShape(c: Setup, ticks: seq<Tick>, sw: seq<nat>, n: nat)
    requires c.Valid() && Positions(sw, |ticks|) && n <= |sw|
    ensures var times := Times(c, ticks, sw, n);
      && |times| == RecordedCount(c, n)
      && forall j | 0 <= j < |times| :: times[j] == ticks[sw[c.numSwitchesSkip - 1 + j]].time
  {
    if n > 0 {
      TimesShape(c, ticks, sw, n - 1);
    }
  }

  // ----- Which side of the initial PV each switch falls on -----

  /** Where a sample that switches the relay to `sign` lies: on the side that `sign` counteracts. */
  predicate OnSide(c: Setup, pv: real, sign: int) {
    if c.actionMultiplier == 1 then (if sign == 1 then pv <= c.pvIni else pv > c.pvIni)
    else (if sign == 1 then pv >= c.pvIni else pv < c.pvIni)
  }

  ghost predicate Sided(c: Setup, ticks: seq<Tick>, sw: seq<nat>, init: int)
    requires Positions(sw, |ticks|)
  {
    forall k | 0 <= k < |sw| :: OnSide(c, ticks[sw[k]].pv, SignAt(init, k))
  }

  predicate Physical(c: Setup) {
    c.Valid() && 0.0 <= c.beta < 1.0 && c.relayAmpRaw >= 0.0
  }

  function BatchHysteresis(c: Setup, since: seq<real>): real {
    Scale(c.beta, MaxDeviation(since, c.pvIni))
  }

  /** The tracked hysteresis is `beta` times the largest deviation since the last switch, that
      switch's own sample excluded. */
  lemma HysteresisIsBatch(c: Setup, ticks: seq<Tick>, sw: seq<nat>, s: State, t: Tick)
    requires Positions(sw, |ticks|) && Tracked(c, ticks, sw, s)
    ensures Observe(c, s, t).hysteresis == BatchHysteresis(c, CycleWindow(ticks, sw) + [t.pv])
  {
    var o, window := Observe(c, s, t), CycleWindow(ticks, sw) + [t.pv];
    WindowsGrow(c, ticks, sw, t);
    TrackedObserve(c, ticks, sw, s, t);
    HysteresisOfTrackers(c, o, window);
    assert o.hysteresis == HysteresisFor(c.beta, o.maxPvCycle, o.minPvCycle, c.pvIni);
  }

  lemma HysteresisOfTrackers(c: Setup, o: State, window: seq<real>)
    requires o.maxPvCycle == MaxOf([c.pvIni] + window) && o.minPvCycle == MinOf([c.pvIni] + window)
    ensures HysteresisFor(c.beta, o.maxPvCycle, o.minPvCycle, c.pvIni) == BatchHysteresis(c, window)
  {
    DeviationFromExtremes(window, c.pvIni);
  }

  /** On every sample of every run the hysteresis is that of the raw trace since the last switch. */
  lemma HysteresisOverRuns(c: Setup, startTime: int, ticks: seq<Tick>, t: Tick)
    requires c.Valid() && !Run(c, startTime, ticks).completed
    ensures Positions(Switches(c, startTime, ticks), |ticks|)
    ensures Run(c, startTime, ticks + [t]).hysteresis
         == BatchHysteresis(c, CycleWindow(ticks, Switches(c, startTime, ticks)) + [t.pv])
  {
    var s := Run(c, startTime, ticks);
    RunInvariant(c, startTime, ticks);
    LiveWhileRunning(c, startTime, ticks);
    RunAppend(c, startTime, ticks, t);
    HysteresisIsBatch(c, ticks, Switches(c, startTime, ticks), s, t);
    HysteresisSurvives(c, s, t);
  }

  lemma HysteresisSurvives(c: Setup, s: State, t: Tick)
    requires !s.completed
    ensures Step(c, s, t).0.hysteresis == Observe(c, s, t).hysteresis
  {
  }

  lemma HysteresisBound(c: Setup, since: seq<real>)
    requires 0.0 <= c.beta < 1.0
    ensures BatchHysteresis(c, since) >= 0.0
    ensures forall pv :: since == [pv] && pv != c.pvIni ==> BatchHysteresis(c, since) < Abs(pv - c.pvIni)
  {
    DeviationIsLargest(since, c.pvIni);
    Shrinks(c.beta, MaxDeviation(since, c.pvIni));
    if |since| == 1 {
      assert since[..0] == [];
      assert MaxDeviation(since, c.pvIni) == Abs(since[0] - c.pvIni);
    }
  }

  lemma Shrinks(x: real, y: real)
    requires 0.0 <= x < 1.0 && y >= 0.0
    ensures Scale(x, y) >= 0.0
    ensures y > 0.0 ==> Scale(x, y) < y
  {
    if y > 0.0 {
      assert (1.0 - x) * y > 0.0;
    }
  }

  /** Whether a PV has gone far enough past the initial PV to reverse a relay holding `sign`. */
  predicate Crossed(c: Setup, pv: real, hysteresis: real, sign: int) {
    if c.actionMultiplier == 1 then
      (if sign == 1 then pv > c.pvIni + hysteresis else pv <= c.pvIni - hysteresis)
    else
      (if sign == 1 then pv < c.pvIni - hysteresis else pv >= c.pvIni + hysteresis)
  }

  /** The sign a relay at rest takes: the one that pushes the PV back to where it started. */
  function FirstSign(c: Setup, pv: real): int {
    if c.actionMultiplier == 1 then (if pv <= c.pvIni then 1 else -1)
    else (if pv >= c.pvIni then 1 else -1)
  }

  lemma SignRule(c: Setup, pv: real, hysteresis: real, sign: int)
    requires c.Valid() && (sign == 1 || sign == -1)
    ensures NextSign(c, pv, hysteresis, sign) == (if Crossed(c, pv, hysteresis, sign) then -sign else sign)
    ensures hysteresis >= 0.0 && Crossed(c, pv, hysteresis, sign) ==> OnSide(c, pv, -sign)
    ensures 0.0 <= hysteresis && (pv != c.pvIni ==> hysteresis < Abs(pv - c.pvIni)) ==>
      NextSign(c, pv, hysteresis, 1) == FirstSign(c, pv) && OnSide(c, pv, FirstSign(c, pv))
  {
  }

  /** The first sample of a run sets the relay against the deviation it shows. */
  lemma FirstSwitchRule(c: Setup, s: State, t: Tick)
    requires Physical(c) && Counted(c, [], [], s) && Tracked(c, [], [], s) && !s.completed
    ensures Switching(c, s, t) <==> c.relayAmpRaw >= MIN_MV_CHANGE
    ensures Observe(c, s, t).mvSignInit == FirstSign(c, t.pv)
    ensures OnSide(c, t.pv, FirstSign(c, t.pv))
  {
    HysteresisIsBatch(c, [], [], s, t);
    var since := CycleWindow([], []) + [t.pv];
    assert since == [t.pv];
    HysteresisBound(c, since);
    SignRule(c, t.pv, BatchHysteresis(c, since), 1);
  }

  /** After the first switch, the relay reverses on a sample exactly when the noise-protection
      delay has passed and the PV has crossed to the far side of the batch hysteresis. */
  predicate RelayRule(c: Setup, ticks: seq<Tick>, sw: seq<nat>, init: int, t: Tick)
    requires Positions(sw, |ticks|) && sw != []
  {
    && t.time >= ticks[sw[|sw| - 1]].time + Seconds(c.noiseProtectionSecs)
    && Crossed(c, t.pv, BatchHysteresis(c, CycleWindow(ticks, sw) + [t.pv]), SignAt(init, |sw| - 1))
  }

  /** Once started, the engine switches exactly when the delay has passed and the sign it wants
      differs from the one it holds. */
  lemma SwitchingIsReversal(c: Setup, ticks: seq<Tick>, sw: seq<nat>, s: State, t: Tick)
    requires Physical(c) && Counted(c, ticks, sw, s) && sw != [] && !s.completed
    ensures var sign := SignAt(s.mvSignInit, |sw| - 1);
      && (sign == 1 || sign == -1)
      && Observe(c, s, t).mvSignNextStep == NextSign(c, t.pv, Observe(c, s, t).hysteresis, sign)
      && (Switching(c, s, t) <==>
            && t.time >= ticks[sw[|sw| - 1]].time + Seconds(c.noiseProtectionSecs)
            && Observe(c, s, t).mvSignNextStep == -sign)
  {
    assert s.mvCurrent == c.mvIni + Signed(SignAt(s.mvSignInit, |sw| - 1), c.relayAmpRaw);
    assert c.relayAmpRaw >= MIN_MV_CHANGE;
  }

  lemma SwitchingIsRelayRule(c: Setup, ticks: seq<Tick>, sw: seq<nat>, s: State, t: Tick)
    requires Physical(c) && Counted(c, ticks, sw, s) && Tracked(c, ticks, sw, s)
    requires sw != [] && !s.completed
    ensures Switching(c, s, t) <==> RelayRule(c, ticks, sw, s.mvSignInit, t)
  {
    var since, sign := CycleWindow(ticks, sw) + [t.pv], SignAt(s.mvSignInit, |sw| - 1);
    SwitchingIsReversal(c, ticks, sw, s, t);
    HysteresisIsBatch(c, ticks, sw, s, t);
    SignRule(c, t.pv, BatchHysteresis(c, since), sign);
  }

  lemma RelayRuleSide(c: Setup, ticks: seq<Tick>, sw: seq<nat>, init: int, t: Tick)
    requires Physical(c) && Positions(sw, |ticks|) && sw != [] && (init == 1 || init == -1)
    requires RelayRule(c, ticks, sw, init, t)
    ensures OnSide(c, t.pv, SignAt(init, |sw|))
  {
    var since := CycleWindow(ticks, sw) + [t.pv];
    HysteresisBound(c, since);
    SignRule(c, t.pv, BatchHysteresis(c, since), SignAt(init, |sw| - 1));
  }

  lemma SwitchSide(c: Setup, ticks: seq<Tick>, sw: seq<nat>, s: State, t: Tick)
    requires Physical(c) && Counted(c, ticks, sw, s) && Tracked(c, ticks, sw, s) && Switching(c, s, t)
    ensures OnSide(c, t.pv, SignAt(Observe(c, s, t).mvSignInit, |sw|))
  {
    SwitchReverses(c, ticks, sw, s, t);
    if sw == [] {
      FirstSwitchRule(c, s, t);
    } else {
      SwitchingIsRelayRule(c, ticks, sw, s, t);
      RelayRuleSide(c, ticks, sw, s.mvSignInit, t);
    }
  }

  lemma SidedStep(c: Setup, ticks: seq<Tick>, sw: seq<nat>, s: State, t: Tick)
    requires Physical(c) && Invariant(c, ticks, sw, s) && !s.completed && Sided(c, ticks, sw, s.mvSignInit)
    ensures var sw' := if Switching(c, s, t) then sw + [|ticks|] else sw;
      Positions(sw', |ticks + [t]|) && Sided(c, ticks + [t], sw', Step(c, s, t).0.mvSignInit)
  {
    SpacedStep(c, ticks, sw, t);
    if Switching(c, s, t) {
      SwitchEffect(c, s, t);
      SwitchReverses(c, ticks, sw, s, t);
      SwitchSide(c, ticks, sw, s, t);
      SidedAppend(c, ticks, sw, t, s.mvSignInit, Observe(c, s, t).mvSignInit);
    }
  }

  lemma SidedAppend(c: Setup, ticks: seq<Tick>, sw: seq<nat>, t: Tick, init: int, next: int)
    requires Positions(sw, |ticks|) && Sided(c, ticks, sw, init) && (sw != [] ==> init == next)
    requires OnSide(c, t.pv, SignAt(next, |sw|))
    ensures Positions(sw + [|ticks|], |ticks + [t]|) && Sided(c, ticks + [t], sw + [|ticks|], next)
  {
  }

  ghost predicate RunIsSided(c: Setup, startTime: int, ticks: seq<Tick>) {
    var live, sw := Live(c, startTime, ticks), Switches(c, startTime, ticks);
    Positions(sw, |live|) && Sided(c, live, sw, Run(c, startTime, ticks).mvSignInit)
  }

  /** Every switch of every run falls on the side of the initial PV that its sign counteracts. */
  lemma {:induction false} RunSided(c: Setup, startTime: int, ticks: seq<Tick>)
    requires Physical(c)
    ensures RunIsSided(c, startTime, ticks)
  {
    if ticks != [] {
      var before := ticks[..|ticks| - 1];
      RunSided(c, startTime, before);
      RunSidedAppend(c, startTime, before, ticks[|ticks| - 1]);
      assert before + [ticks[|ticks| - 1]] == ticks;
    }
  }

  lemma RunSidedAppend(c: Setup, startTime: int, ticks: seq<Tick>, t: Tick)
    requires Physical(c) && RunIsSided(c, startTime, ticks)
    ensures RunIsSided(c, startTime, ticks + [t])
  {
    var s := Run(c, startTime, ticks);
    HistoryAppend(c, startTime, ticks, t);
    if !s.completed {
      RunInvariant(c, startTime, ticks);
      LiveWhileRunning(c, startTime, ticks);
      SidedStep(c, ticks, Switches(c, startTime, ticks), s, t);
    }
  }

  /** How one more sample extends a run, its switches and its live trace. */
  lemma HistoryAppend(c: Setup, startTime: int, ticks: seq<Tick>, t: Tick)
    ensures var s, sw := Run(c, startTime, ticks), Switches(c, startTime, ticks);
      && Run(c, startTime, ticks + [t]) == Step(c, s, t).0
      && Switches(c, startTime, ticks + [t]) == (if Switching(c, s, t) then sw + [|ticks|] else sw)
      && Live(c, startTime, ticks + [t])
         == (if s.completed then Live(c, startTime, ticks) else Live(c, startTime, ticks) + [t])
  {
    assert (ticks + [t])[..|ticks|] == ticks;
  }

  /** The positions at which a relay following the batch rule switches. It keeps no trackers: each
      decision looks back over the raw trace. */
  function RelaySwitches(c: Setup, ticks: seq<Tick>): (sw: seq<nat>)
    ensures Positions(sw, |ticks|)
  {
    if ticks == [] then []
    else
      var n := |ticks| - 1;
      var sw := RelaySwitches(c, ticks[..n]);
      if |sw| < c.Total() && (sw == [] || RelayRule(c, ticks[..n], sw, FirstSign(c, ticks[0].pv), ticks[n]))
      then sw + [n] else sw
  }

  lemma RelaySwitchesAppend(c: Setup, ticks: seq<Tick>, t: Tick)
    ensures var sw := RelaySwitches(c, ticks);
      RelaySwitches(c, ticks + [t])
      == if |sw| < c.Total() && (sw == [] || RelayRule(c, ticks, sw, FirstSign(c, ticks[0].pv), t))
         then sw + [|ticks|] else sw
  {
    assert (ticks + [t])[..|ticks|] == ticks;
  }

  ghost predicate IsRelay(c: Setup, startTime: int, ticks: seq<Tick>) {
    && Switches(c, startTime, ticks) == RelaySwitches(c, ticks)
    && (ticks != [] ==> Run(c, startTime, ticks).mvSignInit == FirstSign(c, ticks[0].pv))
  }

  /** The engine, with its two families of incremental trackers, is that relay. */
  lemma {:induction false} EngineRefinesRelay(c: Setup, startTime: int, ticks: seq<Tick>)
    requires Physical(c) && c.relayAmpRaw >= MIN_MV_CHANGE
    ensures IsRelay(c, startTime, ticks)
  {
    if ticks != [] {
      var before := ticks[..|ticks| - 1];
      EngineRefinesRelay(c, startTime, before);
      EngineRefinesRelayAppend(c, startTime, before, ticks[|ticks| - 1]);
      assert before + [ticks[|ticks| - 1]] == ticks;
    }
  }

  lemma EngineRefinesRelayAppend(c: Setup, startTime: int, ticks: seq<Tick>, t: Tick)
    requires Physical(c) && c.relayAmpRaw >= MIN_MV_CHANGE && IsRelay(c, startTime, ticks)
    ensures IsRelay(c, startTime, ticks + [t])
  {
    RunInvariant(c, startTime, ticks);
    var s, sw := Run(c, startTime, ticks), Switches(c, startTime, ticks);
    HistoryAppend(c, startTime, ticks, t);
    RelaySwitchesAppend(c, ticks, t);
    if !s.completed {
      LiveWhileRunning(c, startTime, ticks);
      if ticks == [] {
        FirstSwitchRule(c, s, t);
        SwitchEffect(c, s, t);
      } else {
        SwitchingIsRelayRule(c, ticks, sw, s, t);
        InitIsFixed(c, s, t);
      }
    }
  }

  /** The first sign is frozen once a switch has happened. */
  lemma InitIsFixed(c: Setup, s: State, t: Tick)
    requires s.counter > 0
    ensures Step(c, s, t).0.mvSignInit == s.mvSignInit
  {
  }
}
