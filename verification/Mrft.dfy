/** The engine object. Its methods update the fields in place, and each is proved to have exactly
    the effect that `MrftSpec` gives it. */
module Mrft {
  import opened LoopConfigs
  import opened MrftSpec

  /** A snapshot of the observable state. */
  datatype MrftState = MrftState(
    hysteresis: real,
    mvValueCurrent: real,
    mvSignNextStep: int,
    counterAllSwitches: nat,
    cyclesCompleted: int,
    cyclesRemaining: int)

  class MrftEngine {
    const beta: real
    const actionMultiplier: int
    const relayAmpRaw: real
    const pvValueIni: real
    const mvValueIni: real
    const numSwitchesSkip: nat
    const numCyclesCount: nat
    const noiseProtectionSecs: nat

    var mvValueCurrent: real
    var mvValueNextStep: real
    var maxPvCycle: real
    var minPvCycle: real
    var maxPvResult: real
    var minPvResult: real
    var hysteresis: real
    var mvSignNextStep: int
    var mvSignInit: int
    var timePreviousSwitch: int
    var counterAllSwitches: nat
    var peaks: seq<real>
    var troughs: seq<real>
    var switchTimes: seq<int>
    var completed: bool

    // The start time, every sample fed in so far and every action they led to.
    ghost const startTime: int
    ghost var trace: seq<Tick>
    ghost var emitted: seq<Action>

    ghost function GetSetup(): Setup {
      Setup(beta, actionMultiplier, relayAmpRaw, pvValueIni, mvValueIni,
            numSwitchesSkip, numCyclesCount, noiseProtectionSecs)
    }

    ghost function View(): State
      reads this
    {
      State(mvValueCurrent, mvValueNextStep, maxPvCycle, minPvCycle, maxPvResult, minPvResult,
            hysteresis, mvSignNextStep, mvSignInit, timePreviousSwitch, counterAllSwitches,
            peaks, troughs, switchTimes, completed)
    }

    /** The fields and the actions are what the step function makes of the samples seen. */
    ghost predicate Valid()
      reads this
    {
      View() == Run(GetSetup(), startTime, trace) && emitted == Actions(GetSetup(), startTime, trace)
    }

    constructor (config: LoopConfig, direction: Direction, beta: real, initial: InitialReadings, startTime: int)
      requires config.CountersFit()
      ensures Valid()
      ensures GetSetup() == NewSetup(config, direction, beta, initial)
      ensures this.startTime == startTime && trace == [] && emitted == []
    {
      this.beta := beta;
      actionMultiplier := direction.ActionMultiplier();
      relayAmpRaw :=
        ClampRelayAmplitude(config.relayAmpPercent, initial.mvIni, initial.mvRangeLow, initial.mvRangeHigh);
      pvValueIni := initial.pvIni;
      mvValueIni := initial.mvIni;
      numSwitchesSkip := config.numCyclesSkip * 2 + 1;
      numCyclesCount := config.numCyclesCount;
      noiseProtectionSecs := config.noiseProtectionSecs;
      mvValueCurrent, mvValueNextStep := initial.mvIni, initial.mvIni;
      maxPvCycle, minPvCycle := initial.pvIni, initial.pvIni;
      maxPvResult, minPvResult := initial.pvIni, initial.pvIni;
      hysteresis := 0.0;
      mvSignNextStep, mvSignInit := 1, 0;
      timePreviousSwitch := startTime;
      counterAllSwitches := 0;
      peaks, troughs, switchTimes := [], [], [];
      completed := false;
      this.startTime := startTime;
      trace, emitted := [], [];
    }

    method Step(tick: Tick) returns (actions: seq<Action>)
      requires Valid()
      modifies this
      ensures Valid()
      ensures trace == old(trace) + [tick] && emitted == old(emitted) + actions
    {
      RunAppend(GetSetup(), startTime, trace, tick);
      actions := Advance(tick);
      trace, emitted := trace + [tick], emitted + actions;
    }

    method Advance(tick: Tick) returns (actions: seq<Action>)
      modifies this
      ensures trace == old(trace) && emitted == old(emitted)
      ensures View() == MrftSpec.Step(GetSetup(), old(View()), tick).0
      ensures actions == MrftSpec.Step(GetSetup(), old(View()), tick).1
    {
      if completed {
        return [];
      }
      actions := [];
      var needed := SwitchIsNeeded(tick);
      if needed {
        var mv := PerformSwitch(tick);
        actions := actions + [WriteMv(mv)];
      }
      var complete := IsComplete();
      if complete {
        completed := true;
        actions := actions + [Complete(peaks, troughs, switchTimes, mvSignInit)];
      }
    }

    method SwitchIsNeeded(tick: Tick) returns (needed: bool)
      modifies `maxPvCycle, `minPvCycle, `maxPvResult, `minPvResult, `hysteresis, `mvSignNextStep, `mvSignInit,
               `mvValueNextStep
      ensures View() == Observe(GetSetup(), old(View()), tick)
      ensures needed == SwitchNeeded(GetSetup(), View(), tick)
    {
      TrackExtrema(tick.pv);
      DecideNextStep(tick.pv);
      var mvSwitchRequired := Abs(mvValueNextStep - mvValueCurrent) >= MIN_MV_CHANGE;
      var enableMvSwitch :=
        timePreviousSwitch + Seconds(noiseProtectionSecs) <= tick.time || counterAllSwitches == 0;
      needed := mvSwitchRequired && enableMvSwitch;
    }

    method TrackExtrema(pv: real)
      modifies `maxPvCycle, `minPvCycle, `maxPvResult, `minPvResult, `hysteresis
      ensures View() == Track(GetSetup(), old(View()), pv)
    {
      maxPvCycle := Max(maxPvCycle, pv);
      minPvCycle := Min(minPvCycle, pv);
      maxPvResult := Max(maxPvResult, pv);
      minPvResult := Min(minPvResult, pv);
      hysteresis := Scale(beta, Max(maxPvCycle - pvValueIni, pvValueIni - minPvCycle));
    }

    method DecideNextStep(pv: real)
      modifies `mvSignNextStep, `mvSignInit, `mvValueNextStep
      ensures View() == Decide(GetSetup(), old(View()), pv)
    {
      var spPvDiff := pvValueIni - pv;
      var mvSignPrevious := if mvValueCurrent >= mvValueIni then 1 else -1;

      if actionMultiplier == 1 {
        var valveSwitch := spPvDiff + Signed(mvSignPrevious, hysteresis);
        mvSignNextStep := if valveSwitch >= 0.0 then 1 else -1;
      } else {
        var valveSwitch := spPvDiff - Signed(mvSignPrevious, hysteresis);
        mvSignNextStep := if valveSwitch <= 0.0 then 1 else -1;
      }

      // Overwritten on every sample until the first switch happens.
      if counterAllSwitches == 0 {
        mvSignInit := mvSignNextStep;
      }

      mvValueNextStep := mvValueIni + Signed(mvSignNextStep, relayAmpRaw);
    }

    method PerformSwitch(tick: Tick) returns (mv: real)
      modifies `timePreviousSwitch, `counterAllSwitches, `switchTimes, `peaks, `troughs, `maxPvCycle, `minPvCycle,
               `maxPvResult, `minPvResult, `mvValueCurrent
      ensures View() == MrftSpec.PerformSwitch(GetSetup(), old(View()), tick)
      ensures mv == View().mvCurrent
    {
      RecordSwitch(tick);
      var remaining := CyclesRemaining();
      mvValueCurrent := if remaining == 0 then mvValueIni else mvValueNextStep;
      mv := mvValueCurrent;
    }

    method RecordSwitch(tick: Tick)
      modifies `timePreviousSwitch, `counterAllSwitches, `switchTimes, `peaks, `troughs, `maxPvCycle, `minPvCycle,
               `maxPvResult, `minPvResult
      ensures View() == Record(GetSetup(), old(View()), tick)
    {
      timePreviousSwitch := tick.time;
      counterAllSwitches := counterAllSwitches + 1;
      if counterAllSwitches >= numSwitchesSkip {
        RecordExtremum(tick.time);
      }
      maxPvCycle := pvValueIni;
      minPvCycle := pvValueIni;
      maxPvResult := tick.pv;
      minPvResult := tick.pv;
    }

    method RecordExtremum(time: int)
      modifies `switchTimes, `peaks, `troughs
      ensures View() == MrftSpec.RecordExtremum(GetSetup(), old(View()), time)
    {
      switchTimes := switchTimes + [time];
      if SignsAgree(mvSignNextStep, actionMultiplier) {
        peaks := peaks + [maxPvResult];
      } else {
        troughs := troughs + [minPvResult];
      }
    }

    method IsComplete() returns (r: bool)
      ensures r == MrftSpec.IsComplete(GetSetup(), View())
    {
      r := counterAllSwitches >= numSwitchesSkip + numCyclesCount * 2;
    }

    method CyclesCompleted() returns (r: int)
      ensures r == MrftSpec.CyclesCompleted(View())
    {
      r := HalveTowardZero(counterAllSwitches - 1);
    }

    method CyclesRemaining() returns (r: int)
      ensures r == MrftSpec.CyclesRemaining(GetSetup(), View())
    {
      r := HalveTowardZero(numSwitchesSkip + numCyclesCount * 2 - counterAllSwitches + 1);
    }

    method GetState() returns (r: MrftState)
      ensures r == MrftState(hysteresis, mvValueCurrent, mvSignNextStep, counterAllSwitches,
                             MrftSpec.CyclesCompleted(View()), MrftSpec.CyclesRemaining(GetSetup(), View()))
    {
      var done := CyclesCompleted();
      var left := CyclesRemaining();
      r := MrftState(hysteresis, mvValueCurrent, mvSignNextStep, counterAllSwitches, done, left);
    }
  }
}
