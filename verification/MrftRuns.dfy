/** What holds of every sequence of samples fed to the engine. The incremental trackers, signs and
    recorded lists are tied to the raw trace and to the positions at which the relay switched. */
module MrftRuns {
  import opened MrftSpec
  import opened Traces

  // ----- The trace and its switch positions -----

  /** The samples the engine acted on: all of them up to the one that completed the test. */
  function Live(c: Setup, startTime: int, ticks: seq<Tick>): seq<Tick> {
    if ticks == [] then []
    else
      var before := ticks[..|ticks| - 1];
      if Run(c, startTime, before).completed then Live(c, startTime, before)
      else Live(c, startTime, before) + [ticks[|ticks| - 1]]
  }

  /** Whether a live state switches on the next sample. */
  predicate Switching(c: Setup, s: State, t: Tick) {
    !s.completed && SwitchNeeded(c, Observe(c, s, t), t)
  }

  /** The positions in the trace at which the relay switched. */
  function Switches(c: Setup, startTime: int, ticks: seq<Tick>): seq<nat> {
    if ticks == [] then []
    else
      var n := |ticks| - 1;
      var sw := Switches(c, startTime, ticks[..n]);
      if Switching(c, Run(c, startTime, ticks[..n]), ticks[n]) then sw + [n] else sw
  }

  ghost predicate Positions(sw: seq<nat>, n: nat) {
    && (forall i | 0 <= i < |sw| :: sw[i] < n)
    && (forall i, j | 0 <= i < j < |sw| :: sw[i] < sw[j])
  }

  /** Consecutive switches are at least the noise-protection delay apart. */
  ghost predicate Spaced(c: Setup, ticks: seq<Tick>, sw: seq<nat>)
    requires Positions(sw, |ticks|)
  {
    forall k | 1 <= k < |sw| :: ticks[sw[k]].time >= ticks[sw[k - 1]].time + Seconds(c.noiseProtectionSecs)
  }

  /** The relay's sign after its `k`-th switch, counting from zero. */
  function SignAt(init: int, k: nat): int {
    if k % 2 == 0 then init else -init
  }

  /** The MV held after `n` switches: the last one returns to the initial MV. */
  function MvAfter(c: Setup, init: int, n: nat): real {
    if n == 0 || n >= c.Total() then c.mvIni else c.mvIni + Signed(SignAt(init, n - 1), c.relayAmpRaw)
  }

  /** What a switching sample leaves behind, field by field. */
  lemma SwitchEffect(c: Setup, s: State, t: Tick)
    requires Switching(c, s, t)
    ensures var o, r := Observe(c, s, t), Step(c, s, t).0;
      var recorded, isPeak := s.counter + 1 >= c.numSwitchesSkip, SignsAgree(o.mvSignNextStep, c.actionMultiplier);
      && r.mvSignInit == o.mvSignInit
      && r.maxPvResult == r.minPvResult == t.pv
      && r.maxPvCycle == r.minPvCycle == c.pvIni
      && r.peaks == s.peaks + (if recorded && isPeak then [o.maxPvResult] else [])
      && r.troughs == s.troughs + (if recorded && !isPeak then [o.minPvResult] else [])
      && r.switchTimes == s.switchTimes + (if recorded then [t.time] else [])
  {
  }

  // ----- Counting, signs and MV values -----

  ghost predicate Counted(c: Setup, ticks: seq<Tick>, sw: seq<nat>, s: State) {
    && Positions(sw, |ticks|)
    && s.counter == |sw| <= c.Total()
    && (s.completed <==> |sw| == c.Total())
    && (Abs(c.relayAmpRaw) < MIN_MV_CHANGE ==> sw == [])
    && (Abs(c.relayAmpRaw) >= MIN_MV_CHANGE && ticks != [] ==> sw != [] && sw[0] == 0)
    && (sw != [] ==> s.mvSignInit == 1 || s.mvSignInit == -1)
    && s.mvCurrent == MvAfter(c, s.mvSignInit, |sw|)
    && (sw != [] ==> s.timePreviousSwitch == ticks[sw[|sw| - 1]].time)
    && Spaced(c, ticks, sw)
  }

  /** A switch always reverses the relay: its sign is the one the count of switches dictates. */
  lemma SwitchReverses(c: Setup, ticks: seq<Tick>, sw: seq<nat>, s: State, t: Tick)
    requires c.Valid() && Counted(c, ticks, sw, s) && Switching(c, s, t)
    ensures var o := Observe(c, s, t);
      && (o.mvSignInit == 1 || o.mvSignInit == -1)
      && o.mvSignNextStep == SignAt(o.mvSignInit, |sw|)
      && (sw != [] ==> o.mvSignInit == s.mvSignInit)
      && Abs(c.relayAmpRaw) >= MIN_MV_CHANGE
  {
  }

  /** The final switch is the one that leaves no cycle remaining. */
  lemma RemainingIsZeroAtTotal(c: Setup, s: State)
    requires c.Valid() && s.counter <= c.Total()
    ensures CyclesRemaining(c, s) == 0 <==> s.counter == c.Total()
  {
  }

  lemma SpacedStep(c: Setup, ticks: seq<Tick>, sw: seq<nat>, t: Tick)
    requires Positions(sw, |ticks|) && Spaced(c, ticks, sw)
    ensures Positions(sw, |ticks + [t]|) && Spaced(c, ticks + [t], sw)
    ensures Positions(sw + [|ticks|], |ticks + [t]|)
    ensures sw == [] || t.time >= ticks[sw[|sw| - 1]].time + Seconds(c.noiseProtectionSecs) ==>
      Spaced(c, ticks + [t], sw + [|ticks|])
  {
  }

  lemma CountedStep(c: Setup, ticks: seq<Tick>, sw: seq<nat>, s: State, t: Tick)
    requires c.Valid() && Counted(c, ticks, sw, s) && !s.completed
    ensures Counted(c, ticks + [t], if Switching(c, s, t) then sw + [|ticks|] else sw, Step(c, s, t).0)
  {
    SpacedStep(c, ticks, sw, t);
    if Switching(c, s, t) {
      CountedSwitch(c, ticks, sw, s, t);
    } else {
      CountedHold(c, ticks, sw, s, t);
    }
  }

  lemma CountedSwitch(c: Setup, ticks: seq<Tick>, sw: seq<nat>, s: State, t: Tick)
    requires c.Valid() && Counted(c, ticks, sw, s) && Switching(c, s, t)
    requires Positions(sw + [|ticks|], |ticks + [t]|) && Spaced(c, ticks + [t], sw + [|ticks|])
    ensures Counted(c, ticks + [t], sw + [|ticks|], Step(c, s, t).0)
  {
    SwitchReverses(c, ticks, sw, s, t);
    var r := PerformSwitch(c, Observe(c, s, t), t);
    RemainingIsZeroAtTotal(c, r);
    assert r.mvCurrent == MvAfter(c, r.mvSignInit, |sw| + 1);
  }

  lemma CountedHold(c: Setup, ticks: seq<Tick>, sw: seq<nat>, s: State, t: Tick)
    requires c.Valid() && Counted(c, ticks, sw, s) && !s.completed && !Switching(c, s, t)
    requires Positions(sw, |ticks + [t]|) && Spaced(c, ticks + [t], sw)
    ensures Counted(c, ticks + [t], sw, Step(c, s, t).0)
  {
  }

  // ----- The trackers are the extremes of a window of the trace -----

  /** The samples since the last switch, that switch's own sample included. */
  function ResultWindow(c: Setup, ticks: seq<Tick>, sw: seq<nat>): (r: seq<real>)
    requires Positions(sw, |ticks|)
    ensures r != []
  {
    if sw == [] then [c.pvIni] + Pvs(ticks) else Pvs(ticks[sw[|sw| - 1]..])
  }

  /** The samples since the last switch, that switch's own sample excluded. */
  function CycleWindow(ticks: seq<Tick>, sw: seq<nat>): seq<real>
    requires Positions(sw, |ticks|)
  {
    if sw == [] then Pvs(ticks) else Pvs(ticks[sw[|sw| - 1] + 1..])
  }

  ghost predicate Tracked(c: Setup, ticks: seq<Tick>, sw: seq<nat>, s: State)
    requires Positions(sw, |ticks|)
  {
    var result, cycle := ResultWindow(c, ticks, sw), [c.pvIni] + CycleWindow(ticks, sw);
    && s.maxPvResult == MaxOf(result)
    && s.minPvResult == MinOf(result)
    && s.maxPvCycle == MaxOf(cycle)
    && s.minPvCycle == MinOf(cycle)
  }

  lemma WindowsGrow(c: Setup, ticks: seq<Tick>, sw: seq<nat>, t: Tick)
    requires Positions(sw, |ticks|)
    ensures Positions(sw, |ticks + [t]|)
    ensures ResultWindow(c, ticks + [t], sw) == ResultWindow(c, ticks, sw) + [t.pv]
    ensures CycleWindow(ticks + [t], sw) == CycleWindow(ticks, sw) + [t.pv]
  {
    assert Pvs(ticks + [t]) == Pvs(ticks) + [t.pv];
    if sw != [] {
      var k := sw[|sw| - 1];
      assert (ticks + [t])[k..] == ticks[k..] + [t];
      assert (ticks + [t])[k + 1..] == ticks[k + 1..] + [t];
    }
  }

  lemma TrackedObserve(c: Setup, ticks: seq<Tick>, sw: seq<nat>, s: State, t: Tick)
    requires Positions(sw, |ticks|) && Tracked(c, ticks, sw, s)
    ensures Positions(sw, |ticks + [t]|) && Tracked(c, ticks + [t], sw, Observe(c, s, t))
  {
    WindowsGrow(c, ticks, sw, t);
    ExtremesAppend(ResultWindow(c, ticks, sw), t.pv);
    var cycle := CycleWindow(ticks, sw);
    ExtremesAppend([c.pvIni] + cycle, t.pv);
    assert [c.pvIni] + (cycle + [t.pv]) == ([c.pvIni] + cycle) + [t.pv];
  }

  lemma TrackedSwitch(c: Setup, ticks: seq<Tick>, sw: seq<nat>, s: State, t: Tick)
    requires Positions(sw, |ticks|) && Switching(c, s, t)
    ensures Positions(sw + [|ticks|], |ticks + [t]|) && Tracked(c, ticks + [t], sw + [|ticks|], Step(c, s, t).0)
  {
    SwitchEffect(c, s, t);
    var ticks', sw' := ticks + [t], sw + [|ticks|];
    assert ticks'[|ticks|..] == [t];
    assert ResultWindow(c, ticks', sw') == [t.pv];
    assert ticks'[|ticks| + 1..] == [];
    assert [c.pvIni] + CycleWindow(ticks', sw') == [c.pvIni];
  }

  lemma TrackedStep(c: Setup, ticks: seq<Tick>, sw: seq<nat>, s: State, t: Tick)
    requires Positions(sw, |ticks|) && Tracked(c, ticks, sw, s) && !s.completed
    ensures var sw' := if Switching(c, s, t) then sw + [|ticks|] else sw;
      Positions(sw', |ticks + [t]|) && Tracked(c, ticks + [t], sw', Step(c, s, t).0)
  {
    if Switching(c, s, t) {
      TrackedSwitch(c, ticks, sw, s, t);
    } else {
      TrackedObserve(c, ticks, sw, s, t);
    }
  }

  // ----- The recorded lists are the extremes of the closed windows -----

  /** The samples from one switch to the next, both included; the first window starts from the
      initial PV. */
  function ClosedWindow(c: Setup, ticks: seq<Tick>, sw: seq<nat>, k: nat): (r: seq<real>)
    requires Positions(sw, |ticks|) && k < |sw|
    ensures r != []
  {
    if k == 0 then [c.pvIni] + Pvs(ticks[..sw[0] + 1]) else Pvs(ticks[sw[k - 1]..sw[k] + 1])
  }

  predicate IsPeak(c: Setup, init: int, k: nat) {
    SignsAgree(SignAt(init, k), c.actionMultiplier)
  }

  predicate IsRecorded(c: Setup, k: nat) {
    k + 1 >= c.numSwitchesSkip
  }

  /** Whether switch `k` is recorded, and on which side. */
  predicate RecordedAs(c: Setup, init: int, peak: bool, k: nat) {
    IsRecorded(c, k) && IsPeak(c, init, k) == peak
  }

  /** The maxima of the windows that the first `n` switches closed as peaks. */
  function Peaks(c: Setup, ticks: seq<Tick>, sw: seq<nat>, init: int, n: nat): seq<real>
    requires Positions(sw, |ticks|) && n <= |sw|
  {
    if n == 0 then []
    else
      var before := Peaks(c, ticks, sw, init, n - 1);
      if RecordedAs(c, init, true, n - 1) then before + [MaxOf(ClosedWindow(c, ticks, sw, n - 1))] else before
  }

  /** The minima of the windows that the first `n` switches closed as troughs. */
  function Troughs(c: Setup, ticks: seq<Tick>, sw: seq<nat>, init: int, n: nat): seq<real>
    requires Positions(sw, |ticks|) && n <= |sw|
  {
    if n == 0 then []
    else
      var before := Troughs(c, ticks, sw, init, n - 1);
      if RecordedAs(c, init, false, n - 1) then before + [MinOf(ClosedWindow(c, ticks, sw, n - 1))] else before
  }

  function Times(c: Setup, ticks: seq<Tick>, sw: seq<nat>, n: nat): seq<int>
    requires Positions(sw, |ticks|) && n <= |sw|
  {
    if n == 0 then []
    else
      var before := Times(c, ticks, sw, n - 1);
      if IsRecorded(c, n - 1) then before + [ticks[sw[n - 1]].time] else before
  }

  ghost predicate Recorded(c: Setup, ticks: seq<Tick>, sw: seq<nat>, s: State)
    requires Positions(sw, |ticks|)
  {
    && s.peaks == Peaks(c, ticks, sw, s.mvSignInit, |sw|)
    && s.troughs == Troughs(c, ticks, sw, s.mvSignInit, |sw|)
    && s.switchTimes == Times(c, ticks, sw, |sw|)
  }

  /** Later samples and switches leave earlier windows alone. */
  lemma ClosedWindowStable(c: Setup, ticks: seq<Tick>, sw: seq<nat>, t: Tick, more: seq<nat>, k: nat)
    requires Positions(sw, |ticks|) && Positions(sw + more, |ticks + [t]|) && k < |sw|
    ensures ClosedWindow(c, ticks + [t], sw + more, k) == ClosedWindow(c, ticks, sw, k)
  {
    var lo := if k == 0 then 0 else sw[k - 1];
    assert (ticks + [t])[lo..sw[k] + 1] == ticks[lo..sw[k] + 1];
  }

  lemma {:induction false} RecordsStable(c: Setup, ticks: seq<Tick>, sw: seq<nat>, t: Tick, more: seq<nat>,
                                         init: int, n: nat)
    requires Positions(sw, |ticks|) && Positions(sw + more, |ticks + [t]|) && n <= |sw|
    ensures Peaks(c, ticks + [t], sw + more, init, n) == Peaks(c, ticks, sw, init, n)
    ensures Troughs(c, ticks + [t], sw + more, init, n) == Troughs(c, ticks, sw, init, n)
    ensures Times(c, ticks + [t], sw + more, n) == Times(c, ticks, sw, n)
  {
    if n > 0 {
      RecordsStable(c, ticks, sw, t, more, init, n - 1);
      ClosedWindowStable(c, ticks, sw, t, more, n - 1);
    }
  }

  /** The window a switch closes is the one the result trackers have been measuring. */
  lemma ClosingWindow(c: Setup, ticks: seq<Tick>, sw: seq<nat>, t: Tick)
    requires Positions(sw, |ticks|)
    ensures var ticks', sw' := ticks + [t], sw + [|ticks|];
      && Positions(sw, |ticks'|) && Positions(sw', |ticks'|)
      && ClosedWindow(c, ticks', sw', |sw|) == ResultWindow(c, ticks', sw)
  {
    var ticks' := ticks + [t];
    assert ticks'[..|ticks| + 1] == ticks';
    if sw != [] {
      assert ticks'[sw[|sw| - 1]..|ticks| + 1] == ticks'[sw[|sw| - 1]..];
    }
  }

  lemma RecordedSwitch(c: Setup, ticks: seq<Tick>, sw: seq<nat>, s: State, t: Tick)
    requires c.Valid() && Counted(c, ticks, sw, s) && Tracked(c, ticks, sw, s) && Recorded(c, ticks, sw, s)
    requires Switching(c, s, t)
    ensures Positions(sw + [|ticks|], |ticks + [t]|)
    ensures Recorded(c, ticks + [t], sw + [|ticks|], Step(c, s, t).0)
  {
    var ticks', sw', n, init := ticks + [t], sw + [|ticks|], |sw|, Observe(c, s, t).mvSignInit;
    SwitchEffect(c, s, t);
    SwitchReverses(c, ticks, sw, s, t);
    TrackedObserve(c, ticks, sw, s, t);
    ClosingWindow(c, ticks, sw, t);
    RecordsStable(c, ticks, sw, t, [|ticks|], init, n);
    assert Peaks(c, ticks', sw', init, n) == s.peaks;
    assert Troughs(c, ticks', sw', init, n) == s.troughs;
  }

  lemma RecordedHold(c: Setup, ticks: seq<Tick>, sw: seq<nat>, s: State, t: Tick)
    requires c.Valid() && Counted(c, ticks, sw, s) && Recorded(c, ticks, sw, s)
    requires !s.completed && !Switching(c, s, t)
    ensures Positions(sw, |ticks + [t]|) && Recorded(c, ticks + [t], sw, Step(c, s, t).0)
  {
    var init := Step(c, s, t).0.mvSignInit;
    RecordsStable(c, ticks, sw, t, [], init, |sw|);
    assert sw + [] == sw;
    assert |sw| > 0 ==> init == s.mvSignInit;
  }

  // ----- The invariant, over whole runs -----

  ghost predicate Invariant(c: Setup, ticks: seq<Tick>, sw: seq<nat>, s: State) {
    && Counted(c, ticks, sw, s)
    && Tracked(c, ticks, sw, s)
    && Recorded(c, ticks, sw, s)
  }

  lemma InvariantStep(c: Setup, ticks: seq<Tick>, sw: seq<nat>, s: State, t: Tick)
    requires c.Valid() && Invariant(c, ticks, sw, s) && !s.completed
    ensures Invariant(c, ticks + [t], if Switching(c, s, t) then sw + [|ticks|] else sw, Step(c, s, t).0)
  {
    CountedStep(c, ticks, sw, s, t);
    TrackedStep(c, ticks, sw, s, t);
    if Switching(c, s, t) {
      RecordedSwitch(c, ticks, sw, s, t);
    } else {
      RecordedHold(c, ticks, sw, s, t);
    }
  }

  lemma {:induction false} LiveWhileRunning(c: Setup, startTime: int, ticks: seq<Tick>)
    requires !Run(c, startTime, ticks).completed
    ensures Live(c, startTime, ticks) == ticks
  {
    if ticks != [] {
      LiveWhileRunning(c, startTime, ticks[..|ticks| - 1]);
    }
  }

  /** Every run of the engine, of any length and however long it goes on after completing. */
  lemma {:induction false} RunInvariant(c: Setup, startTime: int, ticks: seq<Tick>)
    requires c.Valid()
    ensures Invariant(c, Live(c, startTime, ticks), Switches(c, startTime, ticks), Run(c, startTime, ticks))
  {
    if ticks == [] {
      assert Pvs([]) == [];
    } else {
      var n := |ticks| - 1;
      var s := Run(c, startTime, ticks[..n]);
      RunInvariant(c, startTime, ticks[..n]);
      if !s.completed {
        LiveWhileRunning(c, startTime, ticks[..n]);
        InvariantStep(c, ticks[..n], Switches(c, startTime, ticks[..n]), s, ticks[n]);
      }
    }
  }
}
