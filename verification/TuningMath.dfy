/** From a completed run's recorded lists to tuning results for the three response levels, and on
    to the values a controller is given. A division by zero, which the program would carry on as an
    infinity or NaN until a finiteness check, is the value `NonFinite` or the matching error. */
module TuningMath {
  import opened Wrappers
  import opened LoopConfigs
  import opened PidConfig
  import DecimalText
  import Traces

  datatype Num = Finite(v: real) | NonFinite

  function Divide(x: real, y: real): Num {
    if y == 0.0 then NonFinite else Finite(x / y)
  }

  datatype DcsTemplate = DcsTemplate(
    proportionalType: ProportionalType,
    integralType: IntegralType,
    integralUnit: TimeUnit,
    derivativeType: DerivativeType,
    derivativeUnit: TimeUnit,
    pidRounding: PidRounding)

  datatype Oscillation = Oscillation(
    periodMinutes: real,
    frequency: Num,
    pvAmpRaw: real,
    pvAmpPercent: Num)

  datatype TuningResult = TuningResult(level: ResponseLevel, kp: real, tiMinutes: real, tdMinutes: real)

  datatype PidParameters = PidParameters(level: ResponseLevel, proportional: real, integral: real, derivative: real)

  datatype InvalidReason =
    | NonFinitePvAmplitude
    | NonPositivePvAmplitude
    | NonPositivePeriod
    | NonFiniteFrequency
    | NonPositiveFrequency
    | NonFiniteKp
    | NonFiniteTiMinutes
    | NonFiniteTdMinutes
    | NonFiniteProportional
    | NonFiniteIntegral

  datatype Status = Valid | Invalid

  datatype CheckedTuningResult = CheckedTuningResult(
    level: ResponseLevel,
    status: Status,
    invalidReason: Option<InvalidReason>,
    tuning: Option<TuningResult>,
    pid: Option<PidParameters>)
  {
    /** The calculated values, only when they are safe to use. */
    function UsableValues(): Option<(TuningResult, PidParameters)> {
      match (status, invalidReason, tuning, pid)
      case (Valid, None, Some(t), Some(p)) => Some((t, p))
      case _ => None
    }
  }

  function InvalidResult(level: ResponseLevel, reason: InvalidReason): CheckedTuningResult {
    CheckedTuningResult(level, Invalid, Some(reason), None, None)
  }

  function ValidResult(tuning: TuningResult, pid: PidParameters): CheckedTuningResult {
    CheckedTuningResult(tuning.level, Valid, None, Some(tuning), Some(pid))
  }

  // ----- Measuring the oscillation -----

  /** Whole milliseconds in a span of nanoseconds, truncated toward zero. */
  function NumMilliseconds(nanos: int): int {
    if nanos >= 0 then nanos / 1_000_000 else -(-nanos / 1_000_000)
  }

  predicate FirstSwitchIsPeak(mvSignInit: int, direction: Direction) {
    mvSignInit * direction.ActionMultiplier() == 1
  }

  /** The shape that the measurement asserts of its inputs. */
  predicate IsMeasurable(peaks: seq<real>, troughs: seq<real>, times: seq<int>, mvSignInit: int,
                         direction: Direction, count: nat) {
    && |times| >= 2
    && |times| == count * 2 + 1
    && (if FirstSwitchIsPeak(mvSignInit, direction)
        then |peaks| == count + 1 && |troughs| == count
        else |troughs| == count + 1 && |peaks| == count)
  }

  /** The peaks that are averaged: the first recorded extremum is left out. */
  function AveragedPeaks(peaks: seq<real>, mvSignInit: int, direction: Direction): seq<real> {
    if FirstSwitchIsPeak(mvSignInit, direction) && peaks != [] then peaks[1..] else peaks
  }

  function AveragedTroughs(troughs: seq<real>, mvSignInit: int, direction: Direction): seq<real> {
    if !FirstSwitchIsPeak(mvSignInit, direction) && troughs != [] then troughs[1..] else troughs
  }

  function PeriodMinutes(elapsedMs: int, count: nat): real
    requires count > 0
  {
    elapsedMs as real / 1000.0 / 60.0 / count as real
  }

  /** Half the distance between the mean averaged peak and the mean averaged trough. */
  function PvAmpRaw(peaks: seq<real>, troughs: seq<real>, mvSignInit: int, direction: Direction, count: nat): real
    requires count > 0
  {
    HalfMeanGap(Traces.Sum(AveragedPeaks(peaks, mvSignInit, direction)),
                Traces.Sum(AveragedTroughs(troughs, mvSignInit, direction)), count)
  }

  function HalfMeanGap(peaksSum: real, troughsSum: real, count: nat): real
    requires count > 0
  {
    (peaksSum - troughsSum) / (2.0 * count as real)
  }

  /** `None` stands for a failed assertion. */
  function MeasureOscillation(peaks: seq<real>, troughs: seq<real>, times: seq<int>, mvSignInit: int,
                              direction: Direction, config: LoopConfig, pvRange: PvRange, pi: real)
    : Option<Oscillation>
  {
    var count := config.numCyclesCount;
    if !IsMeasurable(peaks, troughs, times, mvSignInit, direction, count) then None
    else
      var period := PeriodMinutes(NumMilliseconds(times[|times| - 1] - times[0]), count);
      var pvAmpRaw := PvAmpRaw(peaks, troughs, mvSignInit, direction, count);
      var percent := match Divide(pvAmpRaw, pvRange.high - pvRange.low)
                     case Finite(x) => Finite(x * 100.0)
                     case NonFinite => NonFinite;
      Some(Oscillation(period, Divide(2.0 * pi, period), pvAmpRaw, percent))
  }

  // ----- Tuning results -----

  function GainFrom(c1: real, relayAmpPercent: real, pvAmpPercent: real, pi: real): Num {
    Divide(c1 * 4.0 * relayAmpPercent, pi * pvAmpPercent)
  }

  function TimeFrom(c: real, frequency: real, pi: real): Num {
    Divide(c * 2.0 * pi, frequency)
  }

  function CalculateTuningResult(frequency: real, pvAmpPercent: real, config: LoopConfig,
                                 level: ResponseLevel, pi: real): Result<TuningResult, InvalidReason> {
    var tc := Lookup(config.processType, config.controllerType, level);
    match (GainFrom(tc.c1, config.relayAmpPercent, pvAmpPercent, pi),
           TimeFrom(tc.c2, frequency, pi),
           TimeFrom(tc.c3, frequency, pi))
    case (NonFinite, _, _) => Err(NonFiniteKp)
    case (_, NonFinite, _) => Err(NonFiniteTiMinutes)
    case (_, _, NonFinite) => Err(NonFiniteTdMinutes)
    case (Finite(kp), Finite(ti), Finite(td)) => Ok(TuningResult(level, kp, ti, td))
  }

  function InUnit(minutes: real, timeUnit: TimeUnit): real {
    if timeUnit.Seconds? then minutes * 60.0 else minutes
  }

  /** The unit conversion comes before the conversion to a rate or a gain. */
  function CalculatePidParameters(result: TuningResult, template: DcsTemplate): Result<PidParameters, InvalidReason> {
    var ti, td := InUnit(result.tiMinutes, template.integralUnit), InUnit(result.tdMinutes, template.derivativeUnit);
    var proportional := match template.proportionalType
      case Gain => Finite(result.kp)
      case Band => Divide(100.0, result.kp);
    var integral := match template.integralType
      case ResetTime => Finite(ti)
      case ResetRate => Divide(1.0, ti)
      case ResetGain => Divide(result.kp, ti);
    var derivative := match template.derivativeType
      case DerivativeTime => td
      case DerivativeGain => result.kp * td;
    match (proportional, integral)
    case (NonFinite, _) => Err(NonFiniteProportional)
    case (_, NonFinite) => Err(NonFiniteIntegral)
    case (Finite(p), Finite(i)) => Ok(PidParameters(result.level, p, i, derivative))
  }

  function InvalidOscillationReason(o: Oscillation): Option<InvalidReason> {
    if o.pvAmpPercent.NonFinite? then Some(NonFinitePvAmplitude)
    else if o.pvAmpRaw <= 0.0 || o.pvAmpPercent.v <= 0.0 then Some(NonPositivePvAmplitude)
    else if o.periodMinutes <= 0.0 then Some(NonPositivePeriod)
    else if o.frequency.NonFinite? then Some(NonFiniteFrequency)
    else if o.frequency.v <= 0.0 then Some(NonPositiveFrequency)
    else None
  }

  function CheckedLevel(o: Oscillation, config: LoopConfig, template: DcsTemplate, level: ResponseLevel, pi: real)
    : CheckedTuningResult
  {
    match InvalidOscillationReason(o)
    case Some(reason) => InvalidResult(level, reason)
    case None =>
      match CalculateTuningResult(o.frequency.v, o.pvAmpPercent.v, config, level, pi)
      case Err(reason) => InvalidResult(level, reason)
      case Ok(tuning) =>
        match CalculatePidParameters(tuning, template)
        case Err(reason) => InvalidResult(level, reason)
        case Ok(pid) => ValidResult(tuning, pid)
  }

  /** One checked result per response level; `None` stands for a failed assertion. */
  function CalculateAllChecked(peaks: seq<real>, troughs: seq<real>, times: seq<int>, mvSignInit: int,
                               direction: Direction, config: LoopConfig, pvRange: PvRange,
                               template: DcsTemplate, pi: real): Option<seq<CheckedTuningResult>> {
    match MeasureOscillation(peaks, troughs, times, mvSignInit, direction, config, pvRange, pi)
    case None => None
    case Some(o) => Some(seq(|ALL_LEVELS|, i requires 0 <= i < |ALL_LEVELS| =>
                               CheckedLevel(o, config, template, ALL_LEVELS[i], pi)))
  }

  /** Values are exposed exactly for a valid result. */
  lemma UsableIffValid(o: Oscillation, config: LoopConfig, template: DcsTemplate, level: ResponseLevel, pi: real)
    ensures var r := CheckedLevel(o, config, template, level, pi);
      && r.level == level
      && (r.UsableValues().Some? <==> r.status.Valid?)
      && (r.status.Valid? <==> r.invalidReason.None?)
      && (r.tuning.Some? <==> r.status.Valid?) && (r.pid.Some? <==> r.status.Valid?)
  {
  }

  // ----- Undoing the template's conventions -----

  function FromUnit(time: real, timeUnit: TimeUnit): real {
    if timeUnit.Seconds? then time / 60.0 else time
  }

  /** Reads Kp, Ti and Td back out of a template's parameters. */
  function RecoverTuning(pid: PidParameters, template: DcsTemplate): TuningResult
    requires pid.proportional > 0.0 && pid.integral > 0.0
  {
    var kp := if template.proportionalType.Gain? then pid.proportional else 100.0 / pid.proportional;
    var ti := match template.integralType
      case ResetTime => pid.integral
      case ResetRate => 1.0 / pid.integral
      case ResetGain => kp / pid.integral;
    var td := if template.derivativeType.DerivativeTime? || kp == 0.0 then pid.derivative else pid.derivative / kp;
    TuningResult(pid.level, kp, FromUnit(ti, template.integralUnit), FromUnit(td, template.derivativeUnit))
  }

  lemma DivideTwice(x: real, y: real)
    requires x > 0.0 && y > 0.0
    ensures x / y > 0.0 && x / (x / y) == y
  {
    assert x / y * y == x;
  }

  lemma MultiplyThenDivide(x: real, y: real)
    requires x > 0.0
    ensures x * y / x == y
  {
  }

  /** For every combination of types and units, the parameters determine the tuning. */
  lemma PidParametersAreInvertible(result: TuningResult, template: DcsTemplate)
    requires result.kp > 0.0 && result.tiMinutes > 0.0
    ensures var pid := CalculatePidParameters(result, template);
      && pid.Ok? && pid.value.proportional > 0.0 && pid.value.integral > 0.0
      && (pid.value.derivative > 0.0 <==> result.tdMinutes > 0.0)
      && RecoverTuning(pid.value, template) == result
  {
    var kp := result.kp;
    var ti, td := InUnit(result.tiMinutes, template.integralUnit), InUnit(result.tdMinutes, template.derivativeUnit);
    DivideTwice(100.0, kp);
    DivideTwice(1.0, ti);
    DivideTwice(kp, ti);
    MultiplyThenDivide(kp, td);
    assert td > 0.0 <==> kp * td > 0.0 by {
      if td <= 0.0 { assert kp * (0.0 - td) >= 0.0; }
    }
  }

  /** A P-only result, which has no times: its proportional term alone determines the gain, its integral
      time is zero, and a template that asks for a rate or a gain instead cannot express it. */
  lemma ProportionalOnlyParameters(result: TuningResult, template: DcsTemplate)
    requires result.kp > 0.0 && result.tiMinutes == 0.0 && result.tdMinutes == 0.0
    ensures var pid := CalculatePidParameters(result, template);
      if template.integralType.ResetTime? then
        && pid.Ok? && pid.value.level == result.level
        && pid.value.integral == 0.0 && pid.value.derivative == 0.0
        && (if template.proportionalType.Gain? then pid.value.proportional == result.kp
            else pid.value.proportional * result.kp == 100.0)
      else pid == Err(NonFiniteIntegral)
  {
    DivideTwice(100.0, result.kp);
  }

  // ----- Controller-ready values -----

  datatype OpcWriteValues = OpcWriteValues(level: ResponseLevel, proportional: real, integral: real, derivative: real)

  const DISABLED_RESET_TIME := 9999.0

  function DisabledIntegral(integralType: IntegralType): real {
    if integralType.ResetTime? then DISABLED_RESET_TIME else 0.0
  }

  function OpcWrite(pid: PidParameters, controllerType: ControllerType, integralType: IntegralType): OpcWriteValues {
    OpcWriteValues(
      pid.level,
      pid.proportional,
      if controllerType.P? then DisabledIntegral(integralType) else pid.integral,
      if controllerType.Pid? then pid.derivative else 0.0)
  }

  datatype Term = Proportional | Integral | Derivative

  datatype ControllerPidError = ControllerPidError(term: Term, reason: PidRoundingError)

  datatype ControllerPidValues = ControllerPidValues(
    level: ResponseLevel,
    proportional: RoundedPidValue,
    integral: RoundedPidValue,
    derivative: RoundedPidValue)

  function RoundedActiveTerm(value: real, term: Term, policy: PidRounding)
    : Result<RoundedPidValue, ControllerPidError>
  {
    match policy.RoundValue(value)
    case Err(reason) => Err(ControllerPidError(term, reason))
    case Ok(rounded) =>
      if value <= 0.0 then Err(ControllerPidError(term, NonPositive))
      else if rounded.value == 0.0 then Err(ControllerPidError(term, RoundedToZero))
      else Ok(rounded)
  }

  function ControllerValues(pid: PidParameters, controllerType: ControllerType, template: DcsTemplate)
    : Result<ControllerPidValues, ControllerPidError>
  {
    var raw, policy := OpcWrite(pid, controllerType, template.integralType), template.pidRounding;
    match RoundedActiveTerm(raw.proportional, Proportional, policy)
    case Err(e) => Err(e)
    case Ok(proportional) =>
      var integral := if controllerType.P? then Ok(policy.DisabledValue(raw.integral))
                      else RoundedActiveTerm(raw.integral, Integral, policy);
      match integral
      case Err(e) => Err(e)
      case Ok(integral) =>
        var derivative := if controllerType.Pid? then RoundedActiveTerm(raw.derivative, Derivative, policy)
                          else Ok(policy.DisabledValue(raw.derivative));
        match derivative
        case Err(e) => Err(e)
        case Ok(derivative) => Ok(ControllerPidValues(raw.level, proportional, integral, derivative))
  }

  /** The terms a controller type uses, in the order they are checked. */
  function ActiveTerms(pid: PidParameters, controllerType: ControllerType): seq<(Term, real)> {
    [(Proportional, pid.proportional)]
    + (if controllerType.P? then [] else [(Integral, pid.integral)])
    + (if controllerType.Pid? then [(Derivative, pid.derivative)] else [])
  }

  /** Why a term cannot be given to a controller, read off the unrounded value. */
  function Objection(value: real, policy: PidRounding): Option<PidRoundingError> {
    if value <= 0.0 then Some(NonPositive)
    else if Erases(policy, value) then Some(RoundedToZero)
    else None
  }

  lemma ActiveTermOutcome(value: real, term: Term, policy: PidRounding)
    requires policy.Validate().Ok?
    ensures RoundedActiveTerm(value, term, policy)
         == match Objection(value, policy)
            case Some(reason) => Err(ControllerPidError(term, reason))
            case None => Ok(policy.RoundValue(value).value)
  {
    RoundValueKeeps(policy, value);
    if value > 0.0 {
      KeptPositive(policy, value);
    }
  }

  /** The first term, in order, that cannot be given to the controller. */
  function FirstObjection(terms: seq<(Term, real)>, policy: PidRounding): Option<ControllerPidError> {
    if terms == [] then None
    else
      match Objection(terms[0].1, policy)
      case Some(reason) => Some(ControllerPidError(terms[0].0, reason))
      case None => FirstObjection(terms[1..], policy)
  }

  lemma FirstObjectionOfActive(pid: PidParameters, controllerType: ControllerType, policy: PidRounding)
    ensures var first, p, i, d := FirstObjection(ActiveTerms(pid, controllerType), policy),
                                  Objection(pid.proportional, policy),
                                  if controllerType.P? then None else Objection(pid.integral, policy),
                                  if controllerType.Pid? then Objection(pid.derivative, policy) else None;
      first == if p.Some? then Some(ControllerPidError(Proportional, p.value))
               else if i.Some? then Some(ControllerPidError(Integral, i.value))
               else if d.Some? then Some(ControllerPidError(Derivative, d.value))
               else None
  {
    var i, d := (Integral, pid.integral), (Derivative, pid.derivative);
    FirstObjectionCons(d, [], policy);
    FirstObjectionCons(i, if controllerType.Pid? then [d] else [], policy);
    FirstObjectionCons((Proportional, pid.proportional), ActiveTerms(pid, controllerType)[1..], policy);
    assert controllerType.P? ==> ActiveTerms(pid, controllerType)[1..] == [];
    assert controllerType.Pi? ==> ActiveTerms(pid, controllerType)[1..] == [i] + [];
    assert controllerType.Pid? ==> ActiveTerms(pid, controllerType)[1..] == [i] + ([d] + []);
    assert [d] + [] == [d];
  }

  lemma FirstObjectionCons(term: (Term, real), rest: seq<(Term, real)>, policy: PidRounding)
    ensures FirstObjection([term] + rest, policy)
         == match Objection(term.1, policy)
            case Some(reason) => Some(ControllerPidError(term.0, reason))
            case None => FirstObjection(rest, policy)
  {
    assert ([term] + rest)[1..] == rest;
  }

  /** An active term is shown rounded, a disabled one as its sentinel. */
  predicate ShowsTerm(shown: RoundedPidValue, active: bool, value: real, sentinel: real, policy: PidRounding) {
    if active then policy.RoundValue(value) == Ok(shown) && shown.value > 0.0
    else shown.value == sentinel
  }

  lemma TermOutcome(value: real, active: bool, sentinel: real, term: Term, policy: PidRounding)
    requires policy.Validate().Ok? && (sentinel == 0.0 || sentinel == DISABLED_RESET_TIME)
    ensures var objection := if active then Objection(value, policy) else None;
      var r := if active then RoundedActiveTerm(value, term, policy) else Ok(policy.DisabledValue(sentinel));
      && (objection.Some? ==> r == Err(ControllerPidError(term, objection.value)))
      && (objection.None? ==> r.Ok? && ShowsTerm(r.value, active, value, sentinel, policy) && ReadsBack(r.value))
  {
    if active {
      ActiveTermOutcome(value, term, policy);
      ActiveTermShown(value, policy);
    } else {
      DisabledRoundTrip(policy, sentinel);
    }
  }

  /** Under a valid policy the values are refused exactly for the first active term that is not
      positive or too small for the policy's decimals. Otherwise every active term is its rounded,
      still positive self, every disabled one is its sentinel, and each text reads back as its value. */
  lemma ControllerValuesOutcome(pid: PidParameters, controllerType: ControllerType, template: DcsTemplate)
    requires template.pidRounding.Validate().Ok?
    ensures var policy, r := template.pidRounding, ControllerValues(pid, controllerType, template);
      match FirstObjection(ActiveTerms(pid, controllerType), policy)
      case Some(e) => r == Err(e)
      case None =>
        && r.Ok?
        && r.value.level == pid.level
        && ShowsTerm(r.value.proportional, true, pid.proportional, 0.0, policy)
        && ShowsTerm(r.value.integral, !controllerType.P?, pid.integral,
                     if template.integralType.ResetTime? then 9999.0 else 0.0, policy)
        && ShowsTerm(r.value.derivative, controllerType.Pid?, pid.derivative, 0.0, policy)
        && ReadsBack(r.value.proportional) && ReadsBack(r.value.integral) && ReadsBack(r.value.derivative)
  {
    var policy := template.pidRounding;
    FirstObjectionOfActive(pid, controllerType, policy);
    TermOutcome(pid.proportional, true, 0.0, Proportional, policy);
    TermOutcome(pid.integral, !controllerType.P?, DisabledIntegral(template.integralType), Integral, policy);
    TermOutcome(pid.derivative, controllerType.Pid?, 0.0, Derivative, policy);
  }

  ghost predicate ReadsBack(v: RoundedPidValue) {
    DecimalText.ParseReal(v.display) == Some(v.value)
  }

  lemma ActiveTermShown(value: real, policy: PidRounding)
    requires policy.Validate().Ok?
    ensures policy.RoundValue(value).Ok? && ReadsBack(policy.RoundValue(value).value)
    ensures Objection(value, policy).None? ==> policy.RoundValue(value).value.value > 0.0
  {
    DisplayRoundTrip(policy, value);
    RoundValueKeeps(policy, value);
    if value > 0.0 {
      KeptPositive(policy, value);
    }
  }

  /** A policy with more than seven digits, or with no significant digit at all, is reported against the
      first term, whatever the values; no other policy ever is. */
  lemma InvalidPolicyIsReported(pid: PidParameters, controllerType: ControllerType, template: DcsTemplate)
    ensures var policy := template.pidRounding;
      ControllerValues(pid, controllerType, template)
      == Err(ControllerPidError(Proportional, InvalidDigits(policy.kind, policy.digits)))
      <==> policy.digits > 7 || (policy.kind.SignificantDigits? && policy.digits == 0)
  {
    if template.pidRounding.Validate().Ok? {
      ControllerValuesOutcome(pid, controllerType, template);
      FirstObjectionOfActive(pid, controllerType, template.pidRounding);
    }
  }
}
