/** How a control system expresses PID terms, and the rounding of a term to what its controller
    accepts, with the text shown for it. */
module PidConfig {
  import opened Wrappers
  import opened Decimal
  import opened DecimalText

  datatype ProportionalType = Gain | Band

  datatype IntegralType = ResetTime | ResetRate | ResetGain

  datatype DerivativeType = DerivativeTime | DerivativeGain

  datatype TimeUnit = Seconds | Minutes

  datatype PidRoundingKind = DecimalPlaces | SignificantDigits

  datatype PidRoundingError =
    | InvalidDigits(kind: PidRoundingKind, digits: nat)
    | NonPositive
    | RoundedToZero

  datatype RoundedPidValue = RoundedPidValue(value: real, display: string)

  datatype PidRounding = PidRounding(kind: PidRoundingKind, digits: nat) {
    function Validate(): Result<(), PidRoundingError> {
      if digits > 7 || (kind.SignificantDigits? && digits == 0) then Err(InvalidDigits(kind, digits)) else Ok(())
    }

    function Places(value: real): int {
      match kind
      case DecimalPlaces => digits
      case SignificantDigits => if value != 0.0 then digits - 1 - Exponent(Magnitude(value)) else 0
    }

    /** The text of an already rounded number. */
    function Display(rounded: real): string
      requires Validate().Ok?
    {
      match kind
      case DecimalPlaces => FixedText(rounded, digits)
      case SignificantDigits =>
        if rounded == 0.0 then "0"
        else
          var exponent := Exponent(Magnitude(rounded));
          if exponent >= digits || exponent < -4 then SciText(rounded, digits - 1, exponent)
          else FixedText(rounded, digits - 1 - exponent)
    }

    function RoundValue(value: real): Result<RoundedPidValue, PidRoundingError> {
      match Validate()
      case Err(e) => Err(e)
      case Ok(_) =>
        var rounded := RoundTo(value, Places(value));
        Ok(RoundedPidValue(rounded, Display(rounded)))
    }

    /** A whole sentinel value, shown at the policy's decimals or plainly. */
    function DisabledValue(value: real): RoundedPidValue
      requires value == value.Floor as real
    {
      match kind
      case DecimalPlaces => RoundedPidValue(value, FixedText(value, digits))
      case SignificantDigits => RoundedPidValue(value, FixedText(value, 0))
    }
  }

  /** The number a valid policy keeps of `value`. */
  function Kept(policy: PidRounding, value: real): real {
    if policy.kind.DecimalPlaces? then RoundTo(value, policy.digits) else RoundSig(value, policy.digits)
  }

  lemma RoundValueKeeps(policy: PidRounding, value: real)
    ensures var r := policy.RoundValue(value);
      r == match policy.Validate()
           case Err(e) => Err(e)
           case Ok(_) => Ok(RoundedPidValue(Kept(policy, value), policy.Display(Kept(policy, value))))
  {
    if policy.kind.SignificantDigits? && value == 0.0 {
      assert RoundTo(0.0, 0) == 0.0;
    }
  }

  // ----- The kept number -----

  lemma KeptIsIdempotent(policy: PidRounding, value: real)
    requires policy.Validate().Ok?
    ensures Kept(policy, Kept(policy, value)) == Kept(policy, value)
  {
    if policy.kind.DecimalPlaces? {
      RoundToIdempotent(value, policy.digits);
    } else {
      RoundSigIdempotent(value, policy.digits);
    }
  }

  /** Rounding is monotone and odd, and its error is at most half a unit of the last kept place. */
  lemma KeptIsFaithful(policy: PidRounding, x: real, y: real)
    requires policy.Validate().Ok?
    ensures x <= y ==> Kept(policy, x) <= Kept(policy, y)
    ensures Kept(policy, -x) == -Kept(policy, x)
    ensures Magnitude(Kept(policy, x) - x) <= Shift(0.5, -policy.Places(x))
  {
    if policy.kind.DecimalPlaces? {
      if x <= y { RoundToMonotone(x, y, policy.digits); }
      RoundToOdd(x, policy.digits);
      RoundToError(x, policy.digits);
    } else {
      if x <= y { RoundSigMonotone(x, y, policy.digits); }
      RoundSigOdd(x, policy.digits);
      if x != 0.0 { RoundSigError(x, policy.digits); }
    }
  }

  /** A positive term is kept positive, except that decimal places erase one smaller than half of
      the last place. */
  predicate Erases(policy: PidRounding, value: real) {
    policy.kind.DecimalPlaces? && Shift(value, policy.digits) < 0.5
  }

  lemma KeptPositive(policy: PidRounding, value: real)
    requires policy.Validate().Ok? && value > 0.0
    ensures Kept(policy, value) >= 0.0
    ensures Kept(policy, value) == 0.0 <==> Erases(policy, value)
  {
    if policy.kind.DecimalPlaces? {
      var n := RoundHalfAway(Shift(value, policy.digits));
      ShiftSign(value, policy.digits);
      ShiftSign(n as real, 0 - policy.digits);
    } else {
      RoundSigKeepsSign(value, policy.digits);
    }
  }

  // ----- The displayed text -----

  lemma KeptHasUnits(policy: PidRounding, value: real)
    requires policy.Validate().Ok?
    ensures var r := Kept(policy, value);
      IsUnits(r, if policy.kind.SignificantDigits? && r == 0.0 then 0 else policy.Places(r))
  {
    if policy.kind.DecimalPlaces? {
      DecimalHasUnits(value, policy.digits);
    } else if value == 0.0 {
      RoundInteger(0);
    } else {
      var r := RoundSig(value, policy.digits);
      RoundSigOdd(value, policy.digits);
      RoundSigExponent(Magnitude(value), policy.digits);
      assert Magnitude(r) == RoundSig(Magnitude(value), policy.digits);
    }
  }

  lemma DecimalHasUnits(value: real, places: int)
    ensures IsUnits(RoundTo(value, places), places)
  {
    RoundToOdd(value, places);
    var m := Magnitude(value);
    var n := RoundHalfAway(Shift(m, places));
    ShiftSign(m, places);
    ShiftSign(n as real, -places);
    assert Magnitude(RoundTo(value, places)) == RoundTo(m, places);
    RoundToFixed(n, places);
    RoundInteger(n);
  }

  /** Whichever form a policy picks for a number it keeps, the text reads back as that number. */
  lemma DisplayParses(policy: PidRounding, r: real)
    requires policy.Validate().Ok?
    requires IsUnits(r, if policy.kind.SignificantDigits? && r == 0.0 then 0 else policy.Places(r))
    ensures ParseReal(policy.Display(r)) == Some(r)
  {
    if policy.kind.DecimalPlaces? {
      FixedRoundTrip(r, policy.digits);
    } else if r == 0.0 {
      ZeroText();
    } else {
      SignificantParses(policy, r, Exponent(Magnitude(r)));
    }
  }

  lemma SignificantParses(policy: PidRounding, r: real, exponent: int)
    requires policy.Validate().Ok? && policy.kind.SignificantDigits? && r != 0.0
    requires exponent == Exponent(Magnitude(r)) && IsUnits(r, policy.digits - 1 - exponent)
    ensures ParseReal(policy.Display(r)) == Some(r)
  {
    if exponent >= policy.digits || exponent < -4 {
      SciParses(policy, r, policy.digits - 1, exponent);
    } else {
      FixedParses(policy, r, policy.digits - 1 - exponent);
    }
  }

  lemma SciParses(policy: PidRounding, r: real, precision: nat, exponent: int)
    requires policy.Validate().Ok? && policy.Display(r) == SciText(r, precision, exponent)
    requires IsUnits(r, precision - exponent)
    ensures ParseReal(policy.Display(r)) == Some(r)
  {
    SciRoundTrip(r, precision, exponent);
  }

  lemma FixedParses(policy: PidRounding, r: real, places: nat)
    requires policy.Validate().Ok? && policy.Display(r) == FixedText(r, places) && IsUnits(r, places)
    ensures ParseReal(policy.Display(r)) == Some(r)
  {
    FixedRoundTrip(r, places);
  }

  /** The display reads back as exactly the rounded value, in fixed and in scientific form, and
      rounding the value again gives the same value and the same text. */
  lemma DisplayRoundTrip(policy: PidRounding, value: real)
    requires policy.Validate().Ok?
    ensures var r := policy.RoundValue(value);
      && r.Ok?
      && ParseReal(r.value.display) == Some(r.value.value)
      && policy.RoundValue(r.value.value) == r
  {
    RoundValueKeeps(policy, value);
    KeptHasUnits(policy, value);
    DisplayParses(policy, Kept(policy, value));
    KeptIsIdempotent(policy, value);
    RoundValueKeeps(policy, Kept(policy, value));
  }

  /** Whether a policy writes a number with a power of ten: a significant-digit policy, for a number too
      large to show its digits or smaller than a ten-thousandth. */
  predicate ShowsPower(policy: PidRounding, r: real) {
    policy.kind.SignificantDigits? && r != 0.0 && (Magnitude(r) >= Ten(policy.digits) || Magnitude(r) < 0.0001)
  }

  /** How many digits follow the point. */
  function FractionDigits(policy: PidRounding, r: real): int {
    if policy.kind.DecimalPlaces? then policy.digits
    else if r == 0.0 then 0
    else if ShowsPower(policy, r) then policy.digits - 1
    else policy.digits - 1 - Exponent(Magnitude(r))
  }

  lemma PowerRange(policy: PidRounding, r: real)
    requires r != 0.0
    ensures var e := Exponent(Magnitude(r));
      e >= policy.digits || e < -4 <==> Magnitude(r) >= Ten(policy.digits) || Magnitude(r) < 0.0001
  {
    var e := Exponent(Magnitude(r));
    ExponentBounds(Magnitude(r));
    assert Ten(-4) == 0.0001;
    if e >= policy.digits { TenMonotone(policy.digits, e); } else { TenMonotone(e + 1, policy.digits); }
    if e < -4 { TenMonotone(e + 1, -4); } else { TenMonotone(-4, e); }
  }

  /** The text of every kept number: a minus sign if it is negative, a whole part without leading zeros,
      exactly the digits after the point that the policy calls for, and a power of ten only where the policy
      shows one, with a single nonzero digit before the point. */
  lemma DisplayForm(policy: PidRounding, value: real) returns (body: string, whole: string, fraction: string)
    requires policy.Validate().Ok?
    ensures var r := Kept(policy, value);
      && policy.Display(r) == (if r < 0.0 then "-" else "") + body
                              + (if ShowsPower(policy, r) then "e" + IntText(Exponent(Magnitude(r))) else "")
      && FractionDigits(policy, r) >= 0
      && HasForm(body, whole, fraction, FractionDigits(policy, r))
      && (ShowsPower(policy, r) ==> |whole| == 1 && whole[0] != '0')
  {
    var r := Kept(policy, value);
    KeptHasUnits(policy, value);
    if policy.kind.DecimalPlaces? {
      whole, fraction := UnitsForm(Units(r, policy.digits), policy.digits);
      body := UnitsText(Units(r, policy.digits), policy.digits);
    } else if r == 0.0 {
      body, whole, fraction := "0", "0", "";
    } else {
      PowerRange(policy, r);
      body, whole, fraction := SignificantForm(policy, r, Exponent(Magnitude(r)));
    }
  }

  lemma SignificantForm(policy: PidRounding, r: real, e: int) returns (body: string, whole: string, fraction: string)
    requires policy.Validate().Ok? && policy.kind.SignificantDigits? && r != 0.0 && e == Exponent(Magnitude(r))
    requires IsUnits(r, policy.digits - 1 - e)
    ensures var power := e >= policy.digits || e < -4;
      var places := if power then policy.digits - 1 else policy.digits - 1 - e;
      && policy.Display(r) == SignText(r) + body + (if power then "e" + IntText(e) else "")
      && places >= 0 && HasForm(body, whole, fraction, places)
      && (power ==> |whole| == 1 && whole[0] != '0')
  {
    if e >= policy.digits || e < -4 {
      ExponentBounds(Magnitude(r));
      body, whole, fraction := SciForm(r, policy.digits - 1, e);
    } else {
      body, whole, fraction := FixedForm(r, policy.digits - 1 - e);
    }
  }

  lemma FixedForm(r: real, places: nat) returns (body: string, whole: string, fraction: string)
    ensures FixedText(r, places) == SignText(r) + body + "" && HasForm(body, whole, fraction, places)
  {
    body := UnitsText(Units(r, places), places);
    whole, fraction := UnitsForm(Units(r, places), places);
    assert SignText(r) + body + "" == SignText(r) + body;
  }

  lemma SciForm(r: real, precision: nat, e: int) returns (body: string, whole: string, fraction: string)
    requires IsUnits(r, precision - e) && Ten(e) <= Magnitude(r) < Ten(e + 1)
    ensures SciText(r, precision, e) == SignText(r) + body + ("e" + IntText(e))
    ensures HasForm(body, whole, fraction, precision) && |whole| == 1 && whole[0] != '0'
  {
    SciUnits(r, precision, e);
    body := UnitsText(Units(r, precision - e), precision);
    whole, fraction := UnitsForm(Units(r, precision - e), precision);
    assert SignText(r) + (body + "e" + IntText(e)) == SignText(r) + body + ("e" + IntText(e));
  }

  lemma ZeroText()
    ensures ParseReal("0") == Some(0.0)
  {
    RoundInteger(0);
    FixedRoundTrip(0.0, 0);
    assert Units(0.0, 0) == 0;
    assert FixedText(0.0, 0) == "" + Digits(0, 1);
    assert Digits(0, 1) == Digits(0, 0) + [DigitChar(0)];
    assert FixedText(0.0, 0) == "0";
  }

  /** A disabled term keeps its exact sentinel, and its text says so. */
  lemma DisabledRoundTrip(policy: PidRounding, value: real)
    requires value == value.Floor as real
    ensures policy.DisabledValue(value).value == value
    ensures ParseReal(policy.DisabledValue(value).display) == Some(value)
  {
    var places := if policy.kind.DecimalPlaces? then policy.digits else 0;
    WholeHasUnits(value, places);
    FixedRoundTrip(value, places);
  }

  lemma WholeHasUnits(value: real, places: nat)
    requires value == value.Floor as real
    ensures IsUnits(value, places)
  {
    var m: nat := if value >= 0.0 then value.Floor else -value.Floor;
    assert Magnitude(value) == m as real;
    ShiftWhole(m, places);
    RoundInteger(m * Pow10(places));
  }

  lemma {:induction false} ShiftWhole(m: nat, places: nat)
    ensures Shift(m as real, places) == (m * Pow10(places)) as real
  {
    if places > 0 {
      ShiftWhole(m, places - 1);
    }
  }
}
