/** Exact decimal arithmetic on reals: shifting the decimal point, the decimal exponent of a number,
    and rounding to a decimal place or to a number of significant digits, ties away from zero. */
module Decimal {
  // ----- Shifting the decimal point -----

  /** `x` times ten to the power `p`. */
  function Shift(x: real, p: int): real
    decreases if p < 0 then -p else p
  {
    if p == 0 then x
    else if p > 0 then 10.0 * Shift(x, p - 1)
    else Shift(x, p + 1) / 10.0
  }

  function Ten(e: int): real { Shift(1.0, e) }

  lemma ShiftStep(x: real, p: int)
    ensures Shift(x, p + 1) == 10.0 * Shift(x, p)
  {
  }

  lemma {:induction false} ShiftAdd(x: real, p: int, q: int)
    ensures Shift(Shift(x, p), q) == Shift(x, p + q)
    decreases if q < 0 then -q else q
  {
    if q > 0 {
      ShiftAdd(x, p, q - 1);
      ShiftStep(x, p + q - 1);
    } else if q < 0 {
      ShiftAdd(x, p, q + 1);
      ShiftStep(x, p + q);
    }
  }

  lemma {:induction false} ShiftSum(x: real, y: real, p: int)
    ensures Shift(x + y, p) == Shift(x, p) + Shift(y, p)
    decreases if p < 0 then -p else p
  {
    if p > 0 {
      ShiftSum(x, y, p - 1);
    } else if p < 0 {
      ShiftSum(x, y, p + 1);
    }
  }

  lemma {:induction false} ShiftOrder(x: real, y: real, p: int)
    ensures x < y <==> Shift(x, p) < Shift(y, p)
    ensures x == y <==> Shift(x, p) == Shift(y, p)
    decreases if p < 0 then -p else p
  {
    if p > 0 {
      ShiftOrder(x, y, p - 1);
    } else if p < 0 {
      ShiftOrder(x, y, p + 1);
    }
  }

  lemma {:induction false} ShiftZero(p: int)
    ensures Shift(0.0, p) == 0.0
    decreases if p < 0 then -p else p
  {
    if p > 0 {
      ShiftZero(p - 1);
    } else if p < 0 {
      ShiftZero(p + 1);
    }
  }

  lemma ShiftNegates(x: real, p: int)
    ensures Shift(-x, p) == -Shift(x, p)
  {
    ShiftSum(x, -x, p);
    ShiftZero(p);
  }

  lemma ShiftSign(x: real, p: int)
    ensures x > 0.0 <==> Shift(x, p) > 0.0
    ensures x < 0.0 <==> Shift(x, p) < 0.0
  {
    ShiftOrder(0.0, x, p);
    ShiftOrder(x, 0.0, p);
    ShiftZero(p);
  }

  /** Shifting is scaling by a power of ten. */
  lemma {:induction false} ShiftScales(x: real, p: int)
    ensures Shift(x, p) == x * Ten(p)
    decreases if p < 0 then -p else p
  {
    if p > 0 {
      ShiftScales(x, p - 1);
      assert x * (10.0 * Ten(p - 1)) == 10.0 * (x * Ten(p - 1));
    } else if p < 0 {
      ShiftScales(x, p + 1);
      assert x * (Ten(p + 1) / 10.0) == (x * Ten(p + 1)) / 10.0;
    }
  }

  lemma {:induction false} TenMonotone(a: int, b: int)
    requires a <= b
    ensures 0.0 < Ten(a) <= Ten(b)
    decreases b - a
  {
    ShiftSign(1.0, a);
    if a < b {
      TenMonotone(a, b - 1);
      ShiftStep(1.0, b - 1);
    }
  }

  function Pow10(n: nat): (r: nat)
    ensures r > 0
  {
    if n == 0 then 1 else 10 * Pow10(n - 1)
  }

  lemma {:induction false} TenIsPow10(n: nat)
    ensures Ten(n) == Pow10(n) as real
  {
    if n > 0 {
      TenIsPow10(n - 1);
    }
  }

  // ----- The decimal exponent -----

  function Magnitude(x: real): real { if x >= 0.0 then x else -x }

  /** The exponent of the leading decimal digit, found by moving the point until one digit stands
      before it. */
  function Exponent(x: real): int
    requires x > 0.0
    decreases x < 1.0, if x < 1.0 then (1.0 / x).Floor else x.Floor
  {
    if x >= 10.0 then 1 + Exponent(x / 10.0)
    else if x < 1.0 then
      assert 1.0 / (x * 10.0) == (1.0 / x) / 10.0;
      Exponent(x * 10.0) - 1
    else 0
  }

  lemma {:induction false} ExponentBounds(x: real)
    requires x > 0.0
    ensures Ten(Exponent(x)) <= x < Ten(Exponent(x) + 1)
    decreases x < 1.0, if x < 1.0 then (1.0 / x).Floor else x.Floor
  {
    if x >= 10.0 {
      ExponentBounds(x / 10.0);
      ShiftStep(1.0, Exponent(x / 10.0));
      ShiftStep(1.0, Exponent(x / 10.0) + 1);
    } else if x < 1.0 {
      assert 1.0 / (x * 10.0) == (1.0 / x) / 10.0;
      ExponentBounds(x * 10.0);
      ShiftStep(1.0, Exponent(x));
      ShiftStep(1.0, Exponent(x) + 1);
    } else {
      assert Ten(1) == 10.0;
    }
  }

  /** The bounds determine the exponent. */
  lemma ExponentUnique(x: real, e: int)
    requires x > 0.0 && Ten(e) <= x < Ten(e + 1)
    ensures Exponent(x) == e
  {
    ExponentBounds(x);
    var f := Exponent(x);
    if f < e {
      TenMonotone(f + 1, e);
    } else if e < f {
      TenMonotone(e + 1, f);
    }
  }

  lemma ExponentMonotone(x: real, y: real)
    requires 0.0 < x <= y
    ensures Exponent(x) <= Exponent(y)
  {
    ExponentBounds(x);
    ExponentBounds(y);
    if Exponent(y) < Exponent(x) {
      TenMonotone(Exponent(y) + 1, Exponent(x));
    }
  }

  // ----- Rounding to a decimal place -----

  /** The nearest integer, ties away from zero. */
  function RoundHalfAway(x: real): int {
    if x >= 0.0 then (x + 0.5).Floor else -((0.5 - x).Floor)
  }

  lemma RoundHalfAwayFacts(x: real)
    ensures -0.5 <= RoundHalfAway(x) as real - x <= 0.5
    ensures x >= 0.0 ==> RoundHalfAway(x) as real - x > -0.5
    ensures x <= 0.0 ==> RoundHalfAway(x) as real - x < 0.5
    ensures RoundHalfAway(-x) == -RoundHalfAway(x)
  {
  }

  lemma RoundHalfAwayMonotone(x: real, y: real)
    requires x <= y
    ensures RoundHalfAway(x) <= RoundHalfAway(y)
  {
  }

  lemma RoundInteger(n: int)
    ensures RoundHalfAway(n as real) == n
  {
  }

  function RoundTo(x: real, places: int): real {
    Shift(RoundHalfAway(Shift(x, places)) as real, -places)
  }

  /** Rounding to a decimal place is within half a unit of it, with ties away from zero. */
  lemma RoundToError(x: real, places: int)
    ensures var half, err := Shift(0.5, -places), RoundTo(x, places) - x;
      && -half <= err <= half
      && (x >= 0.0 ==> err > -half)
      && (x <= 0.0 ==> err < half)
  {
    var scaled := Shift(x, places);
    var err := RoundHalfAway(scaled) as real - scaled;
    RoundHalfAwayFacts(scaled);
    ShiftSign(x, places);
    ShiftAdd(x, places, -places);
    ShiftSum(err, scaled, -places);
    ShiftOrder(err, 0.5, -places);
    ShiftOrder(-0.5, err, -places);
    ShiftNegates(0.5, -places);
  }

  lemma RoundToOdd(x: real, places: int)
    ensures RoundTo(-x, places) == -RoundTo(x, places)
  {
    ShiftNegates(x, places);
    RoundHalfAwayFacts(Shift(x, places));
    ShiftNegates(RoundHalfAway(Shift(x, places)) as real, -places);
  }

  /** A whole number of units at a place is not changed by rounding to it. */
  lemma RoundToFixed(n: int, places: int)
    ensures var x := Shift(n as real, -places);
      Shift(x, places) == n as real && RoundTo(x, places) == x
  {
    ShiftAdd(n as real, -places, places);
    RoundInteger(n);
  }

  lemma RoundToIdempotent(x: real, places: int)
    ensures RoundTo(RoundTo(x, places), places) == RoundTo(x, places)
  {
    RoundToFixed(RoundHalfAway(Shift(x, places)), places);
  }

  lemma RoundToMonotone(x: real, y: real, places: int)
    requires x <= y
    ensures RoundTo(x, places) <= RoundTo(y, places)
  {
    ShiftOrder(x, y, places);
    var m, n := RoundHalfAway(Shift(x, places)), RoundHalfAway(Shift(y, places));
    RoundHalfAwayMonotone(Shift(x, places), Shift(y, places));
    ShiftOrder(m as real, n as real, -places);
  }

  // ----- Rounding to significant digits -----

  function RoundSig(x: real, digits: int): real {
    if x == 0.0 then 0.0 else RoundTo(x, digits - 1 - Exponent(Magnitude(x)))
  }

  lemma RoundSigOdd(x: real, digits: int)
    ensures RoundSig(-x, digits) == -RoundSig(x, digits)
  {
    if x != 0.0 {
      assert Magnitude(-x) == Magnitude(x);
      RoundToOdd(x, digits - 1 - Exponent(Magnitude(x)));
    }
  }

  /** A power of ten no finer than the last kept place is not changed by rounding. */
  lemma PowerIsFixed(e: int, places: int)
    requires e + places >= 0
    ensures RoundTo(Ten(e), places) == Ten(e)
    ensures Shift(Ten(e), places) == Pow10(e + places) as real
  {
    ShiftAdd(1.0, e, places);
    TenIsPow10(e + places);
    ShiftAdd(1.0, e + places, -places);
    RoundToFixed(Pow10(e + places), places);
  }

  /** A positive number rounds to a number of its own decade, or carries exactly to the next power
      of ten. */
  lemma RoundSigDecade(x: real, digits: nat)
    requires x > 0.0 && digits >= 1
    ensures Ten(Exponent(x)) <= RoundSig(x, digits) <= Ten(Exponent(x) + 1)
  {
    var e := Exponent(x);
    var p := digits - 1 - e;
    ExponentBounds(x);
    RoundToMonotone(Ten(e), x, p);
    RoundToMonotone(x, Ten(e + 1), p);
    PowerIsFixed(e, p);
    PowerIsFixed(e + 1, p);
  }

  /** A number that is a whole number of units at the place its own exponent calls for. */
  ghost predicate HasDigits(r: real, digits: nat)
    requires r > 0.0
  {
    var scaled := Shift(r, digits - 1 - Exponent(r));
    scaled == RoundHalfAway(scaled) as real
  }

  /** Where rounding leaves the exponent: unchanged, or one higher on an exact power of ten. Either
      way the result has the digits its own exponent calls for. */
  lemma RoundSigExponent(x: real, digits: nat)
    requires x > 0.0 && digits >= 1
    ensures var r, e := RoundSig(x, digits), Exponent(x);
      && r > 0.0
      && (Exponent(r) == e || (Exponent(r) == e + 1 && r == Ten(e + 1)))
      && HasDigits(r, digits)
  {
    var r, e := RoundSig(x, digits), Exponent(x);
    RoundSigDecade(x, digits);
    TenMonotone(e, e + 1);
    if r < Ten(e + 1) {
      ExponentUnique(r, e);
      var n := RoundHalfAway(Shift(x, digits - 1 - e));
      RoundToFixed(n, digits - 1 - e);
      RoundInteger(n);
    } else {
      PowerHasDigits(e + 1, digits);
    }
  }

  lemma PowerHasDigits(e: int, digits: nat)
    requires digits >= 1
    ensures Ten(e) > 0.0 && Exponent(Ten(e)) == e && HasDigits(Ten(e), digits)
  {
    TenMonotone(e, e + 1);
    ShiftStep(1.0, e);
    ExponentUnique(Ten(e), e);
    PowerIsFixed(e, digits - 1 - e);
    RoundInteger(Pow10(digits - 1));
  }

  lemma DigitsAreFixed(r: real, digits: nat)
    requires r > 0.0 && HasDigits(r, digits)
    ensures RoundSig(r, digits) == r
  {
    ShiftAdd(r, digits - 1 - Exponent(r), -(digits - 1 - Exponent(r)));
  }

  /** Significant-digit rounding is idempotent, carries included. */
  lemma RoundSigIdempotent(x: real, digits: nat)
    requires digits >= 1
    ensures RoundSig(RoundSig(x, digits), digits) == RoundSig(x, digits)
  {
    if x != 0.0 {
      var r := RoundSig(Magnitude(x), digits);
      RoundSigExponent(Magnitude(x), digits);
      DigitsAreFixed(r, digits);
      if x < 0.0 {
        RoundSigOdd(x, digits);
        RoundSigOdd(r, digits);
      }
    }
  }

  /** It never erases a nonzero number, and keeps its sign. */
  lemma RoundSigKeepsSign(x: real, digits: nat)
    requires digits >= 1
    ensures RoundSig(x, digits) > 0.0 <==> x > 0.0
    ensures RoundSig(x, digits) < 0.0 <==> x < 0.0
  {
    if x > 0.0 {
      RoundSigExponent(x, digits);
    } else if x < 0.0 {
      RoundSigExponent(-x, digits);
      RoundSigOdd(x, digits);
    }
  }

  /** Its error is at most half a unit of the last kept place, hence a fixed fraction of the number. */
  lemma RoundSigError(x: real, digits: nat)
    requires x != 0.0 && digits >= 1
    ensures var err, half := Magnitude(RoundSig(x, digits) - x), Shift(0.5, Exponent(Magnitude(x)) - (digits - 1));
      && err <= half
      && half <= Shift(0.5 * Magnitude(x), 1 - digits)
  {
    var m := Magnitude(x);
    var e := Exponent(m);
    RoundToError(x, digits - 1 - e);
    ExponentBounds(m);
    ShiftAdd(0.5, e, 1 - digits);
    ShiftScales(0.5, e);
    ShiftOrder(Shift(0.5, e), 0.5 * m, 1 - digits);
  }

  /** It is monotone, across decades as well as inside one. */
  lemma RoundSigMonotone(x: real, y: real, digits: nat)
    requires x <= y && digits >= 1
    ensures RoundSig(x, digits) <= RoundSig(y, digits)
  {
    if x > 0.0 {
      RoundSigMonotonePositive(x, y, digits);
    } else if y < 0.0 {
      RoundSigMonotonePositive(-y, -x, digits);
      RoundSigOdd(x, digits);
      RoundSigOdd(y, digits);
    } else {
      RoundSigKeepsSign(x, digits);
      RoundSigKeepsSign(y, digits);
    }
  }

  lemma RoundSigMonotonePositive(x: real, y: real, digits: nat)
    requires 0.0 < x <= y && digits >= 1
    ensures RoundSig(x, digits) <= RoundSig(y, digits)
  {
    ExponentMonotone(x, y);
    if Exponent(x) == Exponent(y) {
      RoundToMonotone(x, y, digits - 1 - Exponent(x));
    } else {
      RoundSigDecade(x, digits);
      RoundSigDecade(y, digits);
      TenMonotone(Exponent(x) + 1, Exponent(y));
    }
  }
}
