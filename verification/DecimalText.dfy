/** Decimal numerals: printing a scaled integer in fixed or scientific form, and reading such a
    numeral back as a real. */
module DecimalText {
  import opened Wrappers
  import opened Decimal

  // ----- Digit strings -----

  function DigitChar(d: nat): char
    requires d < 10
  {
    ('0' as int + d) as char
  }

  function DigitOf(c: char): Option<nat> {
    if '0' <= c <= '9' then Some(c as int - '0' as int) else None
  }

  predicate AllDigits(s: string) {
    forall i | 0 <= i < |s| :: '0' <= s[i] <= '9'
  }

  /** The lowest `width` decimal digits of `n`, leading zeros included. */
  function Digits(n: nat, width: nat): (r: string)
    ensures |r| == width && AllDigits(r)
  {
    if width == 0 then "" else Digits(n / 10, width - 1) + [DigitChar(n % 10)]
  }

  function Width(n: nat): (w: nat)
    ensures w >= 1
  {
    if n < 10 then 1 else 1 + Width(n / 10)
  }

  lemma {:induction false} WidthSuffices(n: nat, w: nat)
    requires w >= Width(n)
    ensures n < Pow10(w)
  {
    if n >= 10 {
      WidthSuffices(n / 10, w - 1);
    } else {
      assert Pow10(w) == 10 * Pow10(w - 1);
    }
  }

  lemma {:induction false} WidthIsLeast(n: nat, w: nat)
    requires Pow10(w) <= n < Pow10(w + 1)
    ensures Width(n) == w + 1
  {
    if w > 0 {
      WidthIsLeast(n / 10, w - 1);
    }
  }

  function ParseDigits(s: string): Option<nat> {
    if s == "" then Some(0)
    else
      match (ParseDigits(s[..|s| - 1]), DigitOf(s[|s| - 1]))
      case (Some(m), Some(d)) => Some(10 * m + d)
      case _ => None
  }

  lemma {:induction false} DigitsRoundTrip(n: nat, width: nat)
    requires n < Pow10(width)
    ensures ParseDigits(Digits(n, width)) == Some(n)
  {
    if width > 0 {
      DigitsRoundTrip(n / 10, width - 1);
      var s := Digits(n, width);
      assert s[..width - 1] == Digits(n / 10, width - 1);
      assert s[width - 1] == DigitChar(n % 10);
    }
  }

  // ----- Reading a numeral -----

  /** The position of the first `c`, or the length if there is none. */
  function IndexOf(s: string, c: char): (i: nat)
    ensures i <= |s|
  {
    if s == "" || s[0] == c then 0 else 1 + IndexOf(s[1..], c)
  }

  lemma {:induction false} IndexOfFirst(before: string, c: char, after: string)
    requires c !in before
    ensures IndexOf(before + [c] + after, c) == |before|
  {
    var s := before + [c] + after;
    if before != "" {
      IndexOfFirst(before[1..], c, after);
      assert s[1..] == before[1..] + [c] + after;
      assert s[0] == before[0] && before[0] in before;
    }
  }

  lemma {:induction false} IndexOfAbsent(s: string, c: char)
    requires c !in s
    ensures IndexOf(s, c) == |s|
  {
    if s != "" {
      assert s[0] in s;
      IndexOfAbsent(s[1..], c);
    }
  }

  function ParseUnsignedInt(s: string): Option<nat> {
    if s == "" then None else ParseDigits(s)
  }

  function ParseInt(s: string): Option<int> {
    var negative := s != "" && s[0] == '-';
    match ParseUnsignedInt(if negative then s[1..] else s)
    case Some(n) => Some(if negative then 0 - n else n)
    case None => None
  }

  /** The digits before and after a point, read as one number shifted by those after it. */
  function ParsePointed(whole: string, fraction: string): Option<real> {
    match ParseUnsignedInt(whole + fraction)
    case Some(n) => Some(Shift(n as real, 0 - |fraction|))
    case None => None
  }

  /** Digits with at most one point among them. */
  function ParseDecimal(s: string): Option<real> {
    var point := IndexOf(s, '.');
    if point == |s| then ParsePointed(s, "") else ParsePointed(s[..point], s[point + 1..])
  }

  function ParseUnsigned(s: string): Option<real> {
    var mark := IndexOf(s, 'e');
    if mark == |s| then ParseDecimal(s)
    else
      match (ParseDecimal(s[..mark]), ParseInt(s[mark + 1..]))
      case (Some(m), Some(e)) => Some(Shift(m, e))
      case _ => None
  }

  function ParseReal(s: string): Option<real> {
    if s != "" && s[0] == '-' then
      match ParseUnsigned(s[1..])
      case Some(x) => Some(-x)
      case None => None
    else ParseUnsigned(s)
  }

  // ----- Printing a numeral -----

  /** `n` units of the place `places` after the point. */
  function UnitsText(n: nat, places: nat): string {
    var width := if Width(n) > places then Width(n) else places + 1;
    var digits := Digits(n, width);
    if places == 0 then digits else digits[..width - places] + "." + digits[width - places..]
  }

  function IntText(i: int): string {
    if i < 0 then "-" + Digits(-i, Width(-i)) else Digits(i, Width(i))
  }

  function SignText(x: real): string { if x < 0.0 then "-" else "" }

  /** The number of whole units of a place nearest to the size of `x`. */
  function Units(x: real, places: int): nat {
    ShiftSign(Magnitude(x), places);
    RoundHalfAway(Shift(Magnitude(x), places))
  }

  function FixedText(x: real, places: nat): string {
    SignText(x) + UnitsText(Units(x, places), places)
  }

  function SciText(x: real, precision: nat, exponent: int): string {
    SignText(x) + (UnitsText(Units(x, precision - exponent), precision) + "e" + IntText(exponent))
  }

  // ----- Reading back what was printed -----

  lemma UnitsTextChars(n: nat, places: nat)
    ensures var s := UnitsText(n, places);
      && s != "" && '0' <= s[0] <= '9'
      && 'e' !in s
  {
  }

  lemma PointedParse(whole: string, fraction: string)
    requires AllDigits(whole)
    ensures ParseDecimal(whole + "." + fraction) == ParsePointed(whole, fraction)
  {
    var s := whole + ['.'] + fraction;
    IndexOfFirst(whole, '.', fraction);
    assert s[..|whole|] == whole && s[|whole| + 1..] == fraction;
  }

  lemma PlainParse(digits: string)
    requires AllDigits(digits)
    ensures ParseDecimal(digits) == ParsePointed(digits, "")
  {
    IndexOfAbsent(digits, '.');
  }

  lemma UnitsRoundTrip(n: nat, places: nat)
    ensures ParseDecimal(UnitsText(n, places)) == Some(Shift(n as real, 0 - places))
  {
    var width := if Width(n) > places then Width(n) else places + 1;
    var digits := Digits(n, width);
    WidthSuffices(n, width);
    DigitsRoundTrip(n, width);
    if places == 0 {
      PlainParse(digits);
      assert digits + "" == digits;
    } else {
      var whole, fraction := digits[..width - places], digits[width - places..];
      assert whole + fraction == digits;
      PointedParse(whole, fraction);
    }
  }

  lemma IntRoundTrip(i: int)
    ensures ParseInt(IntText(i)) == Some(i)
  {
    var n: nat := if i < 0 then -i else i;
    WidthSuffices(n, Width(n));
    DigitsRoundTrip(n, Width(n));
    if i < 0 {
      assert IntText(i)[1..] == Digits(n, Width(n));
    }
  }

  /** Signs are read back, whatever follows them. */
  lemma SignRoundTrip(x: real, unsigned: string)
    requires unsigned != "" && '0' <= unsigned[0] <= '9'
    requires ParseUnsigned(unsigned) == Some(Magnitude(x))
    ensures ParseReal(SignText(x) + unsigned) == Some(x)
  {
    var s := SignText(x) + unsigned;
    if x < 0.0 {
      assert s[1..] == unsigned;
    } else {
      assert s == unsigned;
    }
  }

  /** A number that is a whole number of units at a place. */
  ghost predicate IsUnits(x: real, places: int) {
    var scaled := Shift(Magnitude(x), places);
    scaled == RoundHalfAway(scaled) as real
  }

  /** A number with at most `places` decimals is read back exactly from its fixed form. */
  lemma FixedRoundTrip(x: real, places: nat)
    requires IsUnits(x, places)
    ensures ParseReal(FixedText(x, places)) == Some(x)
  {
    var n := Units(x, places);
    var s := UnitsText(n, places);
    UnitsTextChars(n, places);
    UnitsRoundTrip(n, places);
    IndexOfAbsent(s, 'e');
    ShiftAdd(Magnitude(x), places, 0 - places);
    SignRoundTrip(x, s);
  }

  lemma ScientificParts(mantissa: string, power: string, m: real, e: int)
    requires 'e' !in mantissa && ParseDecimal(mantissa) == Some(m) && ParseInt(power) == Some(e)
    ensures ParseUnsigned(mantissa + "e" + power) == Some(Shift(m, e))
  {
    var s := mantissa + ['e'] + power;
    IndexOfFirst(mantissa, 'e', power);
    assert s[..|mantissa|] == mantissa && s[|mantissa| + 1..] == power;
    assert mantissa + "e" + power == s;
  }

  /** Reading the parts back undoes the scaling: the mantissa's places and the exponent cancel. */
  lemma UnitsScaleBack(x: real, precision: nat, exponent: int)
    requires IsUnits(x, precision - exponent)
    ensures Shift(Shift(Units(x, precision - exponent) as real, 0 - precision), exponent) == Magnitude(x)
  {
    ShiftAdd(Units(x, precision - exponent) as real, 0 - precision, exponent);
    ShiftAdd(Magnitude(x), precision - exponent, exponent - precision);
  }

  lemma SciUnsigned(x: real, precision: nat, exponent: int)
    requires IsUnits(x, precision - exponent)
    ensures ParseUnsigned(UnitsText(Units(x, precision - exponent), precision) + "e" + IntText(exponent))
         == Some(Magnitude(x))
  {
    var n := Units(x, precision - exponent);
    UnitsTextChars(n, precision);
    UnitsRoundTrip(n, precision);
    IntRoundTrip(exponent);
    ScientificParts(UnitsText(n, precision), IntText(exponent), Shift(n as real, 0 - precision), exponent);
    UnitsScaleBack(x, precision, exponent);
  }

  /** So is a number with at most `precision + 1` significant digits from its scientific form. */
  lemma SciRoundTrip(x: real, precision: nat, exponent: int)
    requires IsUnits(x, precision - exponent)
    ensures ParseReal(SciText(x, precision, exponent)) == Some(x)
  {
    var n := Units(x, precision - exponent);
    UnitsTextChars(n, precision);
    SciUnsigned(x, precision, exponent);
    SignRoundTrip(x, UnitsText(n, precision) + "e" + IntText(exponent));
  }

  // ----- The form of what is printed -----

  /** A whole number without leading zeros. */
  predicate IsPlainWhole(s: string) {
    AllDigits(s) && s != "" && (|s| > 1 ==> s[0] != '0')
  }

  lemma {:induction false} LeadingDigit(n: nat)
    requires n > 0
    ensures Digits(n, Width(n))[0] != '0'
  {
    if n >= 10 {
      LeadingDigit(n / 10);
    } else {
      assert Digits(n, 1) == Digits(n / 10, 0) + [DigitChar(n)];
    }
  }

  lemma PlainDigits(n: nat)
    ensures IsPlainWhole(Digits(n, Width(n)))
  {
    if n > 0 {
      LeadingDigit(n);
    }
  }

  lemma IntForm(i: int)
    ensures i >= 0 ==> IsPlainWhole(IntText(i))
    ensures i < 0 ==> IntText(i)[0] == '-' && IsPlainWhole(IntText(i)[1..])
  {
    PlainDigits(if i < 0 then -i else i);
    if i < 0 {
      assert IntText(i)[1..] == Digits(-i, Width(-i));
    }
  }

  /** A text made of a whole part and a fraction of exactly `places` digits. */
  predicate HasForm(text: string, whole: string, fraction: string, places: nat) {
    && text == (if places == 0 then whole else whole + "." + fraction)
    && IsPlainWhole(whole) && AllDigits(fraction) && |fraction| == places
  }

  lemma UnitsForm(n: nat, places: nat) returns (whole: string, fraction: string)
    ensures HasForm(UnitsText(n, places), whole, fraction, places)
    ensures Width(n) <= places + 1 ==> |whole| == 1
    ensures Width(n) == places + 1 ==> whole[0] != '0' || n == 0
  {
    var width := if Width(n) > places then Width(n) else places + 1;
    var digits := Digits(n, width);
    whole, fraction := digits[..width - places], digits[width - places..];
    if width == Width(n) {
      PlainDigits(n);
      assert |whole| > 1 ==> whole[0] == digits[0];
      if n > 0 {
        LeadingDigit(n);
      }
    }
    if places == 0 {
      assert whole == digits;
    }
  }

  /** In scientific form exactly one digit, which is not zero, stands before the point. */
  lemma SciUnits(x: real, precision: nat, exponent: int)
    requires IsUnits(x, precision - exponent) && Ten(exponent) <= Magnitude(x) < Ten(exponent + 1)
    ensures Width(Units(x, precision - exponent)) == precision + 1 && Units(x, precision - exponent) > 0
  {
    var n, places := Units(x, precision - exponent), precision - exponent;
    ShiftOrder(Ten(exponent), Magnitude(x), places);
    ShiftOrder(Magnitude(x), Ten(exponent + 1), places);
    ShiftAdd(1.0, exponent, places);
    ShiftAdd(1.0, exponent + 1, places);
    TenIsPow10(precision);
    TenIsPow10(precision + 1);
    WidthIsLeast(n, precision);
  }
}
