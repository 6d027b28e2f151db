/** Rebuilding a decimal numeral from the stored form {d, e, s}: concatenated digits, an exponent and
    a sign, with the decimal point placed by one of three cases.

    A numeral is read here as section 7.1.4.1 of ECMA-262 reads one: an optional sign, digits, and perhaps a
    point and more digits.  What the rebuilt numeral denotes is computed from the digits and the exponent
    alone, with exact arithmetic, and compared with what reading it gives. */
module Decimal {
  import opened Text

  // ---------------------------------------------------------------------------- digit strings

  function DigitChar(d: nat): char
    requires d < 10
  {
    ('0' as int + d) as char
  }

  function DigitOf(c: char): nat
    requires IsDigit(c)
  {
    c as int - '0' as int
  }

  predicate AllDigits(s: string) {
    forall i :: 0 <= i < |s| ==> IsDigit(s[i])
  }

  /** The number a digit string stands for; leading zeros are allowed. */
  function Value(s: string): nat
    requires AllDigits(s)
  {
    if s == "" then 0 else Value(s[..|s| - 1]) * 10 + DigitOf(s[|s| - 1])
  }

  /** How a number prints. */
  function Print(n: nat): (s: string)
    ensures s != "" && AllDigits(s)
  {
    if n < 10 then [DigitChar(n)] else Print(n / 10) + [DigitChar(n % 10)]
  }

  lemma {:induction false} PrintedValue(n: nat)
    ensures Value(Print(n)) == n
  {
    if n < 10 {
    } else {
      PrintedValue(n / 10);
      assert Print(n)[..|Print(n)| - 1] == Print(n / 10);
    }
  }

  function Pow10(n: nat): (p: nat)
    ensures p > 0
  {
    if n == 0 then 1 else 10 * Pow10(n - 1)
  }

  function Zeros(n: nat): (s: string)
    ensures |s| == n && AllDigits(s)
  {
    if n == 0 then "" else Zeros(n - 1) + "0"
  }

  lemma {:induction false} ZerosValue(n: nat)
    ensures Value(Zeros(n)) == 0
  {
    if n == 0 {
    } else {
      ZerosValue(n - 1);
      assert Zeros(n)[..n - 1] == Zeros(n - 1);
    }
  }

  lemma Shift(a: nat, p: nat, v: nat, d: nat)
    ensures (a * p + v) * 10 + d == a * (10 * p) + (v * 10 + d)
  {}

  lemma {:induction false} ValueOfJoin(a: string, b: string)
    requires AllDigits(a) && AllDigits(b)
    ensures AllDigits(a + b) && Value(a + b) == Value(a) * Pow10(|b|) + Value(b)
  {
    if b == "" {
      assert a + b == a;
    } else {
      var init := b[..|b| - 1];
      ValueOfJoin(a, init);
      assert (a + b)[..|a + b| - 1] == a + init;
      Shift(Value(a), Pow10(|init|), Value(init), DigitOf(b[|b| - 1]));
    }
  }

  // --------------------------------------------------------------------------------- numerals

  function Mixed(whole: nat, fraction: nat, places: nat): real {
    whole as real + fraction as real / Pow10(places) as real
  }

  function Signed(negative: bool, x: real): real {
    if negative then -x else x
  }

  /** The value of digits(.digits)?; None for other texts. */
  function Magnitude(s: string): Option<real> {
    var dot := IndexOfChar(s, '.');
    var whole := s[..dot];
    var fraction := if dot < |s| then s[dot + 1..] else "";
    if !AllDigits(whole) || !AllDigits(fraction) || whole == "" || (dot < |s| && fraction == "") then None
    else Some(Mixed(Value(whole), Value(fraction), |fraction|))
  }

  /** The value of -?digits(.digits)?, as Number() reads it; None for other texts. */
  function NumeralValue(s: string): Option<real> {
    var negative := StartsWith(s, "-");
    match Magnitude(if negative then s[1..] else s)
    case None => None
    case Some(x) => Some(Signed(negative, x))
  }

  function Sign(negative: bool): string {
    if negative then "-" else ""
  }

  /** The numeral the service writes.  The exponent is a JavaScript number, so it may be fractional;
      repeat and slice then cut their argument to an integer. */
  function Numeral(negative: bool, digits: string, e: real): string {
    var point := |digits| as real + e;
    Sign(negative) +
    if point <= 0.0 then "0." + Zeros((-point).Floor) + digits
    else if point >= |digits| as real then digits + Zeros((point - |digits| as real).Floor)
    else digits[..point.Floor] + "." + digits[point.Floor..]
  }

  /** v * 10^e. */
  function Scaled(v: nat, e: int): real {
    if e >= 0 then (v * Pow10(e)) as real else v as real / Pow10(-e) as real
  }

  lemma DotSplits(whole: string, fraction: string)
    requires AllDigits(whole)
    ensures var s := whole + "." + fraction;
      IndexOfChar(s, '.') == |whole| && s[..|whole|] == whole && s[|whole| + 1..] == fraction
  {
    var s := whole + "." + fraction;
    assert s[..|whole|] == whole;
    IndexOfCharAt(s, '.', |whole|);
  }

  lemma SignedNumeral(negative: bool, body: string)
    requires body != "" && IsDigit(body[0])
    ensures NumeralValue(Sign(negative) + body)
      == match Magnitude(body) case None => None case Some(x) => Some(Signed(negative, x))
  {
    hide Magnitude, Signed;
    var s := Sign(negative) + body;
    if negative {
      assert s[1..] == body;
    } else {
      assert s == body;
    }
  }

  lemma MagnitudeWithPoint(whole: string, fraction: string)
    requires AllDigits(whole) && AllDigits(fraction) && whole != "" && fraction != ""
    ensures Magnitude(whole + "." + fraction) == Some(Mixed(Value(whole), Value(fraction), |fraction|))
  {
    hide Mixed, Value;
    DotSplits(whole, fraction);
  }

  lemma MagnitudeWithoutPoint(whole: string)
    requires AllDigits(whole) && whole != ""
    ensures Magnitude(whole) == Some(Value(whole) as real)
  {
    hide Mixed, Value;
    assert IndexOfChar(whole, '.') == |whole|;
    assert whole[..|whole|] == whole;
    NothingAfterPoint(Value(whole));
  }

  lemma NothingAfterPoint(v: nat)
    ensures Value("") == 0 && Mixed(v, 0, 0) == v as real
  {
    assert Pow10(0) == 1;
  }

  lemma MixedIsQuotient(whole: nat, fraction: nat, places: nat)
    ensures Mixed(whole, fraction, places) == (whole * Pow10(places) + fraction) as real / Pow10(places) as real
  {
    hide Pow10;
    var w, f, p := whole as real, fraction as real, Pow10(places) as real;
    assert (whole * Pow10(places)) as real == w * p;
    assert (w * p) / p == w;
    assert (w * p + f) / p == (w * p) / p + f / p;
  }

  lemma PointBefore(digits: string, e: int)
    requires digits != "" && AllDigits(digits) && |digits| + e <= 0
    ensures Magnitude("0." + Zeros(-(|digits| + e)) + digits) == Some(Scaled(Value(digits), e))
  {
    hide Mixed, Magnitude, Zeros;
    var zeros := Zeros(-(|digits| + e));
    assert Value(zeros + digits) == Value(digits) by {
      ZerosValue(|zeros|);
      ValueOfJoin(zeros, digits);
    }
    assert "0." + zeros + digits == "0" + "." + (zeros + digits);
    assert Value("0") == 0;
    MagnitudeWithPoint("0", zeros + digits);
    MixedIsQuotient(0, Value(digits), -e);
  }

  lemma PointAfter(digits: string, e: nat)
    requires digits != "" && AllDigits(digits)
    ensures Magnitude(digits + Zeros(e)) == Some(Scaled(Value(digits), e))
  {
    hide Magnitude, Zeros, Value, Pow10;
    ZerosValue(e);
    ValueOfJoin(digits, Zeros(e));
    MagnitudeWithoutPoint(digits + Zeros(e));
  }

  lemma PointWithin(digits: string, e: int)
    requires AllDigits(digits) && 0 < |digits| + e < |digits|
    ensures Magnitude(digits[..|digits| + e] + "." + digits[|digits| + e..]) == Some(Scaled(Value(digits), e))
  {
    hide Mixed, Magnitude, Value, Pow10;
    var whole, fraction := digits[..|digits| + e], digits[|digits| + e..];
    assert digits == whole + fraction;
    ValueOfJoin(whole, fraction);
    MagnitudeWithPoint(whole, fraction);
    MixedIsQuotient(Value(whole), Value(fraction), -e);
  }

  lemma SignedIsSigned(negative: bool, x: real)
    ensures Signed(negative, x) == if negative then -x else x
  {}

  lemma NumeralIsSigned(negative: bool, digits: string, e: int)
    requires digits != "" && AllDigits(digits)
    ensures NumeralValue(Numeral(negative, digits, e as real)) == Some(Signed(negative, Scaled(Value(digits), e)))
  {
    hide Magnitude, NumeralValue, Value, Scaled, Signed, Sign, Zeros;
    var point := |digits| + e;
    assert |digits| as real + e as real == point as real;
    if point <= 0 {
      assert (-(point as real)).Floor == -point;
      PointBefore(digits, e);
      SignedNumeral(negative, "0." + Zeros(-point) + digits);
    } else if point >= |digits| {
      assert (point as real - |digits| as real).Floor == e;
      PointAfter(digits, e);
      SignedNumeral(negative, digits + Zeros(e));
    } else {
      assert (point as real).Floor == point;
      PointWithin(digits, e);
      SignedNumeral(negative, digits[..point] + "." + digits[point..]);
    }
  }

  /** In all three cases the numeral denotes sign * digits * 10^e. */
  lemma NumeralHasValue(negative: bool, digits: string, e: int)
    requires digits != "" && AllDigits(digits)
    ensures var size := Scaled(Value(digits), e);
      NumeralValue(Numeral(negative, digits, e as real)) == Some(if negative then -size else size)
  {
    hide NumeralValue, Numeral, Scaled, Value, Signed;
    NumeralIsSigned(negative, digits, e);
    SignedIsSigned(negative, Scaled(Value(digits), e));
  }

  // ------------------------------------------------------------------------------ digit lists

  /** digits.join(''): every element prints in decimal, without padding. */
  function Concatenated(d: seq<nat>): (s: string)
    ensures AllDigits(s) && (d != [] ==> s != "")
  {
    if d == [] then "" else Print(d[0]) + Concatenated(d[1..])
  }

  /** For any non-empty digit list and any integer exponent the numeral denotes exactly
      sign * (concatenated digits) * 10^e. */
  lemma RebuiltDecimalIsExact(negative: bool, d: seq<nat>, e: int)
    requires d != []
    ensures NumeralValue(Numeral(negative, Concatenated(d), e as real))
      == Some(if negative then -Scaled(Value(Concatenated(d)), e) else Scaled(Value(Concatenated(d)), e))
    ensures Value(Concatenated(d)) == d[0] * Pow10(|Concatenated(d[1..])|) + Value(Concatenated(d[1..]))
  {
    hide NumeralValue, Numeral, Scaled, Signed, Print, Value, Pow10;
    NumeralHasValue(negative, Concatenated(d), e);
    PrintedValue(d[0]);
    ValueOfJoin(Print(d[0]), Concatenated(d[1..]));
  }
}
