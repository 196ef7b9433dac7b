/**
 * JavaScript numbers as the CSS animation builder uses them: the conversion
 * `Number(string)` (ECMAScript StringToNumber), the falsy test behind `x || d`,
 * the comparison `x > 0`, and the rendering `${x}` (ECMAScript Number::toString).
 *
 * A number is NaN, an infinity, or an exact decimal mantissa * 10^-exponent.
 * Negative zero is identified with zero: everywhere this program looks at a
 * number (`||`, `> 0`, `${}`) -0 behaves exactly as 0 does.
 */
module JsNumber {
  import opened Wrappers
  import opened JsString

  datatype Num = NaN | Infinity(negative: bool) | Finite(mantissa: int, exponent: nat)
  {
    /** A finite value is written without a redundant trailing zero in its fraction. */
    predicate Canonical() {
      Finite? ==> exponent == 0 || mantissa % 10 != 0
    }
  }

  /** The numbers a JavaScript program can hold: one representation per value. */
  type Number = n: Num | n.Canonical() witness NaN

  const Zero: Number := Finite(0, 0)
  const One: Number := Finite(1, 0)

  predicate IsZero(n: Number) {
    n.Finite? && n.mantissa == 0
  }

  /** ToBoolean on a number: NaN and zero are falsy. */
  predicate Truthy(n: Number) {
    !n.NaN? && !IsZero(n)
  }

  /** `n || fallback` on numbers. */
  function Or(n: Number, fallback: Number): Number {
    if Truthy(n) then n else fallback
  }

  /** `n < 0`; any comparison with NaN is false. */
  predicate LessThanZero(n: Number) {
    match n
    case NaN => false
    case Infinity(negative) => negative
    case Finite(m, _) => m < 0
  }

  /** `n > 0`; any comparison with NaN is false. */
  predicate GreaterThanZero(n: Number) {
    match n
    case NaN => false
    case Infinity(negative) => !negative
    case Finite(m, _) => m > 0
  }

  function Negate(n: Number): Number {
    match n
    case NaN => NaN
    case Infinity(negative) => Infinity(!negative)
    case Finite(m, e) =>
      NegateModTen(m);
      Finite(-m, e)
  }

  /** A multiple of ten negated is a multiple of ten, and only then. */
  lemma NegateModTen(m: int)
    ensures m % 10 == 0 <==> (-m) % 10 == 0
  {
    if m % 10 == 0 {
      LastDigitMod(-(m / 10), 0);
      assert -m == -(m / 10) * 10 + 0;
    }
    if (-m) % 10 == 0 {
      LastDigitMod(-((-m) / 10), 0);
      assert m == -((-m) / 10) * 10 + 0;
    }
  }

  // ---------------------------------------------------------------------------
  // Digit strings

  function Pow(b: nat, k: nat): (r: nat)
    ensures b > 0 ==> r > 0
  {
    if k == 0 then 1 else b * Pow(b, k - 1)
  }

  /** The value of a character read as a digit ('0'-'9', then 'a'-'z' or 'A'-'Z' for 10-35); 36 for any other character. */
  function DigitOf(c: char): nat {
    if '0' <= c <= '9' then c as int - '0' as int
    else if 'a' <= c <= 'z' then c as int - 'a' as int + 10
    else if 'A' <= c <= 'Z' then c as int - 'A' as int + 10
    else 36
  }

  predicate IsDecimalDigit(c: char) {
    '0' <= c <= '9'
  }

  predicate AllDigitsIn(s: string, base: nat) {
    forall i :: 0 <= i < |s| ==> DigitOf(s[i]) < base
  }

  /** The value of a numeral in the given base, most significant digit first. */
  function ValueIn(s: string, base: nat): nat
    requires AllDigitsIn(s, base)
    decreases |s|
  {
    if s == [] then 0 else ValueIn(s[..|s| - 1], base) * base + DigitOf(s[|s| - 1])
  }

  function DigitChar(d: nat): (c: char)
    requires d < 10
    ensures IsDecimalDigit(c) && DigitOf(c) == d
  {
    ('0' as int + d) as char
  }

  function Zeros(k: nat): (r: string)
    ensures |r| == k && forall i :: 0 <= i < k ==> r[i] == '0'
  {
    seq(k, _ => '0')
  }

  /** The shortest decimal numeral of `a`. */
  function Digits(a: nat): (r: string)
    ensures |r| >= 1 && AllDigitsIn(r, 10) && ValueIn(r, 10) == a
    ensures forall i :: 0 <= i < |r| ==> IsDecimalDigit(r[i])
    ensures a > 0 ==> r[0] != '0'
    ensures a % 10 != 0 ==> r[|r| - 1] != '0'
    decreases a
  {
    if a < 10 then [DigitChar(a)]
    else
      var r := Digits(a / 10) + [DigitChar(a % 10)];
      assert r[..|r| - 1] == Digits(a / 10);
      r
  }

  lemma {:induction false} ValueAppend(x: string, y: string, base: nat)
    requires AllDigitsIn(x, base) && AllDigitsIn(y, base)
    ensures AllDigitsIn(x + y, base)
    ensures ValueIn(x + y, base) == ValueIn(x, base) * Pow(base, |y|) + ValueIn(y, base)
    decreases |y|
  {
    if y == [] {
      assert x + y == x;
    } else {
      var y' := y[..|y| - 1];
      var d := DigitOf(y[|y| - 1]);
      assert AllDigitsIn(y', base);
      assert (x + y)[..|x + y| - 1] == x + y';
      assert (x + y)[|x + y| - 1] == y[|y| - 1];
      ValueAppend(x, y', base);
      assert ValueIn(x + y, base) == ValueIn(x + y', base) * base + d;
      assert ValueIn(y, base) == ValueIn(y', base) * base + d;
      assert Pow(base, |y|) == base * Pow(base, |y'|);
      Regroup(ValueIn(x, base), Pow(base, |y'|), ValueIn(y', base), base, d);
    }
  }

  /** Appending a digit d in base b to a numeral of value a * p + v. */
  lemma Regroup(a: int, p: int, v: int, b: int, d: int)
    ensures (a * p + v) * b + d == a * (b * p) + (v * b + d)
  {
    assert (a * p + v) * b == (a * p) * b + v * b;
    assert (a * p) * b == a * (b * p);
  }

  lemma {:induction false} ValueOfZeros(k: nat)
    ensures AllDigitsIn(Zeros(k), 10) && ValueIn(Zeros(k), 10) == 0
  {
    if k > 0 {
      assert Zeros(k)[..k - 1] == Zeros(k - 1);
      ValueOfZeros(k - 1);
    }
  }

  /** Leading zeros do not change the value of a decimal numeral. */
  lemma ValueLeadingZeros(k: nat, s: string)
    requires AllDigitsIn(s, 10)
    ensures AllDigitsIn(Zeros(k) + s, 10) && ValueIn(Zeros(k) + s, 10) == ValueIn(s, 10)
  {
    ValueOfZeros(k);
    ValueAppend(Zeros(k), s, 10);
  }

  /** Trailing zeros multiply the value of a decimal numeral by a power of ten. */
  lemma ValueTrailingZeros(s: string, k: nat)
    requires AllDigitsIn(s, 10)
    ensures AllDigitsIn(s + Zeros(k), 10) && ValueIn(s + Zeros(k), 10) == ValueIn(s, 10) * Pow(10, k)
  {
    ValueOfZeros(k);
    ValueAppend(s, Zeros(k), 10);
  }

  /** The last digit of a numeral is its value modulo ten. */
  lemma ValueLastDigit(s: string)
    requires s != [] && AllDigitsIn(s, 10)
    ensures ValueIn(s, 10) % 10 == DigitOf(s[|s| - 1])
  {
    var v, d := ValueIn(s[..|s| - 1], 10), DigitOf(s[|s| - 1]);
    assert ValueIn(s, 10) == v * 10 + d;
    LastDigitMod(v, d);
  }

  lemma LastDigitMod(v: int, d: int)
    requires 0 <= d < 10
    ensures (v * 10 + d) % 10 == d
  {
  }

  /** Drops the zeros at the end of a numeral. */
  function StripTrailingZeros(s: string): (r: string)
    ensures |r| <= |s| && s == r + Zeros(|s| - |r|)
    ensures r != [] ==> r[|r| - 1] != '0'
  {
    if s != [] && s[|s| - 1] == '0' then
      var r := StripTrailingZeros(s[..|s| - 1]);
      assert s == s[..|s| - 1] + ['0'];
      assert Zeros(|s| - |r|) == Zeros(|s| - 1 - |r|) + ['0'];
      r
    else
      assert s == s + Zeros(0);
      s
  }

  // ---------------------------------------------------------------------------
  // Number::toString

  /**
   * The rendering of a nonzero value digits * 10^(point - |digits|) whose
   * digits have no leading and no trailing zero: plain notation while the
   * decimal point lies within 21 places left of the digits' end and 6 places
   * right of their start, exponent notation otherwise.
   */
  function Format(digits: string, point: int): string
    requires |digits| >= 1
  {
    var k := |digits|;
    if k <= point <= 21 then digits + Zeros(point - k)
    else if 0 < point <= 21 then digits[..point] + "." + digits[point..]
    else if -6 < point <= 0 then "0." + Zeros(-point) + digits
    else digits[..1] + (if k == 1 then "" else "." + digits[1..]) + ExponentText(point - 1)
  }

  /** The exponent of exponent notation: `e`, the sign, and the decimal digits of its magnitude. */
  function ExponentText(x: int): string {
    "e" + (if x >= 0 then "+" else "-") + Digits(if x >= 0 then x else -x)
  }

  /** The shortest digit string and decimal-point position of a nonzero canonical value a * 10^-e. */
  function Significand(a: nat, e: nat): string
    requires a > 0
  {
    if e == 0 then StripTrailingZeros(Digits(a)) else Digits(a)
  }

  function PointOf(a: nat, e: nat): int
    requires a > 0
  {
    |Digits(a)| - e
  }

  /** The rendering of a nonzero magnitude a * 10^-e, without sign. */
  function MagnitudeText(a: nat, e: nat): string
    requires a > 0
  {
    Format(Significand(a, e), PointOf(a, e))
  }

  /** `${n}` for a number n: never empty, and signed exactly when n is below zero. */
  function ToString(n: Number): (text: string)
    ensures text != [] && (text[0] == '-' <==> LessThanZero(n))
  {
    match n
    case NaN => "NaN"
    case Infinity(negative) => if negative then "-Infinity" else "Infinity"
    case Finite(m, e) =>
      if m == 0 then "0"
      else if m < 0 then
        CanonicalMagnitude(m, e);
        "-" + MagnitudeText(-m, e)
      else
        CanonicalMagnitude(m, e);
        MagnitudeStartsWithDigit(m, e);
        MagnitudeText(m, e)
  }

  /** The rendering of a magnitude starts with a digit. */
  lemma MagnitudeStartsWithDigit(a: nat, e: nat)
    requires a > 0 && (e == 0 || a % 10 != 0)
    ensures MagnitudeText(a, e) != [] && IsDecimalDigit(MagnitudeText(a, e)[0])
  {
    SignificandFacts(a, e);
    FormatIsNumeral(Significand(a, e), PointOf(a, e));
  }

  // ---------------------------------------------------------------------------
  // StringToNumber

  /** The number of decimal digits at the start of s. */
  function DigitRun(s: string): (k: nat)
    ensures k <= |s|
    ensures forall i :: 0 <= i < k ==> IsDecimalDigit(s[i])
    ensures k < |s| ==> !IsDecimalDigit(s[k])
  {
    if s != [] && IsDecimalDigit(s[0]) then 1 + DigitRun(s[1..]) else 0
  }

  /** A nonempty run of decimal digits. */
  function DecimalDigits(s: string): Option<int> {
    if s != [] && AllDigitsIn(s, 10) then Some(ValueIn(s, 10)) else None
  }

  /** An optional ExponentPart: empty, or `e`/`E`, an optional sign and decimal digits. */
  function Exponent(s: string): Option<int> {
    if s == [] then Some(0)
    else if s[0] != 'e' && s[0] != 'E' then None
    else
      var t := s[1..];
      if t != [] && t[0] == '-' then
        match DecimalDigits(t[1..])
        case None => None
        case Some(v) => Some(-v)
      else
        match DecimalDigits(if t != [] && t[0] == '+' then t[1..] else t)
        case None => None
        case Some(v) => Some(v)
  }

  /** Strips the zeros a fraction ends in: the canonical form of d * 10^-e. */
  function Normalize(d: int, e: nat): (r: Number)
    ensures r.Finite?
    decreases e
  {
    if e > 0 && d % 10 == 0 then Normalize(d / 10, e - 1) else Finite(d, e)
  }

  /** The value d * 10^(x - f) of digits d with f fraction digits and exponent x. */
  function Scale(d: nat, f: nat, x: int): Number {
    if x >= f then Finite(d * Pow(10, x - f), 0) else Normalize(d, f - x)
  }

  /** StrUnsignedDecimalLiteral: `Infinity`, or digits with an optional point, fraction and exponent. */
  function UnsignedDecimal(u: string): Number {
    if u == "Infinity" then Infinity(false)
    else
      var i := DigitRun(u);
      AfterWhole(u[..i], u[i..])
  }

  /** Reads what follows the whole-number digits: an optional point and fraction, then the exponent. */
  function AfterWhole(whole: string, rest: string): Number
    requires forall i :: 0 <= i < |whole| ==> IsDecimalDigit(whole[i])
  {
    if rest != [] && rest[0] == '.' then
      var afterPoint := rest[1..];
      var f := DigitRun(afterPoint);
      Decimal(whole, afterPoint[..f], afterPoint[f..])
    else Decimal(whole, [], rest)
  }

  /** The value of `<whole>.<fraction><exponent>`, or NaN when there is no digit or the exponent is malformed. */
  function Decimal(whole: string, fraction: string, exponent: string): Number
    requires forall i :: 0 <= i < |whole| ==> IsDecimalDigit(whole[i])
    requires forall i :: 0 <= i < |fraction| ==> IsDecimalDigit(fraction[i])
  {
    if whole == [] && fraction == [] then NaN
    else
      match Exponent(exponent)
      case None => NaN
      case Some(x) =>
        assert AllDigitsIn(whole + fraction, 10) by {
          assert forall i :: 0 <= i < |whole + fraction| ==> IsDecimalDigit((whole + fraction)[i]);
        }
        Scale(ValueIn(whole + fraction, 10), |fraction|, x)
  }

  /** NonDecimalIntegerLiteral after its `0x`, `0o` or `0b` prefix. */
  function NonDecimal(digits: string, base: nat): Number {
    if digits != [] && AllDigitsIn(digits, base) then Finite(ValueIn(digits, base), 0) else NaN
  }

  /** `Number(str)`: ECMAScript StringToNumber. */
  function ToNumber(str: string): (n: Number)
    ensures Trim(str) == [] ==> n == Zero
  {
    NumericLiteral(Trim(str))
  }

  /** The base announced by a `0x`, `0o` or `0b` prefix; 10 when there is none. */
  function Radix(t: string): nat {
    if |t| < 2 || t[0] != '0' then 10
    else if t[1] == 'x' || t[1] == 'X' then 16
    else if t[1] == 'o' || t[1] == 'O' then 8
    else if t[1] == 'b' || t[1] == 'B' then 2
    else 10
  }

  /** StringNumericLiteral without its surrounding white space; the empty text is 0. */
  function NumericLiteral(t: string): Number {
    if t == [] then Zero
    else if Radix(t) != 10 then NonDecimal(t[2..], Radix(t))
    else if t[0] == '-' then Negate(UnsignedDecimal(t[1..]))
    else if t[0] == '+' then UnsignedDecimal(t[1..])
    else UnsignedDecimal(t)
  }

  // ---------------------------------------------------------------------------
  // Rendering a number and converting the text back gives the number again

  /** The characters `${n}` can produce. */
  predicate IsNumeralChar(c: char) {
    || IsDecimalDigit(c) || c == '.' || c == '-' || c == '+' || c == 'e'
    || c == 'I' || c == 'n' || c == 'f' || c == 'i' || c == 't' || c == 'y' || c == 'N' || c == 'a'
  }

  predicate IsNumeral(s: string) {
    forall i :: 0 <= i < |s| ==> IsNumeralChar(s[i])
  }

  /** The value that a digit string and a decimal-point position stand for. */
  function Compose(digits: string, point: int): Num
    requires AllDigitsIn(digits, 10)
  {
    var k := |digits|;
    if point >= k then Finite(ValueIn(digits, 10) * Pow(10, point - k), 0) else Finite(ValueIn(digits, 10), k - point)
  }

  /** A significand: a digit string with no leading and no trailing zero. */
  predicate IsSignificand(digits: string) {
    && |digits| >= 1
    && (forall i :: 0 <= i < |digits| ==> IsDecimalDigit(digits[i]))
    && digits[0] != '0'
    && digits[|digits| - 1] != '0'
  }

  lemma DecimalDigitsAreDigits(s: string)
    requires forall i :: 0 <= i < |s| ==> IsDecimalDigit(s[i])
    ensures AllDigitsIn(s, 10)
  {
  }

  /** The leading digit run of a numeral followed by a non-digit is the numeral. */
  lemma {:induction false} DigitRunOf(w: string, y: string)
    requires forall i :: 0 <= i < |w| ==> IsDecimalDigit(w[i])
    requires y == [] || !IsDecimalDigit(y[0])
    ensures DigitRun(w + y) == |w|
  {
    var u := w + y;
    var k := DigitRun(u);
    assert forall i :: 0 <= i < |w| ==> u[i] == w[i];
    if y != [] {
      assert u[|w|] == y[0];
    }
  }

  /** How `Number` reads `<whole>[.<fraction>]<exponent>`. */
  lemma UnsignedDecimalParts(whole: string, point: bool, fraction: string, exponent: string)
    requires forall i :: 0 <= i < |whole| ==> IsDecimalDigit(whole[i])
    requires forall i :: 0 <= i < |fraction| ==> IsDecimalDigit(fraction[i])
    requires whole != [] || point
    requires !point ==> fraction == []
    requires exponent == [] || exponent[0] == 'e' || exponent[0] == 'E'
    ensures UnsignedDecimal(whole + (if point then "." + fraction else "") + exponent)
            == Decimal(whole, fraction, exponent)
  {
    var tail := (if point then "." + fraction else "") + exponent;
    assert whole + (if point then "." + fraction else "") + exponent == whole + tail;
    assert tail != [] ==> tail[0] == (if point then '.' else exponent[0]);
    UnsignedDecimalSplit(whole, tail);
    if point {
      FractionParts(whole, fraction, exponent);
    } else {
      assert tail == exponent;
    }
  }

  /** `Number` reads the leading digits of an unsigned decimal as its whole part. */
  lemma UnsignedDecimalSplit(whole: string, tail: string)
    requires forall i :: 0 <= i < |whole| ==> IsDecimalDigit(whole[i])
    requires whole != [] || (tail != [] && tail[0] == '.')
    requires tail == [] || !IsDecimalDigit(tail[0])
    ensures UnsignedDecimal(whole + tail) == AfterWhole(whole, tail)
  {
    var u := whole + tail;
    assert u[0] != 'I' by {
      if whole != [] { assert u[0] == whole[0]; } else { assert u[0] == '.'; }
    }
    assert u != "Infinity";
    DigitRunOf(whole, tail);
    assert u[..|whole|] == whole;
    assert u[|whole|..] == tail;
  }

  /** `Number` reads the digits after the point as the fraction and the rest as the exponent. */
  lemma FractionParts(whole: string, fraction: string, exponent: string)
    requires forall i :: 0 <= i < |whole| ==> IsDecimalDigit(whole[i])
    requires forall i :: 0 <= i < |fraction| ==> IsDecimalDigit(fraction[i])
    requires exponent == [] || exponent[0] == 'e' || exponent[0] == 'E'
    ensures AfterWhole(whole, "." + fraction + exponent) == Decimal(whole, fraction, exponent)
  {
    var afterPoint := fraction + exponent;
    assert ("." + fraction + exponent)[1..] == afterPoint;
    DigitRunOf(fraction, exponent);
    assert afterPoint[..|fraction|] == fraction;
    assert afterPoint[|fraction|..] == exponent;
  }

  /** The exponent part `Number::toString` writes is read back as the same exponent. */
  lemma ExponentOf(x: int)
    ensures Exponent(ExponentText(x)) == Some(x)
  {
    var d := Digits(if x >= 0 then x else -x);
    var s := "e" + (if x >= 0 then "+" else "-") + d;
    assert s[1..][1..] == d;
  }

  /** A value with no fraction digit to strip is already canonical. */
  lemma NormalizeCanonical(d: int, e: nat)
    requires e == 0 || d % 10 != 0
    ensures Normalize(d, e) == Finite(d, e)
  {
  }

  /** `Number` reads what Format writes as the value the significand and point stand for. */
  lemma ParseFormat(digits: string, point: int)
    requires IsSignificand(digits)
    ensures AllDigitsIn(digits, 10)
    ensures UnsignedDecimal(Format(digits, point)) == Compose(digits, point)
  {
    var k := |digits|;
    if k <= point <= 21 {
      ParsePlainInteger(digits, point);
    } else if 0 < point <= 21 {
      ParsePlainFraction(digits, point);
    } else if -6 < point <= 0 {
      ParseSmallFraction(digits, point);
    } else {
      ParseExponential(digits, point);
    }
  }

  lemma SignificandValue(digits: string)
    requires IsSignificand(digits)
    ensures AllDigitsIn(digits, 10) && ValueIn(digits, 10) % 10 != 0
  {
    ValueLastDigit(digits);
  }

  lemma ParsePlainInteger(digits: string, point: int)
    requires IsSignificand(digits) && |digits| <= point <= 21
    ensures AllDigitsIn(digits, 10)
    ensures UnsignedDecimal(Format(digits, point)) == Compose(digits, point)
  {
    var w := digits + Zeros(point - |digits|);
    SignificandValue(digits);
    ValueTrailingZeros(digits, point - |digits|);
    UnsignedDecimalParts(w, false, "", "");
    assert w + "" + "" == w;
    assert w + "" == w;
  }

  lemma ParsePlainFraction(digits: string, point: int)
    requires IsSignificand(digits) && 0 < point <= 21 && point < |digits|
    ensures AllDigitsIn(digits, 10)
    ensures UnsignedDecimal(Format(digits, point)) == Compose(digits, point)
  {
    var w, f := digits[..point], digits[point..];
    assert w + f == digits;
    SignificandValue(digits);
    UnsignedDecimalParts(w, true, f, "");
    assert Format(digits, point) == w + "." + f;
    assert w + ("." + f) + "" == w + "." + f;
    assert Decimal(w, f, "") == Normalize(ValueIn(digits, 10), |f|);
  }

  lemma ParseSmallFraction(digits: string, point: int)
    requires IsSignificand(digits) && -6 < point <= 0
    ensures AllDigitsIn(digits, 10)
    ensures UnsignedDecimal(Format(digits, point)) == Compose(digits, point)
  {
    var f := Zeros(-point) + digits;
    SignificandValue(digits);
    UnsignedDecimalParts("0", true, f, "");
    SmallFractionText(digits, point);
    SmallFractionValue(digits, point);
  }

  lemma SmallFractionText(digits: string, point: int)
    requires |digits| >= 1 && -6 < point <= 0
    ensures Format(digits, point) == "0" + ("." + (Zeros(-point) + digits)) + ""
  {
    assert "0" + ("." + (Zeros(-point) + digits)) + "" == "0." + Zeros(-point) + digits;
  }

  lemma SmallFractionValue(digits: string, point: int)
    requires IsSignificand(digits) && -6 < point <= 0
    ensures AllDigitsIn(digits, 10)
    ensures Decimal("0", Zeros(-point) + digits, "") == Compose(digits, point)
  {
    var f := Zeros(-point) + digits;
    SignificandValue(digits);
    assert "0" + f == Zeros(1 - point) + digits;
    ValueLeadingZeros(1 - point, digits);
    var v := ValueIn(digits, 10);
    assert Exponent("") == Some(0);
    assert Decimal("0", f, "") == Scale(v, |f|, 0);
    NormalizeCanonical(v, |f|);
  }

  lemma ParseExponential(digits: string, point: int)
    requires IsSignificand(digits)
    requires !(|digits| <= point <= 21) && !(0 < point <= 21) && !(-6 < point <= 0)
    ensures AllDigitsIn(digits, 10)
    ensures UnsignedDecimal(Format(digits, point)) == Compose(digits, point)
  {
    var k := |digits|;
    var w, f, e := digits[..1], if k == 1 then "" else digits[1..], ExponentText(point - 1);
    SignificandValue(digits);
    assert Format(digits, point) == w + (if k > 1 then "." + f else "") + e;
    assert e[0] == 'e';
    UnsignedDecimalParts(w, k > 1, f, e);
    ExponentialValue(digits, point);
  }

  /** The value of exponent notation: the significand's digits scaled by the exponent. */
  lemma ExponentialValue(digits: string, point: int)
    requires IsSignificand(digits)
    requires !(|digits| <= point <= 21) && !(0 < point <= 21) && !(-6 < point <= 0)
    ensures AllDigitsIn(digits, 10)
    ensures Decimal(digits[..1], if |digits| == 1 then "" else digits[1..], ExponentText(point - 1))
            == Compose(digits, point)
  {
    var k := |digits|;
    var x := point - 1;
    var w, f, e := digits[..1], if k == 1 then "" else digits[1..], ExponentText(x);
    ExponentOf(x);
    assert w + f == digits;
    SignificandValue(digits);
    var v := ValueIn(digits, 10);
    assert Decimal(w, f, e) == Scale(v, k - 1, x);
    ScaleCompose(digits, point);
  }

  /** Scaling the significand's value by the exponent of exponent notation gives the value it stands for. */
  lemma ScaleCompose(digits: string, point: int)
    requires IsSignificand(digits)
    ensures AllDigitsIn(digits, 10)
    ensures Scale(ValueIn(digits, 10), |digits| - 1, point - 1) == Compose(digits, point)
  {
    var k, x := |digits|, point - 1;
    SignificandValue(digits);
    var v := ValueIn(digits, 10);
    if x >= k - 1 {
      ScaleWhole(v, k - 1, x);
      assert x - (k - 1) == point - k;
      ComposeWhole(digits, point);
    } else {
      ScaleFraction(v, k - 1, x);
      assert k - 1 - x == k - point;
      ComposeFraction(digits, point);
    }
  }

  lemma ComposeWhole(digits: string, point: int)
    requires AllDigitsIn(digits, 10) && point >= |digits|
    ensures Compose(digits, point) == Finite(ValueIn(digits, 10) * Pow(10, point - |digits|), 0)
  {
  }

  lemma ComposeFraction(digits: string, point: int)
    requires AllDigitsIn(digits, 10) && point < |digits|
    ensures Compose(digits, point) == Finite(ValueIn(digits, 10), |digits| - point)
  {
  }

  lemma ScaleWhole(v: nat, f: nat, x: int)
    requires x >= f
    ensures Scale(v, f, x) == Finite(v * Pow(10, x - f), 0)
  {
  }

  lemma ScaleFraction(v: nat, f: nat, x: int)
    requires x < f && v % 10 != 0
    ensures Scale(v, f, x) == Finite(v, f - x)
  {
  }

  /** Facts about the significand and point of a nonzero canonical value. */
  lemma SignificandFacts(a: nat, e: nat)
    requires a > 0 && (e == 0 || a % 10 != 0)
    ensures IsSignificand(Significand(a, e))
    ensures AllDigitsIn(Significand(a, e), 10)
    ensures Compose(Significand(a, e), PointOf(a, e)) == Finite(a, e)
  {
    if e == 0 {
      IntegerSignificand(a);
    }
  }

  /** An integer's significand is its numeral without the trailing zeros, which the point puts back. */
  lemma IntegerSignificand(a: nat)
    requires a > 0
    ensures IsSignificand(Significand(a, 0))
    ensures AllDigitsIn(Significand(a, 0), 10)
    ensures Compose(Significand(a, 0), PointOf(a, 0)) == Finite(a, 0)
  {
    var d := Digits(a);
    var sd := Significand(a, 0);
    assert d == sd + Zeros(|d| - |sd|);
    assert sd[0] == d[0];
    assert forall i :: 0 <= i < |sd| ==> sd[i] == d[i];
    DecimalDigitsAreDigits(sd);
    ValueTrailingZeros(sd, |d| - |sd|);
  }

  /** Every character `${n}` writes is a numeral character, and it writes at least one. */
  lemma ToStringIsNumeral(n: Number)
    ensures ToString(n) != [] && IsNumeral(ToString(n))
  {
    match n
    case NaN => SpecialNumerals();
    case Infinity(_) => SpecialNumerals();
    case Finite(m, e) =>
      if m != 0 {
        var a := if m < 0 then -m else m;
        CanonicalMagnitude(m, e);
        MagnitudeIsNumeral(a, e);
        if m < 0 {
          NumeralConcat("-", MagnitudeText(a, e));
        }
      }
  }

  lemma SpecialNumerals()
    ensures IsNumeral("NaN") && IsNumeral("Infinity") && IsNumeral("-Infinity")
  {
  }

  lemma MagnitudeIsNumeral(a: nat, e: nat)
    requires a > 0 && (e == 0 || a % 10 != 0)
    ensures MagnitudeText(a, e) != [] && IsNumeral(MagnitudeText(a, e))
  {
    SignificandFacts(a, e);
    FormatIsNumeral(Significand(a, e), PointOf(a, e));
  }

  lemma CanonicalMagnitude(m: int, e: nat)
    requires Finite(m, e).Canonical() && m != 0
    ensures var a := if m < 0 then -m else m; a > 0 && (e == 0 || a % 10 != 0)
  {
  }

  lemma FormatIsNumeral(digits: string, point: int)
    requires IsSignificand(digits)
    ensures Format(digits, point) != [] && IsNumeral(Format(digits, point))
    ensures Format(digits, point)[0] == '0' ==> |Format(digits, point)| >= 2 && Format(digits, point)[1] == '.'
    ensures IsDecimalDigit(Format(digits, point)[0])
  {
    var k := |digits|;
    if k <= point <= 21 {
      assert Format(digits, point) == digits + Zeros(point - k);
      NumeralConcat(digits, Zeros(point - k));
    } else if 0 < point <= 21 {
      PlainFractionIsNumeral(digits, point);
    } else if -6 < point <= 0 {
      SmallFractionIsNumeral(digits, point);
    } else {
      ExponentialIsNumeral(digits, point);
    }
  }

  lemma PlainFractionIsNumeral(digits: string, point: int)
    requires IsSignificand(digits) && 0 < point <= 21 && point < |digits|
    ensures Format(digits, point) == digits[..point] + ("." + digits[point..])
    ensures IsNumeral(Format(digits, point))
  {
    NumeralConcat(digits[..point], "." + digits[point..]);
  }

  lemma SmallFractionIsNumeral(digits: string, point: int)
    requires IsSignificand(digits) && -6 < point <= 0
    ensures Format(digits, point) == "0." + (Zeros(-point) + digits)
    ensures IsNumeral(Format(digits, point))
  {
    NumeralConcat(Zeros(-point), digits);
    NumeralConcat("0.", Zeros(-point) + digits);
  }

  lemma ExponentialIsNumeral(digits: string, point: int)
    requires IsSignificand(digits)
    requires !(|digits| <= point <= 21) && !(0 < point <= 21) && !(-6 < point <= 0)
    ensures Format(digits, point)[0] == digits[0]
    ensures IsNumeral(Format(digits, point))
  {
    var k := |digits|;
    var p := if k == 1 then "" else "." + digits[1..];
    var e := ExponentText(point - 1);
    ExponentTextIsNumeral(point - 1);
    assert Format(digits, point) == digits[..1] + (p + e);
    NumeralConcat(p, e);
    NumeralConcat(digits[..1], p + e);
  }

  lemma ExponentTextIsNumeral(x: int)
    ensures IsNumeral(ExponentText(x))
  {
    NumeralConcat("e" + (if x >= 0 then "+" else "-"), Digits(if x >= 0 then x else -x));
  }

  lemma NumeralConcat(a: string, b: string)
    requires IsNumeral(a) && IsNumeral(b)
    ensures IsNumeral(a + b)
  {
  }

  /** `Number(`${n}`)` is n: rendering a number loses nothing. */
  lemma ToNumberToString(n: Number)
    ensures ToNumber(ToString(n)) == n
  {
    match n
    case NaN => ToNumberOfNaN();
    case Infinity(negative) => ToNumberOfInfinity(negative);
    case Finite(m, e) =>
      if m == 0 {
        ToNumberOfZero();
      } else {
        ToNumberToStringFinite(m, e);
      }
  }

  lemma ToNumberOfNaN()
    ensures ToNumber("NaN") == NaN
  {
    ToNumberOfNonNumeral("NaN");
  }

  lemma ToNumberOfInfinity(negative: bool)
    ensures ToNumber(if negative then "-Infinity" else "Infinity") == Infinity(negative)
  {
    var s := if negative then "-Infinity" else "Infinity";
    TrimUnchanged(s);
    assert Radix(s) == 10;
    if negative {
      assert s[1..] == "Infinity";
    }
  }

  lemma ToNumberOfZero()
    ensures ToNumber("0") == Zero
  {
    assert DigitRun("0") == 1;
    assert "0"[..1] == "0" && "0"[1..] == "";
    assert Exponent("") == Some(0);
    assert "0" + "" == "0";
    assert ValueIn("0", 10) == 0 by {
      assert "0"[..0] == "";
    }
    assert Scale(0, 0, 0) == Finite(0, 0);
    assert Decimal("0", "", "") == Finite(0, 0);
  }

  lemma ToNumberToStringFinite(m: int, e: nat)
    requires Finite(m, e).Canonical() && m != 0
    ensures ToNumber(ToString(Finite(m, e))) == Finite(m, e)
  {
    CanonicalMagnitude(m, e);
    if m < 0 {
      ToNumberToStringNegative(m, e);
    } else {
      ToNumberToStringPositive(m, e);
    }
  }

  lemma ToNumberToStringPositive(a: nat, e: nat)
    requires a > 0 && (e == 0 || a % 10 != 0)
    ensures ToNumber(ToString(Finite(a, e))) == Finite(a, e)
  {
    var f := MagnitudeText(a, e);
    MagnitudeTextValue(a, e);
    ToNumberOfPlain(f);
    assert ToString(Finite(a, e)) == f;
  }

  lemma ToNumberToStringNegative(m: int, e: nat)
    requires m < 0 && (e == 0 || (-m) % 10 != 0)
    ensures Finite(m, e).Canonical()
    ensures ToNumber(ToString(Finite(m, e))) == Finite(m, e)
  {
    var a := -m;
    NegateFinite(a, e);
    var f := MagnitudeText(a, e);
    MagnitudeTextValue(a, e);
    ToNumberOfNegative(f);
    assert ToString(Finite(m, e)) == "-" + f;
  }

  lemma NegateFinite(a: int, e: nat)
    requires Finite(a, e).Canonical()
    ensures Finite(-a, e).Canonical() && Negate(Finite(a, e)) == Finite(-a, e)
  {
  }

  /** Reading the rendering of a magnitude gives the magnitude; the text starts with a digit. */
  lemma MagnitudeTextValue(a: nat, e: nat)
    requires a > 0 && (e == 0 || a % 10 != 0)
    ensures var f := MagnitudeText(a, e);
      && f != [] && IsNumeral(f) && IsDecimalDigit(f[0])
      && (f[0] == '0' ==> |f| >= 2 && f[1] == '.')
      && UnsignedDecimal(f) == Finite(a, e)
  {
    SignificandFacts(a, e);
    FormatIsNumeral(Significand(a, e), PointOf(a, e));
    ParseFormat(Significand(a, e), PointOf(a, e));
  }

  lemma ToNumberOfPlain(f: string)
    requires f != [] && IsNumeral(f) && IsDecimalDigit(f[0])
    requires f[0] == '0' ==> |f| >= 2 && f[1] == '.'
    ensures ToNumber(f) == UnsignedDecimal(f)
  {
    assert IsNumeralChar(f[|f| - 1]);
    assert !IsWhiteSpace(f[0]) && !IsWhiteSpace(f[|f| - 1]);
    TrimUnchanged(f);
    assert Radix(f) == 10;
  }

  lemma ToNumberOfNegative(f: string)
    requires f != [] && IsNumeral(f) && IsDecimalDigit(f[0])
    ensures ToNumber("-" + f) == Negate(UnsignedDecimal(f))
  {
    assert IsNumeralChar(f[|f| - 1]);
    var s := "-" + f;
    assert s[0] == '-' && s[|s| - 1] == f[|f| - 1] && s[1..] == f;
    TrimUnchanged(s);
    assert Radix(s) == 10;
  }

  /** `Number` reads a text made only of white space, the empty text included, as 0. */
  lemma {:induction false} ToNumberOfBlank(s: string)
    requires forall i :: 0 <= i < |s| ==> IsWhiteSpace(s[i])
    ensures ToNumber(s) == Zero
  {
    TrimStartOfBlank(s);
  }

  lemma {:induction false} TrimStartOfBlank(s: string)
    requires forall i :: 0 <= i < |s| ==> IsWhiteSpace(s[i])
    ensures TrimStart(s) == []
    decreases |s|
  {
    if s != [] {
      TrimStartOfBlank(s[1..]);
    }
  }

  /** A text whose first character can begin neither white space nor a numeral reads as NaN. */
  lemma ToNumberOfNonNumeral(s: string)
    requires s != [] && !IsWhiteSpace(s[0])
    requires !IsDecimalDigit(s[0]) && s[0] != '.' && s[0] != '+' && s[0] != '-' && s[0] != 'I'
    ensures ToNumber(s) == NaN
  {
    var t := Trim(s);
    assert TrimStart(s) == s;
    assert t != [] && t[0] == s[0];
    assert Radix(t) == 10;
    assert DigitRun(t) == 0;
    assert UnsignedDecimal(t) == AfterWhole([], t);
  }
}
