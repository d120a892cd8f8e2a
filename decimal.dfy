/**
 * Exact decimal arithmetic standing in for the Python floats the converter
 * parses and formats: float(text) on plain decimal notation and the
 * fixed-point format specs ":.2f" and ":.9f".
 */
module Decimal {
  import opened Wrappers
  import opened Text

  /**
   * A finite decimal: (if neg then -1 else 1) * mant / 10^scale. The sign bit
   * is kept for zero, as Python keeps -0.0 (float("-0") and -(0.0) are both
   * negative zero, and "{:.2f}" prints them as "-0.00").
   */
  datatype Num = Num(neg: bool, mant: nat, scale: nat)

  function Negate(n: Num): Num {
    n.(neg := !n.neg)
  }

  /** abs() as the source writes it: `if q < 0: q = -q`, which leaves -0.0 alone. */
  function AbsLt(n: Num): (r: Num)
    ensures r.mant == n.mant && r.scale == n.scale
    ensures r.neg <==> n.neg && n.mant == 0
  {
    if n.neg && n.mant > 0 then n.(neg := false) else n
  }

  /** Product of two floats; the sign of the product is the exclusive or of the signs. */
  function Times(a: Num, b: Num): Num {
    Num(a.neg != b.neg, a.mant * b.mant, a.scale + b.scale)
  }

  /** Signed numerator over the common denominator 10^(a.scale + b.scale). */
  function Signed(n: Num): int {
    if n.neg then -(n.mant as int) else n.mant as int
  }

  /** Python's == on two floats: equal values, whatever the sign of zero. */
  predicate SameValue(a: Num, b: Num) {
    Signed(a) * Pow10(b.scale) == Signed(b) * Pow10(a.scale)
  }

  /** The index of the first c in s, or |s| when there is none. */
  function FindChar(s: string, c: char): (k: nat)
    ensures k <= |s|
    ensures k < |s| ==> s[k] == c
    ensures forall i :: 0 <= i < k ==> s[i] != c
  {
    if s == [] then 0 else if s[0] == c then 0 else 1 + FindChar(s[1..], c)
  }

  /** Unsigned decimal notation: digits with at most one '.', and at least one digit. */
  function ParseUnsigned(s: string): (r: Option<Num>)
    ensures r.Some? ==> !r.value.neg
  {
    var k := FindChar(s, '.');
    var whole := s[..k];
    var frac := if k < |s| then s[k + 1..] else [];
    if AllDigits(whole) && AllDigits(frac) && |whole| + |frac| > 0 then
      Some(Num(false, DigitsValue(whole + frac), |frac|))
    else None
  }

  /**
   * Python's float() on a string without surrounding white space, for plain
   * decimal notation with an optional sign.
   */
  function ParseFloat(s: string): (r: Option<Num>)
  {
    if |s| > 0 && (s[0] == '+' || s[0] == '-') then
      match ParseUnsigned(s[1..])
      case Some(n) => Some(n.(neg := s[0] == '-'))
      case None => None
    else ParseUnsigned(s)
  }

  /** Python's float(text): surrounding white space is ignored. */
  function PyFloat(text: string): Option<Num> {
    ParseFloat(Trim(text))
  }

  /** a / b rounded to the nearest integer, ties to the even one. */
  function RoundDiv(a: nat, b: nat): nat
    requires b > 0
  {
    var q := a / b;
    var m := a % b;
    if 2 * m > b then q + 1
    else if 2 * m < b then q
    else if q % 2 == 0 then q
    else q + 1
  }

  /** RoundDiv picks a nearest integer, and the even one on a tie. */
  lemma RoundDivNearest(a: nat, b: nat)
    requires b > 0
    ensures var r := RoundDiv(a, b);
      && -(b as int) <= 2 * (a as int - r * b) <= b
      && (2 * (a as int - r * b) == b ==> r % 2 == 0)
      && (2 * (a as int - r * b) == -(b as int) ==> r % 2 == 0)
  {
    var q := a / b;
    var m := a % b;
    assert a == q * b + m && 0 <= m < b;
    assert (q + 1) * b == q * b + b;
  }

  lemma PositiveProduct(x: nat, y: nat)
    requires x > 0 && y > 0
    ensures x * y > 0
  {
  }

  /** The digits of units with a '.' before the last `places` of them. */
  function FormatFixed(units: nat, places: nat): (r: string)
    requires places > 0
    ensures |r| >= places + 2
  {
    var digits := PadNat(units, places + 1);
    var cut := |digits| - places;
    digits[..cut] + "." + digits[cut..]
  }

  /**
   * Python's f"{x:.{places}f}" for x = (if neg then -1 else 1) * num / den:
   * the magnitude rounded to `places` fraction digits, a '-' whenever the
   * sign bit is set.
   */
  function FormatFloat(neg: bool, num: nat, den: nat, places: nat): (r: string)
    requires den > 0 && places > 0
  {
    FormatSigned(neg, RoundDiv(num * Pow10(places), den), places)
  }

  /** A '-' when the sign bit is set, then the fixed-point digits. */
  function FormatSigned(neg: bool, units: nat, places: nat): string
    requires places > 0
  {
    (if neg then "-" else "") + FormatFixed(units, places)
  }

  /** A rendered number starts with '-' exactly when its sign bit is set. */
  lemma FormatSignedSign(neg: bool, units: nat, places: nat)
    requires places > 0
    ensures StartsWith(FormatSigned(neg, units, places), "-") <==> neg
  {
    FormatFixedFirst(units, places);
    var f := FormatFixed(units, places);
    var x := FormatSigned(neg, units, places);
    if neg {
      assert x == "-" + f;
      assert x[..1] == "-";
    } else {
      assert x == f && x[0] == f[0];
    }
  }

  /** The magnitude of n rounded to `places` fraction digits, counted in units of 10^-places. */
  function Units(n: Num, places: nat): nat {
    RoundDiv(n.mant * Pow10(places), Pow10(n.scale))
  }

  /** Python's f"{x:.{places}f}" for the float x that n stands for. */
  function FormatNum(n: Num, places: nat): string
    requires places > 0
  {
    FormatSigned(n.neg, Units(n, places), places)
  }

  lemma FindCharAbsent(s: string, c: char)
    requires c !in s
    ensures FindChar(s, c) == |s|
  {
  }

  lemma {:induction false} FindCharAfter(a: string, b: string, c: char)
    requires c !in a
    ensures FindChar(a + [c] + b, c) == |a|
  {
    if a != [] {
      assert (a + [c] + b)[1..] == a[1..] + [c] + b;
      FindCharAfter(a[1..], b, c);
    }
  }

  /** Unsigned notation "whole.frac" reads as its digits over 10^|frac|. */
  lemma ParseWholeDotFrac(whole: string, frac: string)
    requires AllDigits(whole) && AllDigits(frac) && |whole| > 0
    ensures AllDigits(whole + frac)
    ensures ParseFloat(whole + "." + frac) == Some(Num(false, DigitsValue(whole + frac), |frac|))
  {
    var s := whole + "." + frac;
    assert '.' !in whole by {
      forall i | 0 <= i < |whole| ensures whole[i] != '.' {
        assert IsDigit(whole[i]);
      }
    }
    FindCharAfter(whole, frac, '.');
    assert s[..|whole|] == whole;
    assert s[|whole| + 1..] == frac;
    assert IsDigit(s[0]);
  }

  /** Reading back a fixed-point rendering gives its digits at that scale. */
  lemma ParseFormatFixed(units: nat, places: nat)
    requires places > 0
    ensures ParseFloat(FormatFixed(units, places)) == Some(Num(false, units, places))
  {
    var digits := PadNat(units, places + 1);
    var cut := |digits| - places;
    var whole, frac := digits[..cut], digits[cut..];
    AllDigitsSplit(digits, cut);
    assert whole + frac == digits;
    ParseWholeDotFrac(whole, frac);
  }

  /**
   * float() reads a formatted number back as its rounded value with the same
   * sign bit, and formatting that value again gives the same text.
   */
  lemma FormatNumReadBack(n: Num, places: nat)
    requires places > 0
    ensures PyFloat(FormatNum(n, places)) == Some(Num(n.neg, Units(n, places), places))
    ensures FormatNum(Num(n.neg, Units(n, places), places), places) == FormatNum(n, places)
  {
    var u := Units(n, places);
    ParseFormatSigned(n.neg, u, places);
    RoundExact(u, places);
  }

  /** float() of "-" before a number text that starts and ends with a digit reads the negated number. */
  lemma ParseNegated(f: string)
    requires f != [] && IsDigit(f[0]) && IsDigit(f[|f| - 1]) && ParseFloat(f).Some?
    ensures PyFloat("-" + f) == Some(ParseFloat(f).value.(neg := true))
  {
    var x := "-" + f;
    assert x[1..] == f && x[|x| - 1] == f[|f| - 1];
    DigitNotSpace(f[|f| - 1]);
    TrimOfTrimmed(x);
  }

  /** float() reads a signed fixed-point rendering back as its sign, units and scale. */
  lemma ParseFormatSigned(neg: bool, units: nat, places: nat)
    requires places > 0
    ensures PyFloat(FormatSigned(neg, units, places)) == Some(Num(neg, units, places))
  {
    var f := FormatFixed(units, places);
    FormatFixedFirst(units, places);
    FormatFixedLast(units, places);
    ParseFormatFixed(units, places);
    var x := FormatSigned(neg, units, places);
    if neg {
      assert x == "-" + f;
      ParseNegated(f);
    } else {
      assert x == f;
      TrimOfDigitEnds(f);
    }
  }

  /** units is exact / den rounded to a nearest integer: within half a unit of it. */
  predicate WithinHalf(units: int, exact: int, den: int) {
    -den <= 2 * (exact - units * den) <= den
  }

  /** The product of two numbers to the cent: within half a cent of the exact product. */
  lemma ProductCents(a: Num, b: Num) returns (units: nat)
    ensures FormatNum(Times(a, b), 2) == FormatSigned(a.neg != b.neg, units, 2)
    ensures var den: int := Pow10(a.scale + b.scale);
      var exact: int := a.mant * b.mant * 100;
      -den <= 2 * (exact - units * den) <= den
  {
    var x := Times(a, b);
    var m, den := x.mant, Pow10(x.scale);
    assert Pow10(2) == 100 by {
      assert Pow10(1) == 10;
    }
    units := RoundDiv(m * 100, den);
    RoundDivNearest(m * 100, den);
  }

  lemma MultipleBelowIsZero(d: int, b: int)
    requires b >= 1 && 0 <= d * b < b
    ensures d == 0
  {
  }

  lemma MulDivExact(u: nat, b: nat)
    requires b >= 1
    ensures (u * b) / b == u && (u * b) % b == 0
  {
    var q := (u * b) / b;
    var m := (u * b) % b;
    assert u * b == q * b + m;
    assert (u - q) * b == m;
    MultipleBelowIsZero(u - q, b);
  }

  /** Rounding a value that already has `places` fraction digits changes nothing. */
  lemma RoundExact(units: nat, places: nat)
    ensures RoundDiv(units * Pow10(places), Pow10(places)) == units
  {
    MulDivExact(units, Pow10(places));
  }

  /** Text made only of digits and '.' characters, at least one of them. */
  predicate UnsignedText(s: string) {
    |s| > 0 && forall i :: 0 <= i < |s| ==> IsDigit(s[i]) || s[i] == '.'
  }

  /** Whatever ParseUnsigned accepts is made of digits and dots. */
  lemma ParsedIsUnsignedText(s: string)
    requires ParseUnsigned(s).Some?
    ensures UnsignedText(s)
  {
    var k := FindChar(s, '.');
    forall i | 0 <= i < |s| ensures IsDigit(s[i]) || s[i] == '.' {
      if i < k {
        assert s[..k][i] == s[i];
      } else if i > k {
        assert s[k + 1..][i - k - 1] == s[i];
      }
    }
  }

  /** FormatFixed starts with a digit. */
  lemma FormatFixedFirst(units: nat, places: nat)
    requires places > 0
    ensures IsDigit(FormatFixed(units, places)[0])
  {
    var digits := PadNat(units, places + 1);
    var cut := |digits| - places;
    assert FormatFixed(units, places)[0] == digits[0];
  }

  /** FormatFixed ends with a digit. */
  lemma FormatFixedLast(units: nat, places: nat)
    requires places > 0
    ensures IsDigit(FormatFixed(units, places)[|FormatFixed(units, places)| - 1])
  {
    var digits := PadNat(units, places + 1);
    var r := FormatFixed(units, places);
    assert r[|r| - 1] == digits[|digits| - 1];
  }

  /** FormatFixed shows digits and one '.', with a digit at each end. */
  lemma FormatFixedShape(units: nat, places: nat)
    requires places > 0
    ensures UnsignedText(FormatFixed(units, places))
    ensures IsDigit(FormatFixed(units, places)[0])
    ensures IsDigit(FormatFixed(units, places)[|FormatFixed(units, places)| - 1])
  {
    var digits := PadNat(units, places + 1);
    var cut := |digits| - places;
    var r := FormatFixed(units, places);
    assert r == digits[..cut] + "." + digits[cut..];
    forall i | 0 <= i < |r| ensures r[i] == '.' || IsDigit(r[i]) {
      if i < cut {
        assert r[i] == digits[i];
      } else if i > cut {
        assert r[i] == digits[i - 1];
      }
    }
    assert r[|r| - 1] == digits[|digits| - 1];
  }
}
