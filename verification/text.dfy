/**
 * The two number renderings the split summary uses: decimal text of whole
 * numbers (template-literal interpolation of an integer) and
 * `Number.prototype.toFixed(2)` on an exact real.
 */
module Text {

  predicate IsDigit(c: char) {
    '0' <= c <= '9'
  }

  predicate AllDigits(s: string) {
    forall i :: 0 <= i < |s| ==> IsDigit(s[i])
  }

  function DigitChar(d: int): (c: char)
    requires 0 <= d < 10
    ensures IsDigit(c) && c as int - '0' as int == d
  {
    ('0' as int + d) as char
  }

  function DigitValue(c: char): (d: int)
    requires IsDigit(c)
    ensures 0 <= d < 10
  {
    c as int - '0' as int
  }

  /** Reads a digit string back as a number (the inverse of NatText). */
  function DecimalValue(s: string): nat
    requires AllDigits(s)
  {
    if |s| == 0 then 0 else DecimalValue(s[..|s| - 1]) * 10 + DigitValue(s[|s| - 1])
  }

  /** Decimal text of a whole number, without leading zeros. */
  function NatText(n: nat): (s: string)
    ensures 1 <= |s| && AllDigits(s)
    ensures |s| > 1 ==> s[0] != '0'
    decreases n
  {
    if n < 10 then [DigitChar(n)] else NatText(n / 10) + [DigitChar(n % 10)]
  }

  lemma {:induction false} NatTextRoundTrip(n: nat)
    ensures DecimalValue(NatText(n)) == n
    decreases n
  {
    var s := NatText(n);
    if n >= 10 {
      NatTextRoundTrip(n / 10);
      assert s[..|s| - 1] == NatText(n / 10);
    }
  }

  /** Decimal text of an integer, with a leading '-' when negative. */
  function IntText(i: int): string {
    if i < 0 then "-" + NatText(-i) else NatText(i)
  }

  /**
   * The integer n for which n / 100 is closest to x, the larger one on a tie:
   * the rounding that section 21.1.3.3 of ECMA-262 (Number.prototype.toFixed)
   * prescribes for two fraction digits.
   */
  function Cents(x: real): (c: int)
    ensures x * 100.0 - 0.5 < c as real <= x * 100.0 + 0.5
  {
    (x * 100.0 + 0.5).Floor
  }

  /** `c / 100` written with exactly two fraction digits. */
  function Fixed2(c: nat): string {
    NatText(c / 100) + "." + [DigitChar(c % 100 / 10), DigitChar(c % 10)]
  }

  /** `x.toFixed(2)` for an exact real x: a '-' for negatives, then the rounded magnitude. */
  function ToFixed2(x: real): string {
    if x < 0.0 then "-" + Fixed2(Cents(-x)) else Fixed2(Cents(x))
  }

  /** Reading the whole part and the two fraction digits back gives the rounded cents. */
  lemma ToFixed2Value(x: real)
    requires x >= 0.0
    ensures var s := ToFixed2(x);
            && |s| >= 4 && s[|s| - 3] == '.'
            && AllDigits(s[..|s| - 3]) && AllDigits(s[|s| - 2..])
            && DecimalValue(s[..|s| - 3]) * 100 + DecimalValue(s[|s| - 2..]) == Cents(x)
  {
    var c := Cents(x);
    var w := NatText(c / 100);
    var s := ToFixed2(x);
    assert s == w + "." + [DigitChar(c % 100 / 10), DigitChar(c % 10)];
    assert s[..|s| - 3] == w;
    NatTextRoundTrip(c / 100);
    var f := s[|s| - 2..];
    assert f == [DigitChar(c % 100 / 10), DigitChar(c % 10)];
    assert f[..1] == [DigitChar(c % 100 / 10)];
    assert f[..1][..0] == [];
    assert DecimalValue(f[..1]) == c % 100 / 10;
    assert DecimalValue(f) == (c % 100 / 10) * 10 + c % 10;
  }
}
