/** Decimal rendering of non-negative integers, as Python's `str(int)` does it:
    the digits in base ten, most significant first, with no sign, no padding
    and no leading zero (zero itself is "0"). The day and the year of a long
    date are rendered this way. */
module Decimal {

  predicate IsDigit(c: char) {
    '0' <= c <= '9'
  }

  /** The character of a single digit value. */
  function DigitChar(v: nat): (c: char)
    requires v < 10
    ensures IsDigit(c)
    ensures DigitValue(c) == v
  {
    (('0' as int) + v) as char
  }

  /** The value of a digit character. */
  function DigitValue(c: char): (v: nat)
    requires IsDigit(c)
    ensures v < 10
  {
    (c as int) - ('0' as int)
  }

  predicate AllDigits(s: string) {
    forall i :: 0 <= i < |s| ==> IsDigit(s[i])
  }

  /** A string Python's `str` can produce for a non-negative integer:
      non-empty, digits only, and no leading zero unless it is "0". */
  predicate IsCanonical(s: string) {
    |s| > 0 && AllDigits(s) && (s[0] == '0' ==> |s| == 1)
  }

  /** The value of a string of digits, read in base ten (the empty string reads as 0). */
  function ParseDecimal(s: string): nat
    requires AllDigits(s)
  {
    if s == [] then 0 else ParseDecimal(s[..|s| - 1]) * 10 + DigitValue(s[|s| - 1])
  }

  function Pow10(k: nat): (p: nat)
    ensures p >= 1
  {
    if k == 0 then 1 else 10 * Pow10(k - 1)
  }

  /** `str(n)` for n >= 0: its result is a canonical digit string whose value is n. */
  function DecimalString(n: nat): (r: string)
    ensures IsCanonical(r)
    ensures ParseDecimal(r) == n
  {
    if n < 10 then [DigitChar(n)]
    else
      var r := DecimalString(n / 10) + [DigitChar(n % 10)];
      assert r[..|r| - 1] == DecimalString(n / 10);
      r
  }

  /** The canonical digit strings are exactly the images of DecimalString:
      reading a canonical string and rendering the value gives the string back. */
  lemma {:induction false} DecimalStringOfParse(s: string)
    requires IsCanonical(s)
    ensures DecimalString(ParseDecimal(s)) == s
  {
    if |s| > 1 {
      var t := s[..|s| - 1];
      assert IsCanonical(t);
      DecimalStringOfParse(t);
      ParsePositive(t);
      var n := ParseDecimal(s);
      var v := DigitValue(s[|s| - 1]);
      assert n == ParseDecimal(t) * 10 + v;
      assert n / 10 == ParseDecimal(t) && n % 10 == v;
      assert s == t + [s[|s| - 1]];
    }
  }

  /** A digit string that does not start with '0' has a positive value. */
  lemma {:induction false} ParsePositive(s: string)
    requires |s| > 0 && AllDigits(s) && s[0] != '0'
    ensures ParseDecimal(s) >= 1
  {
    if |s| > 1 {
      ParsePositive(s[..|s| - 1]);
    }
  }

  /** `str` is one-to-one on non-negative integers. */
  lemma DecimalStringInjective(m: nat, n: nat)
    requires DecimalString(m) == DecimalString(n)
    ensures m == n
  {
  }

  /** A number of k digits (0 with k = 1, or 10^(k-1) <= n < 10^k) is rendered
      with exactly k characters: nothing is truncated and nothing is padded. */
  lemma {:induction false} DecimalStringLength(n: nat, k: nat)
    requires (n == 0 && k == 1) || (k >= 1 && Pow10(k - 1) <= n < Pow10(k))
    ensures |DecimalString(n)| == k
  {
    if k > 1 {
      assert Pow10(k - 1) == 10 * Pow10(k - 2);
      assert Pow10(k) == 10 * Pow10(k - 1);
      assert Pow10(k - 2) <= n / 10 < Pow10(k - 1);
      DecimalStringLength(n / 10, k - 1);
    }
  }
}
