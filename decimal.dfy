/** Decimal text: Python's `int(...)` on ASCII digit strings, `str(n)` and the
    `{n:02d}` zero-padded format, for non-negative integers. */
module Decimal {

  predicate IsDigit(c: char) {
    '0' <= c <= '9'
  }

  predicate IsDigits(s: string) {
    forall i :: 0 <= i < |s| ==> IsDigit(s[i])
  }

  function DigitValue(c: char): (d: nat)
    requires IsDigit(c)
    ensures d < 10
  {
    c as int - '0' as int
  }

  function DigitChar(d: nat): (c: char)
    requires d < 10
    ensures IsDigit(c) && DigitValue(c) == d
  {
    ('0' as int + d) as char
  }

  function Pow10(k: nat): (p: nat)
    ensures p >= 1
  {
    if k == 0 then 1 else 10 * Pow10(k - 1)
  }

  /** `int(s)` for a string of ASCII digits (leading zeros allowed, "" reads as 0);
      a numeral of `k` digits reads as a number below `10^k`. */
  function ParseDecimal(s: string): (n: nat)
    requires IsDigits(s)
    ensures n < Pow10(|s|)
  {
    if s == [] then 0 else 10 * ParseDecimal(s[..|s| - 1]) + DigitValue(s[|s| - 1])
  }

  /** `str(n)`: the shortest decimal numeral of `n`. */
  function DecimalString(n: nat): (s: string)
    ensures 1 <= |s| && IsDigits(s)
    ensures |s| > 1 ==> s[0] != '0'
  {
    if n < 10 then [DigitChar(n)] else DecimalString(n / 10) + [DigitChar(n % 10)]
  }

  /** `f"{n:02d}"`: the numeral of `n`, left-padded with '0' to at least two characters. */
  function ZeroPad2(n: nat): (s: string)
    ensures IsDigits(s)
  {
    if n < 10 then "0" + DecimalString(n) else DecimalString(n)
  }

  lemma {:induction false} ParseDecimalString(n: nat)
    ensures ParseDecimal(DecimalString(n)) == n
  {
    if n >= 10 {
      var s := DecimalString(n);
      assert s[..|s| - 1] == DecimalString(n / 10);
      ParseDecimalString(n / 10);
    }
  }

  /** Prepending zeros does not change what `int` reads. */
  lemma {:induction false} ParseDecimalLeadingZero(s: string)
    requires IsDigits(s)
    ensures IsDigits("0" + s) && ParseDecimal("0" + s) == ParseDecimal(s)
  {
    if s != [] {
      var t := "0" + s;
      assert t[..|t| - 1] == "0" + s[..|s| - 1];
      ParseDecimalLeadingZero(s[..|s| - 1]);
    }
  }

  /** The padded numeral reads back as the number, and is exactly two characters below 100. */
  lemma ZeroPad2RoundTrip(n: nat)
    ensures ParseDecimal(ZeroPad2(n)) == n
    ensures n < 100 <==> |ZeroPad2(n)| == 2
  {
    ParseDecimalString(n);
    if n < 10 {
      ParseDecimalLeadingZero(DecimalString(n));
    } else {
      DecimalStringLength(n, 2);
      if n >= 100 {
        DecimalStringLength(n, 3);
      }
    }
  }

  /** `str(n)` has at least `k >= 2` characters exactly when `n >= 10^(k-1)`. */
  lemma {:induction false} DecimalStringLength(n: nat, k: nat)
    requires 2 <= k
    ensures |DecimalString(n)| >= k <==> n >= Pow10(k - 1)
  {
    if k > 2 && n >= 10 {
      DecimalStringLength(n / 10, k - 1);
    }
  }
}
