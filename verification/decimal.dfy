/**
 * Integers in base ten, the form the expected tags show an asset's timestamp
 * in as the value of the `ts` query parameter, together with the inverse.
 */
module Decimal {
  import opened Wrappers

  predicate IsDigit(c: char)
  {
    '0' <= c <= '9'
  }

  predicate AllDigits(s: string)
  {
    forall i :: 0 <= i < |s| ==> IsDigit(s[i])
  }

  function DigitChar(d: nat): (c: char)
    requires d < 10
    ensures IsDigit(c)
  {
    (d + '0' as int) as char
  }

  function DigitValue(c: char): (d: nat)
    requires IsDigit(c)
    ensures d < 10
    ensures DigitChar(d) == c
  {
    c as int - '0' as int
  }

  /** The digits of `n`, most significant first, without leading zeros. */
  function NatDigits(n: nat): (s: string)
    ensures |s| > 0 && AllDigits(s)
    ensures |s| > 1 ==> s[0] != '0'
    decreases n
  {
    if n < 10 then [DigitChar(n)] else NatDigits(n / 10) + [DigitChar(n % 10)]
  }

  /** The decimal form: a minus sign for negative numbers, then the digits. */
  function ToDecimal(n: int): (s: string)
    ensures |s| > 0
    ensures n >= 0 <==> AllDigits(s)
    ensures n < 0 <==> s[0] == '-'
  {
    if n < 0 then
      var s := "-" + NatDigits(-n);
      assert !IsDigit(s[0]);
      s
    else NatDigits(n)
  }

  /** The number a run of digits denotes; the empty run denotes 0. */
  function DigitsValue(s: string): nat
    requires AllDigits(s)
  {
    if |s| == 0 then 0 else DigitsValue(s[..|s| - 1]) * 10 + DigitValue(s[|s| - 1])
  }

  /** Reads back an optionally signed decimal integer; None when `s` is not one. */
  function ParseDecimal(s: string): Option<int>
  {
    if |s| > 1 && s[0] == '-' && AllDigits(s[1..]) then Some(0 - DigitsValue(s[1..]) as int)
    else if |s| > 0 && AllDigits(s) then Some(DigitsValue(s))
    else None
  }

  lemma {:induction false} NatDigitsRoundTrip(n: nat)
    ensures DigitsValue(NatDigits(n)) == n
    decreases n
  {
    if n >= 10 {
      var s := NatDigits(n);
      NatDigitsRoundTrip(n / 10);
      assert s[..|s| - 1] == NatDigits(n / 10);
    }
  }

  /** Reading the rendered number back yields the number. */
  lemma DecimalRoundTrip(n: int)
    ensures ParseDecimal(ToDecimal(n)) == Some(n)
  {
    if n < 0 {
      assert ToDecimal(n)[1..] == NatDigits(-n);
      NatDigitsRoundTrip(-n);
    } else {
      NatDigitsRoundTrip(n);
    }
  }

  /** Distinct numbers render as distinct strings. */
  lemma ToDecimalInjective(m: int, n: int)
    requires m != n
    ensures ToDecimal(m) != ToDecimal(n)
  {
    DecimalRoundTrip(m);
    DecimalRoundTrip(n);
  }
}
