/**
 * Decimal text of non-negative integers: the `toString()` of a whole number
 * and the part of `parseInt` that the timer editor can reach (a run of
 * ASCII digits at the start of the text; no digits at all gives NaN).
 */
module Decimal {
  import opened Wrappers

  predicate IsDigit(c: char) {
    '0' <= c <= '9'
  }

  predicate AllDigits(s: string) {
    forall i :: 0 <= i < |s| ==> IsDigit(s[i])
  }

  function DigitChar(d: nat): (c: char)
    requires d < 10
    ensures IsDigit(c)
  {
    (48 + d) as char
  }

  function DigitValue(c: char): (d: nat)
    requires IsDigit(c)
    ensures d < 10
  {
    (c as int) - 48
  }

  function Pow10(k: nat): (p: nat)
    ensures p >= 1
  {
    if k == 0 then 1 else 10 * Pow10(k - 1)
  }

  /** `n.toString()` for a whole number `n >= 0`: most significant digit first, no leading zeros. */
  function NatToString(n: nat): (s: string)
    ensures 1 <= |s| && AllDigits(s)
    ensures |s| > 1 ==> s[0] != '0'
    decreases n
  {
    if n < 10 then [DigitChar(n)] else NatToString(n / 10) + [DigitChar(n % 10)]
  }

  /** `i.toString()` for any integer: a minus sign before the digits of `-i` when negative. */
  function IntToString(i: int): (s: string)
    ensures i >= 0 ==> s == NatToString(i)
    ensures i < 0 ==> |s| >= 2 && s[0] == '-' && !AllDigits(s)
  {
    if i < 0 then "-" + NatToString(-i) else NatToString(i)
  }

  /** The number a string of decimal digits denotes (the empty string denotes 0). */
  function DigitsValue(s: string): (v: nat)
    requires AllDigits(s)
    ensures v < Pow10(|s|)
    decreases |s|
  {
    if s == [] then 0 else DigitsValue(s[..|s| - 1]) * 10 + DigitValue(s[|s| - 1])
  }

  /** The longest prefix of `s` made of digits: what `parseInt` reads. */
  function LeadingDigits(s: string): (p: string)
    ensures AllDigits(p) && p <= s
    ensures |p| < |s| ==> !IsDigit(s[|p|])
    ensures AllDigits(s) ==> p == s
    decreases |s|
  {
    if s == [] || !IsDigit(s[0]) then [] else [s[0]] + LeadingDigits(s[1..])
  }

  /**
   * `parseInt(s)` on text without leading blanks or a sign: the value of the
   * leading digits, or None (NaN) when the text does not start with a digit.
   */
  function ParseInt(s: string): (r: Option<nat>)
    ensures r.None? <==> (s == [] || !IsDigit(s[0]))
    ensures |s| <= 3 && r.Some? ==> r.value <= 999
  {
    var p := LeadingDigits(s);
    if p == [] then None else Some(DigitsValue(p))
  }

  /** Reading back the text of a number gives the number. */
  lemma {:induction false} DigitsValueOfNatToString(n: nat)
    ensures DigitsValue(NatToString(n)) == n
    decreases n
  {
    if n >= 10 {
      var s := NatToString(n);
      assert s[..|s| - 1] == NatToString(n / 10);
      DigitsValueOfNatToString(n / 10);
    }
  }

  /** Distinct numbers have distinct texts. */
  lemma NatToStringInjective(a: nat, b: nat)
    requires NatToString(a) == NatToString(b)
    ensures a == b
  {
    DigitsValueOfNatToString(a);
    DigitsValueOfNatToString(b);
  }

  /** `parseInt(n.toString())` is `n`. */
  lemma ParseIntOfNatToString(n: nat)
    ensures ParseInt(NatToString(n)) == Some(n)
  {
    DigitsValueOfNatToString(n);
  }

  /** Text made only of the digit zero (possibly empty). */
  predicate Zeros(z: string) {
    forall i :: 0 <= i < |z| ==> z[i] == '0'
  }

  /** `i.toString()` of a non-negative integer reads back as `i`. */
  lemma ParseIntOfIntToString(i: int)
    ensures i >= 0 ==> ParseInt(IntToString(i)) == Some(i)
  {
    if i >= 0 {
      ParseIntOfNatToString(i);
    }
  }

  /** The digit scan stops exactly at the end of a run of digits followed by a non-digit. */
  lemma {:induction false} LeadingDigitsStop(p: string, t: string)
    requires AllDigits(p) && (t == [] || !IsDigit(t[0]))
    ensures LeadingDigits(p + t) == p
    decreases |p|
  {
    if p == [] {
      assert p + t == t;
    } else {
      assert (p + t)[1..] == p[1..] + t;
      LeadingDigitsStop(p[1..], t);
    }
  }

  /** A run of zeros denotes 0. */
  lemma {:induction false} ZerosValue(z: string)
    requires Zeros(z)
    ensures AllDigits(z) && DigitsValue(z) == 0
    decreases |z|
  {
    if z != [] {
      ZerosValue(z[..|z| - 1]);
    }
  }

  /** Leading zeros do not change the value of a digit string. */
  lemma {:induction false} DigitsValueLeadingZeros(z: string, d: string)
    requires Zeros(z) && AllDigits(d)
    ensures AllDigits(z + d) && DigitsValue(z + d) == DigitsValue(d)
    decreases |d|
  {
    ZerosValue(z);
    if d == [] {
      assert z + d == z;
    } else {
      var s := z + d;
      assert s[..|s| - 1] == z + d[..|d| - 1];
      DigitsValueLeadingZeros(z, d[..|d| - 1]);
    }
  }

  /**
   * `parseInt` reads the number written after any leading zeros and stops at
   * the first non-digit: `"007"`, `"7"` and `"7 min"` all read as 7.
   */
  lemma ParseIntPadded(z: string, n: nat, t: string)
    requires Zeros(z)
    requires t == [] || !IsDigit(t[0])
    ensures ParseInt(z + NatToString(n) + t) == Some(n)
  {
    var d := NatToString(n);
    DigitsValueLeadingZeros(z, d);
    LeadingDigitsStop(z + d, t);
    DigitsValueOfNatToString(n);
    assert (z + d + t)[..|z + d|] == z + d;
  }

  /** A number below `10^k` is written with at most `k` digits. */
  lemma {:induction false} NatToStringLength(n: nat, k: nat)
    requires 1 <= k && n < Pow10(k)
    ensures |NatToString(n)| <= k
    decreases n
  {
    if n >= 10 {
      assert Pow10(k) == 10 * Pow10(k - 1);
      assert n / 10 < Pow10(k - 1);
      NatToStringLength(n / 10, k - 1);
    }
  }
}
