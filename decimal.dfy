/** Decimal text for `u32` values: Rust's `str::parse::<u32>` and `u32::to_string`. */
module Decimal {
  import opened Wrappers

  /** `u32::MAX`. */
  const U32Max: nat := 0xFFFF_FFFF

  predicate IsDigit(c: char)
  {
    '0' <= c <= '9'
  }

  predicate AllDigits(s: string)
  {
    forall i :: 0 <= i < |s| ==> IsDigit(s[i])
  }

  function DigitValue(c: char): (d: nat)
    requires IsDigit(c)
    ensures d < 10
  {
    c as int - '0' as int
  }

  function DigitChar(d: nat): (c: char)
    requires d < 10
    ensures IsDigit(c) && DigitValue(c) == d
  {
    ('0' as int + d) as char
  }

  /** The number a string of decimal digits denotes, most significant digit first. */
  function DigitsValue(s: string): nat
    requires AllDigits(s)
    decreases |s|
  {
    if s == [] then 0 else DigitsValue(s[..|s| - 1]) * 10 + DigitValue(s[|s| - 1])
  }

  /** `to_string` of a number: its shortest decimal form, so a leading '0' only for zero itself. */
  function NatToString(n: nat): (s: string)
    ensures |s| >= 1 && AllDigits(s)
    ensures s[0] == '0' <==> n == 0
    ensures |s| == 1 <==> n < 10
  {
    if n < 10 then [DigitChar(n)] else NatToString(n / 10) + [DigitChar(n % 10)]
  }

  /**
   * `str::parse::<u32>`: an optional leading '+', then one or more ASCII digits whose
   * value fits in 32 bits; anything else (empty, a sign alone, '-', other characters,
   * overflow) is an error, here None.
   */
  function ParseU32(s: string): (r: Option<nat>)
    ensures r.Some? ==> r.value <= U32Max
    ensures s == [] ==> r.None?
    ensures |s| > 0 && !IsDigit(s[0]) && s[0] != '+' ==> r.None?
  {
    var digits := if |s| > 0 && s[0] == '+' then s[1..] else s;
    if digits == [] || !AllDigits(digits) then None
    else if DigitsValue(digits) <= U32Max then Some(DigitsValue(digits))
    else None
  }

  /** Reading back the decimal form of a number gives the number. */
  lemma {:induction false} DigitsValueOfNatToString(n: nat)
    ensures DigitsValue(NatToString(n)) == n
  {
    if n >= 10 {
      var s := NatToString(n);
      assert s[..|s| - 1] == NatToString(n / 10);
      DigitsValueOfNatToString(n / 10);
    }
  }

  /** Every `u32` printed by `to_string` parses back to itself. */
  lemma ParseU32OfNatToString(n: nat)
    requires n <= U32Max
    ensures ParseU32(NatToString(n)) == Some(n)
  {
    DigitsValueOfNatToString(n);
  }

  /** A '+' before the digits is accepted and changes nothing. */
  lemma ParseU32OfPlus(n: nat)
    requires n <= U32Max
    ensures ParseU32("+" + NatToString(n)) == Some(n)
  {
    DigitsValueOfNatToString(n);
    assert ("+" + NatToString(n))[1..] == NatToString(n);
  }

  /** A number beyond `u32::MAX`, written by `to_string`, does not parse as a `u32`. */
  lemma ParseU32BeyondMax(n: nat)
    requires n > U32Max
    ensures ParseU32(NatToString(n)) == None
  {
    DigitsValueOfNatToString(n);
  }
}
