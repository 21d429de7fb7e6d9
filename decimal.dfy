/**
 * JavaScript's conversion of an integral number to a string, used when a
 * coordinate or a point count is concatenated into the query string: decimal
 * digits without leading zeros, preceded by `-` when negative.
 */
module Decimal {

  predicate IsDigit(c: char)
  {
    '0' <= c <= '9'
  }

  function DigitChar(d: int): (c: char)
    requires 0 <= d < 10
    ensures IsDigit(c) && c as int - '0' as int == d
  {
    ('0' as int + d) as char
  }

  function NatToString(n: nat): (s: string)
    ensures |s| >= 1
    decreases n
  {
    if n < 10 then [DigitChar(n)] else NatToString(n / 10) + [DigitChar(n % 10)]
  }

  /** The rendering is all digits, with no leading zero. */
  lemma {:induction false} NatToStringDigits(n: nat)
    ensures forall i :: 0 <= i < |NatToString(n)| ==> IsDigit(NatToString(n)[i])
    ensures |NatToString(n)| > 1 ==> NatToString(n)[0] != '0'
    decreases n
  {
    if n >= 10 {
      NatToStringDigits(n / 10);
    }
  }

  /** The value of a string of decimal digits. */
  function DigitsValue(s: string): nat
    decreases |s|
  {
    if s == [] then 0
    else DigitsValue(s[..|s| - 1]) * 10 + DigitValue(s[|s| - 1])
  }

  /** The value of a digit character (0 for any other character). */
  function DigitValue(c: char): nat
  {
    if IsDigit(c) then c as int - '0' as int else 0
  }

  /** Reading the rendered digits back gives the number. */
  lemma {:induction false} DigitsValueNatToString(n: nat)
    ensures DigitsValue(NatToString(n)) == n
    decreases n
  {
    NatToStringDigits(n);
    var s := NatToString(n);
    if n >= 10 {
      DigitsValueNatToString(n / 10);
      assert s[..|s| - 1] == NatToString(n / 10);
    }
  }

  function IntToString(x: int): (s: string)
    ensures |s| >= 1
  {
    if x < 0 then "-" + NatToString(-x) else NatToString(x)
  }

  /** The rendering of an integer is digits, with a leading `-` when negative. */
  lemma IntToStringChars(x: int)
    ensures forall i :: 0 <= i < |IntToString(x)| ==> IsDigit(IntToString(x)[i]) || (i == 0 && IntToString(x)[i] == '-')
  {
    NatToStringDigits(if x < 0 then -x else x);
  }

  /** The rendering of an integer is decoded back to the same integer. */
  lemma IntToStringRoundTrip(x: int)
    ensures IntToString(x)[0] == '-' <==> x < 0
    ensures x < 0 ==> DigitsValue(IntToString(x)[1..]) == -x
    ensures x >= 0 ==> DigitsValue(IntToString(x)) == x
  {
    IntToStringChars(x);
    if x < 0 {
      DigitsValueNatToString(-x);
      assert IntToString(x)[1..] == NatToString(-x);
    } else {
      DigitsValueNatToString(x);
      NatToStringDigits(x);
    }
  }
}
