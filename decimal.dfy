/**
 * Decimal text of integers, as JavaScript's `Number.prototype.toString()`
 * writes an integral value whose magnitude is at most 2^53 (there every
 * integer is a double and is printed digit for digit), together with the
 * parser that reads it back, so that the printed text is pinned down by a
 * round trip.
 */
module Decimal {
  import opened Wrappers

  predicate IsDigit(c: char) { '0' <= c <= '9' }

  predicate AllDigits(s: string) { forall i :: 0 <= i < |s| ==> IsDigit(s[i]) }

  /** Canonical digit string: non-empty, and no leading zero unless it is "0". */
  predicate Canonical(s: string) { |s| >= 1 && AllDigits(s) && (s[0] == '0' ==> |s| == 1) }

  function DigitChar(d: nat): (c: char)
    requires d < 10
    ensures IsDigit(c) && c as int - '0' as int == d
  {
    ('0' as int + d) as char
  }

  /** The number a string of digits denotes, read most significant digit first. */
  function DigitsValue(s: string): nat
    requires AllDigits(s)
  {
    if s == [] then 0
    else 10 * DigitsValue(s[..|s| - 1]) + (s[|s| - 1] as int - '0' as int)
  }

  /** Decimal text of a natural number. */
  function NatToDecimal(n: nat): (r: string)
    ensures Canonical(r)
    ensures DigitsValue(r) == n
    ensures n < 10 <==> |r| == 1
  {
    if n < 10 then [DigitChar(n)]
    else
      var prefix := NatToDecimal(n / 10);
      var r := prefix + [DigitChar(n % 10)];
      assert r[..|r| - 1] == prefix;
      r
  }

  /** Decimal text of an integer: a minus sign before the magnitude when negative. */
  function IntToDecimal(i: int): (r: string)
    ensures r != []
    ensures i < 0 <==> r[0] == '-'
    ensures ParseInt(r) == Some(i)
  {
    if i < 0 then "-" + NatToDecimal(-i) else NatToDecimal(i)
  }

  /** Reads back the text `IntToDecimal` writes; `None` for anything else. */
  function ParseInt(s: string): Option<int>
  {
    if |s| >= 2 && s[0] == '-' && Canonical(s[1..]) && s[1..] != "0" then Some(-(DigitsValue(s[1..]) as int))
    else if Canonical(s) then Some(DigitsValue(s))
    else None
  }
}
