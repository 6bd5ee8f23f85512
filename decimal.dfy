/**
 * Decimal text of a Java `long`: `Long.toString` and `Long.parseLong`.
 * The generation tracker keys its map by the decimal text of a generation and
 * parses it back, so the two must be inverse on every long.
 */
module Decimal {
  import opened Common

  predicate IsDigit(c: char) { '0' <= c <= '9' }

  predicate AllDigits(s: string) { forall i :: 0 <= i < |s| ==> IsDigit(s[i]) }

  function DigitChar(d: nat): (c: char)
    requires d < 10
    ensures IsDigit(c)
  {
    (('0' as int) + d) as char
  }

  function DigitValue(c: char): (d: nat)
    requires IsDigit(c)
    ensures d < 10
  {
    (c as int) - ('0' as int)
  }

  /** Shortest decimal text of `n`, without a sign. */
  function NatToString(n: nat): (s: string)
    ensures |s| > 0 && AllDigits(s)
    ensures |s| > 1 ==> s[0] != '0'
    decreases n
  {
    if n < 10 then [DigitChar(n)] else NatToString(n / 10) + [DigitChar(n % 10)]
  }

  /** Value of a string of decimal digits, most significant first. */
  function DigitsValue(s: string): nat
    requires AllDigits(s)
  {
    if s == [] then 0 else DigitsValue(s[..|s| - 1]) * 10 + DigitValue(s[|s| - 1])
  }

  /** `Long.toString`: a minus sign for negative values, then the digits. */
  function LongToString(x: int): string {
    if x < 0 then "-" + NatToString(-x) else NatToString(x)
  }

  /**
   * `Long.parseLong`: an optional `-` or `+`, at least one digit, nothing else,
   * and a value inside the range of a long; otherwise NumberFormatException (None).
   */
  function ParseLong(s: string): Option<int> {
    if |s| > 0 && (s[0] == '-' || s[0] == '+') then
      var digits := s[1..];
      if digits == [] || !AllDigits(digits) then None
      else
        var v: int := if s[0] == '-' then 0 - (DigitsValue(digits) as int) else DigitsValue(digits);
        if IsLong(v) then Some(v) else None
    else if s == [] || !AllDigits(s) then None
    else if IsLong(DigitsValue(s)) then Some(DigitsValue(s)) else None
  }

  lemma {:induction false} DigitsOfNat(n: nat)
    ensures DigitsValue(NatToString(n)) == n
    decreases n
  {
    if n >= 10 {
      var s := NatToString(n);
      assert s[..|s| - 1] == NatToString(n / 10);
      DigitsOfNat(n / 10);
    }
  }

  /** Parsing the text `Long.toString` produced gives the long back. */
  lemma ParseLongToString(x: int)
    requires IsLong(x)
    ensures ParseLong(LongToString(x)) == Some(x)
  {
    var s := LongToString(x);
    if x < 0 {
      var digits := NatToString(-x);
      DigitsOfNat(-x);
      assert s == "-" + digits && s[0] == '-' && s[1..] == digits;
      assert DigitsValue(digits) as int == -x;
    } else {
      DigitsOfNat(x);
      assert s == NatToString(x) && IsDigit(s[0]);
    }
  }

  /** Distinct longs have distinct decimal texts. */
  lemma LongToStringInjective(x: int, y: int)
    requires IsLong(x) && IsLong(y)
    ensures LongToString(x) == LongToString(y) <==> x == y
  {
    if LongToString(x) == LongToString(y) {
      ParseLongToString(x);
      ParseLongToString(y);
    }
  }
}
