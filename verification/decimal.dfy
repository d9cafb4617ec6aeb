/**
 Decimal rendering of a Java `long`, as `StringBuilder.append(long)` writes it:
 an optional minus sign followed by the digits of the magnitude, with no
 leading zeros. Together with a parser that reads the rendering back.
 */
module Decimal {
  import opened Wrappers

  /** The values of Java's 64-bit two's-complement `long`. */
  type Int64 = x: int | -0x8000_0000_0000_0000 <= x < 0x8000_0000_0000_0000

  predicate IsDigit(c: char) {
    '0' <= c <= '9'
  }

  predicate AllDigits(s: string) {
    forall i :: 0 <= i < |s| ==> IsDigit(s[i])
  }

  function DigitChar(d: nat): (c: char)
    requires d < 10
    ensures IsDigit(c) && (c as int) - ('0' as int) == d
  {
    (('0' as int) + d) as char
  }

  /** The digits of `n`, most significant first. */
  function NatDigits(n: nat): (s: string)
    decreases n
    ensures |s| > 0 && AllDigits(s)
    ensures s[0] == '0' ==> n == 0
  {
    if n < 10 then [DigitChar(n)] else NatDigits(n / 10) + [DigitChar(n % 10)]
  }

  /** The number a string of digits denotes. */
  function DigitsValue(s: string): nat
    requires AllDigits(s)
  {
    if |s| == 0 then 0
    else DigitsValue(s[..|s| - 1]) * 10 + ((s[|s| - 1] as int) - ('0' as int))
  }

  /** `Long.toString` of `n`. */
  function LongToString(n: Int64): (s: string)
    ensures |s| > 0
    ensures forall i :: 0 <= i < |s| ==> IsDigit(s[i]) || (i == 0 && s[i] == '-')
  {
    if n < 0 then "-" + NatDigits(-(n as int)) else NatDigits(n)
  }

  /** Reads an optionally signed decimal numeral. */
  function ParseLong(s: string): Option<int> {
    if |s| > 0 && s[0] == '-' then
      if |s| > 1 && AllDigits(s[1..]) then Some(-(DigitsValue(s[1..]) as int)) else None
    else if |s| > 0 && AllDigits(s) then Some(DigitsValue(s))
    else None
  }

  lemma {:induction false} DigitsValueOfNatDigits(n: nat)
    ensures DigitsValue(NatDigits(n)) == n
    decreases n
  {
    if n >= 10 {
      var s := NatDigits(n);
      assert s[..|s| - 1] == NatDigits(n / 10);
      DigitsValueOfNatDigits(n / 10);
    }
  }

  /** Rendering and reading a `long` is the identity. */
  lemma ParseLongToString(n: Int64)
    ensures ParseLong(LongToString(n)) == Some(n as int)
  {
    if n < 0 {
      var s := LongToString(n);
      assert s[1..] == NatDigits(-(n as int));
      DigitsValueOfNatDigits(-(n as int));
    } else {
      DigitsValueOfNatDigits(n);
    }
  }

  /** Distinct `long` values render to distinct strings. */
  lemma LongToStringInjective(a: Int64, b: Int64)
    ensures LongToString(a) == LongToString(b) ==> a == b
  {
    ParseLongToString(a);
    ParseLongToString(b);
  }
}
