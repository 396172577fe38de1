/** Unsigned decimal numerals: ASCII digit strings and the numbers they denote. */
module Decimal {
  import opened Wrappers

  /** `u32::MAX`. */
  const U32Max: nat := 0xFFFF_FFFF

  type u32 = x: int | 0 <= x <= 0xFFFF_FFFF

  /** An ASCII digit. */
  predicate IsDigit(c: char) {
    '0' <= c <= '9'
  }

  predicate AllDigits(s: string) {
    forall i :: 0 <= i < |s| ==> IsDigit(s[i])
  }

  function DigitValue(c: char): (n: nat)
    requires IsDigit(c)
    ensures n < 10
  {
    c as int - '0' as int
  }

  function DigitChar(n: nat): (c: char)
    requires n < 10
    ensures IsDigit(c) && DigitValue(c) == n
  {
    ('0' as int + n) as char
  }

  /** The number a digit string denotes, most significant digit first; leading zeros allowed. */
  function Value(s: string): (n: nat)
    requires AllDigits(s)
  {
    if s == [] then 0 else 10 * Value(s[..|s| - 1]) + DigitValue(s[|s| - 1])
  }

  /** The shortest decimal numeral of `n`, as `n.to_string()` writes it. */
  function Text(n: nat): (s: string)
    ensures |s| > 0 && AllDigits(s)
    ensures |s| > 1 ==> s[0] != '0'
  {
    if n < 10 then [DigitChar(n)] else Text(n / 10) + [DigitChar(n % 10)]
  }

  /** Reading back a written numeral gives the number. */
  lemma {:induction false} ValueOfText(n: nat)
    ensures Value(Text(n)) == n
  {
    if n >= 10 {
      var s := Text(n);
      assert s[..|s| - 1] == Text(n / 10);
      ValueOfText(n / 10);
    }
  }

  /**
   * `str::parse::<u32>` on a non-empty digit string: the number it denotes when that
   * fits in 32 bits, and a failure (`None`) otherwise.
   */
  function ParseU32(s: string): (r: Option<u32>)
    requires |s| > 0 && AllDigits(s)
    ensures r.Some? <==> Value(s) <= U32Max
    ensures r.Some? ==> r.value == Value(s)
  {
    if Value(s) <= U32Max then Some(Value(s)) else None
  }

  /** Every 32-bit number survives being written and parsed back. */
  lemma ParseText(n: u32)
    ensures ParseU32(Text(n)) == Some(n)
  {
    ValueOfText(n);
  }
}
