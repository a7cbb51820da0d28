/** Decimal parsing of unsigned 16-bit integers, the `FromStr` the example
    taxonomies use for their application codes. */
module Decimal {
  import opened Wrappers

  /** Rust's `u16`. */
  newtype u16 = x: int | 0 <= x < 0x1_0000

  predicate IsDigit(c: char) {
    '0' <= c <= '9'
  }

  predicate AllDigits(s: string) {
    forall i :: 0 <= i < |s| ==> IsDigit(s[i])
  }

  function DigitValue(c: char): nat
    requires IsDigit(c)
  {
    c as int - '0' as int
  }

  function DigitChar(d: nat): char
    requires d < 10
  {
    ('0' as int + d) as char
  }

  /** The number a digit string denotes, most significant digit first;
      leading zeros are allowed. */
  function Value(s: string): nat
    requires AllDigits(s)
    decreases |s|
  {
    if |s| == 0 then 0 else Value(s[..|s| - 1]) * 10 + DigitValue(s[|s| - 1])
  }

  /** The digits of a decimal text: the text without its optional leading '+'. */
  function Unsigned(s: string): string {
    if |s| > 0 && s[0] == '+' then s[1..] else s
  }

  /** `u16::from_str`: an optional leading '+', then at least one decimal
      digit, and a value that fits in 16 bits.  A leading '-' is an invalid
      digit for an unsigned type; the empty string and a lone '+' fail too. */
  function ParseU16(s: string): (r: Option<u16>)
    ensures s == [] ==> r.None?
    ensures s == "+" ==> r.None?
    ensures |s| > 0 && s[0] == '-' ==> r.None?
    ensures r.Some? ==> AllDigits(Unsigned(s)) && Value(Unsigned(s)) == r.value as int
  {
    var digits := Unsigned(s);
    if |digits| == 0 || !AllDigits(digits) then None
    else if Value(digits) < 0x1_0000 then Some(Value(digits) as u16)
    else None
  }

  /** The canonical decimal text of a natural number: no sign, no leading
      zero except for 0 itself. */
  function Show(n: nat): (s: string)
    ensures s != [] && AllDigits(s)
    ensures Value(s) == n
    ensures s[0] == '0' ==> n == 0
    decreases n
  {
    if n < 10 then [DigitChar(n)]
    else
      var front := Show(n / 10);
      var s := front + [DigitChar(n % 10)];
      assert s[..|s| - 1] == front;
      s
  }

  /** Parsing the canonical text of a number gives the number back exactly
      when it fits in 16 bits. */
  lemma ParseShow(n: nat)
    ensures ParseU16(Show(n)).Some? <==> n < 0x1_0000
    ensures n < 0x1_0000 ==> ParseU16(Show(n)) == Some(n as u16)
  {
  }
}
