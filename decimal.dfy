/** Decimal integers as Go reads them with strconv.Atoi and prints them with %v. */
module Decimal {

  /** The range of Go's `int` on a 64-bit platform. */
  const MaxInt64: int := 0x7FFF_FFFF_FFFF_FFFF
  const MinInt64: int := -0x8000_0000_0000_0000

  predicate IsDigit(c: char) {
    '0' <= c <= '9'
  }

  predicate AllDigits(s: string) {
    forall k :: 0 <= k < |s| ==> IsDigit(s[k])
  }

  function DigitValue(c: char): nat
    requires IsDigit(c)
  {
    c as int - '0' as int
  }

  function DigitChar(d: nat): char
    requires d < 10
  {
    ('0' as int + d) as char
  }

  /** The value of a string of decimal digits, most significant first. */
  function DigitsValue(s: string): nat
    requires AllDigits(s)
  {
    if s == [] then 0 else DigitsValue(s[..|s| - 1]) * 10 + DigitValue(s[|s| - 1])
  }

  /** Go's range check: an out-of-range value is replaced by the nearest bound. */
  function Clamp(v: int): int {
    if v > MaxInt64 then MaxInt64 else if v < MinInt64 then MinInt64 else v
  }

  /** The largest uint64, the bound of the digit accumulator in strconv.ParseUint. */
  const MaxUint64: int := 0xFFFF_FFFF_FFFF_FFFF

  /** The text after an optional leading sign. */
  function Unsigned(s: string): string {
    if |s| > 0 && (s[0] == '+' || s[0] == '-') then s[1..] else s
  }

  /** The longest run of digits that `s` starts with. */
  function LeadingDigits(s: string): (r: string)
    ensures |r| <= |s| && AllDigits(r) && r == s[..|r|]
    ensures |r| < |s| ==> !IsDigit(s[|r|])
    ensures AllDigits(s) ==> r == s
  {
    if s == [] || !IsDigit(s[0]) then [] else [s[0]] + LeadingDigits(s[1..])
  }

  /** The value strconv.Atoi returns, whatever its error. The digits after an optional sign
      are read left to right: a non-digit is a syntax error and gives 0, unless the digits
      before it already exceed the uint64 range, which is reported first as a range error; a
      range error gives the bound of the sign's direction. */
  function Atoi(s: string): (n: int)
    ensures MinInt64 <= n <= MaxInt64
  {
    var body := Unsigned(s);
    var run := LeadingDigits(body);
    if body == [] || (|run| < |body| && DigitsValue(run) <= MaxUint64) then 0
    else if s[0] == '-' then Clamp(-(DigitsValue(run) as int))
    else Clamp(DigitsValue(run))
  }

  /** %v of a non-negative integer: its decimal digits without leading zeros. */
  function NatToString(n: nat): (r: string)
    ensures r != [] && AllDigits(r)
  {
    if n < 10 then [DigitChar(n)] else NatToString(n / 10) + [DigitChar(n % 10)]
  }

  /** %v of an integer. */
  function IntToString(n: int): string {
    if n < 0 then "-" + NatToString(-n) else NatToString(n)
  }

  lemma {:induction false} DigitsOfNatToString(n: nat)
    ensures DigitsValue(NatToString(n)) == n
  {
    var r := NatToString(n);
    if n >= 10 {
      DigitsOfNatToString(n / 10);
      assert r[..|r| - 1] == NatToString(n / 10);
    }
  }

  /** Reading back what %v printed gives the same integer, for every 64-bit value. */
  lemma AtoiRoundTrip(n: int)
    requires MinInt64 <= n <= MaxInt64
    ensures Atoi(IntToString(n)) == n
  {
    var s := IntToString(n);
    if n < 0 {
      DigitsOfNatToString(-n);
      assert Unsigned(s) == NatToString(-n);
    } else {
      DigitsOfNatToString(n);
    }
  }

  /** Text with a non-digit after its first character reads as 0, as long as the digits before
      the first non-digit stay within the uint64 range. */
  lemma AtoiOfNonNumber(s: string, k: nat)
    requires 0 < k < |s| && !IsDigit(s[k])
    requires DigitsValue(LeadingDigits(Unsigned(s))) <= MaxUint64
    ensures Atoi(s) == 0
  {
    var body := Unsigned(s);
    var run := LeadingDigits(body);
    var j := if |body| < |s| then k - 1 else k;
    assert body[j] == s[k];
    assert |run| <= j;
  }

  /** Digits that overflow uint64 before any non-digit give the bound of the sign's direction,
      whatever follows them. */
  lemma AtoiOfOverflow(s: string)
    requires DigitsValue(LeadingDigits(Unsigned(s))) > MaxUint64
    ensures |s| > 0 && Atoi(s) == (if s[0] == '-' then MinInt64 else MaxInt64)
  {
    var run := LeadingDigits(Unsigned(s));
    assert run != [];
  }
}
