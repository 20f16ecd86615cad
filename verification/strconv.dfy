/** Decimal integer text: fmt's %d and strconv.Atoi on 64-bit ints. */
module Strconv {

  const MinInt64: int := -0x8000_0000_0000_0000
  const MaxInt64: int := 0x7FFF_FFFF_FFFF_FFFF

  predicate IsDigit(c: char) { '0' <= c <= '9' }

  predicate AllDigits(s: string)
  {
    forall i :: 0 <= i < |s| ==> IsDigit(s[i])
  }

  function DigitValue(c: char): nat
    requires IsDigit(c)
  {
    c as int - '0' as int
  }

  function DigitChar(d: nat): (c: char)
    requires d < 10
    ensures IsDigit(c) && DigitValue(c) == d
  {
    ('0' as int + d) as char
  }

  /** The value of a digit string, most significant digit first ("" is 0). */
  function Value(s: string): nat
    requires AllDigits(s)
    decreases |s|
  {
    if s == [] then 0 else 10 * Value(s[..|s| - 1]) + DigitValue(s[|s| - 1])
  }

  /** The shortest digit string of n: no leading zero, "0" for zero. */
  function Digits(n: nat): (r: string)
    ensures |r| >= 1 && AllDigits(r)
    ensures Value(r) == n
    ensures r[0] != '0' || n == 0
    decreases n
  {
    if n < 10 then [DigitChar(n)]
    else
      var r := Digits(n / 10) + [DigitChar(n % 10)];
      assert r[..|r| - 1] == Digits(n / 10);
      r
  }

  /** Text that strconv.Atoi reads without a syntax error: an optional sign and at least one digit. */
  predicate IsIntText(s: string)
  {
    (|s| >= 1 && AllDigits(s)) || (|s| >= 2 && (s[0] == '-' || s[0] == '+') && AllDigits(s[1..]))
  }

  /** The exact value of integer text, before any range check. */
  function SignedValue(s: string): int
    requires IsIntText(s)
  {
    if s[0] == '-' then -(Value(s[1..]) as int)
    else if s[0] == '+' then Value(s[1..])
    else Value(s)
  }

  /** The nearest int64: strconv reports a range error and returns the bound it passed. */
  function Clamp64(v: int): (r: int)
    ensures MinInt64 <= r <= MaxInt64
    ensures MinInt64 <= v <= MaxInt64 ==> r == v
  {
    if v < MinInt64 then MinInt64 else if v > MaxInt64 then MaxInt64 else v
  }

  /** strconv.Atoi on a 64-bit platform, over text without a syntax error; a range error is
      ignored by the callers here, so only the clamped value matters. */
  function Atoi(s: string): int
    requires IsIntText(s)
  {
    Clamp64(SignedValue(s))
  }

  /** fmt's %d: a minus sign before the digits of a negative number. */
  function FormatInt(n: int): (r: string)
    ensures IsIntText(r) && r[0] != '+'
    ensures SignedValue(r) == n
  {
    if n < 0 then
      var r := "-" + Digits(-n);
      assert r[1..] == Digits(-n);
      r
    else Digits(n)
  }

  /** Two integers format alike only when they are equal. */
  lemma FormatIntInjective(a: int, b: int)
    requires FormatInt(a) == FormatInt(b)
    ensures a == b
  {
    assert SignedValue(FormatInt(a)) == a;
  }

  /** Atoi reads back what %d wrote, for every int64. */
  lemma AtoiFormatInt(n: int)
    requires MinInt64 <= n <= MaxInt64
    ensures Atoi(FormatInt(n)) == n
  {
  }

  /** Formatted integers never hold a separator character. */
  lemma FormatIntChars(n: int)
    ensures forall i :: 0 <= i < |FormatInt(n)| ==> IsDigit(FormatInt(n)[i]) || (i == 0 && FormatInt(n)[i] == '-')
  {
  }
}
