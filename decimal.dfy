/**
 * How an integer channel argument becomes text: `Variant::toInt32` keeps the
 * low 32 bits of the PHP integer, and `std::to_string` writes that int32 in
 * base 10 with a leading '-' for negatives and no leading zeros.
 */
module Decimal {

  const TwoTo32: int := 0x1_0000_0000
  const Int32Min: int := -0x8000_0000
  const Int32Max: int := 0x7fff_ffff

  /** `Variant::toInt32`: two's-complement truncation to 32 bits. */
  function ToInt32(i: int): (r: int)
    ensures Int32Min <= r <= Int32Max
    ensures Int32Min <= i <= Int32Max ==> r == i
    ensures (i - r) % TwoTo32 == 0
  {
    var m := i % TwoTo32;
    assert i == (i / TwoTo32) * TwoTo32 + m;
    if m > Int32Max then m - TwoTo32 else m
  }

  function DigitChar(d: int): (c: char)
    requires 0 <= d < 10
    ensures '0' <= c <= '9'
  {
    ('0' as int + d) as char
  }

  predicate IsDigits(s: string)
  {
    forall i :: 0 <= i < |s| ==> '0' <= s[i] <= '9'
  }

  /** Base-10 text of a natural number, most significant digit first. */
  function NatText(n: nat): (s: string)
    ensures |s| > 0 && IsDigits(s)
    ensures s[0] == '0' ==> n == 0
    decreases n
  {
    if n < 10 then [DigitChar(n)] else NatText(n / 10) + [DigitChar(n % 10)]
  }

  /**
   * `std::to_string(int)`: a '-' exactly for negatives, then digits with no
   * leading zero (zero itself is "0").
   */
  function ToString(n: int): (s: string)
    ensures n < 0 ==> |s| >= 2 && s[0] == '-' && IsDigits(s[1..]) && s[1] != '0'
    ensures n >= 0 ==> |s| > 0 && IsDigits(s) && (s[0] == '0' ==> s == "0")
  {
    if n < 0 then
      assert ("-" + NatText(-n))[1..] == NatText(-n);
      "-" + NatText(-n)
    else
      NatText(n)
  }

  /** Reads back a string of digits (the inverse of NatText). */
  function ParseNat(s: string): int
  {
    if s == [] then 0 else ParseNat(s[..|s| - 1]) * 10 + (s[|s| - 1] as int - '0' as int)
  }

  /** Reads back an optionally signed string of digits (the inverse of ToString). */
  function ParseInt(s: string): int
  {
    if |s| > 0 && s[0] == '-' then -ParseNat(s[1..]) else ParseNat(s)
  }

  lemma {:induction false} ParseNatText(n: nat)
    ensures ParseNat(NatText(n)) == n
  {
    var s := NatText(n);
    if n >= 10 {
      assert s[..|s| - 1] == NatText(n / 10);
      ParseNatText(n / 10);
    }
  }

  /** Reading the decimal text back gives the number: the text determines it. */
  lemma ParseToString(n: int)
    ensures ParseInt(ToString(n)) == n
  {
    if n < 0 {
      assert ToString(n)[1..] == NatText(-n);
      ParseNatText(-n);
    } else {
      ParseNatText(n);
    }
  }

  /** Different integers never share a decimal text. */
  lemma ToStringInjective(a: int, b: int)
    requires ToString(a) == ToString(b)
    ensures a == b
  {
    ParseToString(a);
    ParseToString(b);
  }
}
