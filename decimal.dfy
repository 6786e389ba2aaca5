/**
 * Kotlin's decimal rendering of an `Int` (`Int.toString()`, which string
 * templates such as `"data/$projectId"` use), and the fact that it is
 * injective: two different ids never render to the same text.
 */
module Decimal {

  /** A Kotlin `Int`: a 32-bit two's-complement integer. */
  type Int32 = x: int | -0x8000_0000 <= x < 0x8000_0000

  predicate IsDigit(c: char) {
    '0' <= c <= '9'
  }

  function DigitChar(d: nat): (c: char)
    requires d < 10
    ensures IsDigit(c)
  {
    ('0' as int + d) as char
  }

  /** The decimal digits of `n`, most significant first, without leading zeros. */
  function Digits(n: nat): (s: string)
    ensures |s| >= 1 && forall k :: 0 <= k < |s| ==> IsDigit(s[k])
    ensures |s| == 1 <==> n < 10
    ensures n > 0 ==> s[0] != '0'
  {
    if n < 10 then [DigitChar(n)] else Digits(n / 10) + [DigitChar(n % 10)]
  }

  /** `Int.toString()`: a '-' for negative values, then the digits of the magnitude. */
  function IntToString(i: int): (s: string)
    ensures |s| >= 1
    ensures s[0] == '-' <==> i < 0
    ensures forall k :: 0 < k < |s| ==> IsDigit(s[k])
    ensures '/' !in s
  {
    if i < 0 then "-" + Digits(-i) else Digits(i)
  }

  lemma {:induction false} DigitsInjective(a: nat, b: nat)
    requires Digits(a) == Digits(b)
    ensures a == b
  {
    if a >= 10 {
      var s := Digits(a);
      assert s == Digits(a / 10) + [DigitChar(a % 10)];
      assert s == Digits(b / 10) + [DigitChar(b % 10)];
      assert Digits(a / 10) == s[..|s| - 1] == Digits(b / 10);
      DigitsInjective(a / 10, b / 10);
      assert DigitChar(a % 10) == s[|s| - 1] == DigitChar(b % 10);
    }
  }

  /** Different integers render to different decimal texts. */
  lemma IntToStringInjective(i: int, j: int)
    requires i != j
    ensures IntToString(i) != IntToString(j)
  {
    if IntToString(i) == IntToString(j) {
      var s := IntToString(i);
      if i < 0 {
        assert Digits(-i) == s[1..] == Digits(-j);
        DigitsInjective(-i, -j);
      } else {
        DigitsInjective(i, j);
      }
    }
  }
}
