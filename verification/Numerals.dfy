/** Decimal and hexadecimal numerals as both services print them. */
module Numerals {

  function DigitValue(c: char): int {
    if c <= '9' then c as int - '0' as int else c as int - 'a' as int + 10
  }

  function Digit(n: nat): (c: char)
    requires n < 16
    ensures '0' <= c <= '9' || 'a' <= c <= 'f'
    ensures n < 10 ==> '0' <= c <= '9' && c as int - '0' as int == n
    ensures DigitValue(c) == n
  {
    if n < 10 then '0' + n as char else 'a' + (n - 10) as char
  }

  /** `%d` of a non-negative number. */
  function Decimal(n: nat): string {
    if n < 10 then [Digit(n)] else Decimal(n / 10) + [Digit(n % 10)]
  }

  /** `%d` of a signed number. */
  function SignedDecimal(t: int): string {
    if t < 0 then "-" + Decimal(-t) else Decimal(t)
  }

  function Pow10(k: nat): nat {
    if k == 0 then 1 else 10 * Pow10(k - 1)
  }

  lemma {:induction false} DecimalShape(n: nat, k: nat)
    requires k >= 1 && n < Pow10(k)
    ensures 1 <= |Decimal(n)| <= k && forall i | 0 <= i < |Decimal(n)| :: '0' <= Decimal(n)[i] <= '9'
  {
    if n >= 10 { DecimalShape(n / 10, k - 1); }
  }

  /** The number a decimal numeral denotes. */
  function NumeralValue(s: string): int {
    if s == "" then 0 else 10 * NumeralValue(s[..|s| - 1]) + (s[|s| - 1] as int - '0' as int)
  }

  lemma {:induction false} DecimalDenotes(n: nat)
    ensures Decimal(n) != "" && '-' !in Decimal(n) && NumeralValue(Decimal(n)) == n
  {
    var s := Decimal(n);
    if n < 10 {
      assert s[..0] == "";
    } else {
      DecimalDenotes(n / 10);
      assert s[..|s| - 1] == Decimal(n / 10);
    }
  }

  /** The number a signed decimal numeral denotes. */
  function SignedValue(s: string): int {
    if s != "" && s[0] == '-' then -NumeralValue(s[1..]) else NumeralValue(s)
  }

  lemma SignedDecimalDenotes(t: int)
    ensures SignedValue(SignedDecimal(t)) == t
  {
    var n := if t < 0 then -t else t;
    DecimalDenotes(n);
    assert t < 0 ==> SignedDecimal(t)[1..] == Decimal(n);
    assert Decimal(n)[0] in Decimal(n);
  }

  lemma SignedDecimalInjective(s: int, t: int)
    requires SignedDecimal(s) == SignedDecimal(t)
    ensures s == t
  {
    var m, n := if s < 0 then -s else s, if t < 0 then -t else t;
    DecimalDenotes(m);
    DecimalDenotes(n);
    assert s < 0 ==> SignedDecimal(s)[0] == '-' && SignedDecimal(s)[1..] == Decimal(m);
    assert t < 0 ==> SignedDecimal(t)[0] == '-' && SignedDecimal(t)[1..] == Decimal(n);
  }

  lemma PowersOfTen()
    ensures Pow10(19) == 10_000_000_000_000_000_000 && Pow10(20) == 100_000_000_000_000_000_000
  {
    assert Pow10(5) == 100_000;
    assert Pow10(10) == 10_000_000_000;
    assert Pow10(15) == 1_000_000_000_000_000;
  }

  /** `n` in hexadecimal, padded to `width` digits. */
  function FixedHex(n: nat, width: nat): (s: string)
    ensures |s| == width
  {
    if width == 0 then "" else FixedHex(n / 16, width - 1) + [Digit(n % 16)]
  }

  function HexValue(s: string): int {
    if s == "" then 0 else 16 * HexValue(s[..|s| - 1]) + DigitValue(s[|s| - 1])
  }

  function Pow16(k: nat): nat {
    if k == 0 then 1 else 16 * Pow16(k - 1)
  }

  lemma {:induction false} FixedHexDenotes(n: nat, width: nat)
    requires n < Pow16(width)
    ensures HexValue(FixedHex(n, width)) == n
  {
    if width > 0 {
      FixedHexDenotes(n / 16, width - 1);
      var s := FixedHex(n, width);
      assert s[..|s| - 1] == FixedHex(n / 16, width - 1);
    }
  }
}
