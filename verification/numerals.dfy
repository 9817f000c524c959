/** Numbers as text, without leading zeros. */
module Numerals {
  import opened Basics

  function DigitChar(d: nat): char
    requires d < 16
  {
    "0123456789abcdef"[d]
  }

  function Decimal(n: nat): (s: string)
    ensures s != ""
  {
    if n < 10 then [DigitChar(n)] else Decimal(n / 10) + [DigitChar(n % 10)]
  }

  function Hexadecimal(n: nat): (s: string)
    ensures s != ""
  {
    if n < 16 then [DigitChar(n)] else Hexadecimal(n / 16) + [DigitChar(n % 16)]
  }

  predicate IsDigitChar(c: char) {
    '0' <= c <= '9' || 'a' <= c <= 'f'
  }

  lemma DigitCharIsDigit(d: nat)
    requires d < 16
    ensures IsDigitChar(DigitChar(d))
    ensures d < 10 ==> '0' <= DigitChar(d) <= '9'
  {
  }

  lemma DigitCharInjective(c: nat, d: nat)
    requires c < 16 && d < 16 && DigitChar(c) == DigitChar(d)
    ensures c == d
  {
  }

  lemma {:induction false} DecimalDigits(n: nat)
    ensures forall c | c in Decimal(n) :: '0' <= c <= '9' && IsDigitChar(c)
  {
    hide DigitChar;
    DigitCharIsDigit(n % 10);
    if n >= 10 {
      DecimalDigits(n / 10);
    }
  }

  lemma {:induction false} HexadecimalDigits(n: nat)
    ensures forall c | c in Hexadecimal(n) :: IsDigitChar(c)
  {
    hide DigitChar;
    DigitCharIsDigit(n % 16);
    if n >= 16 {
      HexadecimalDigits(n / 16);
    }
  }

  lemma {:induction false} DecimalInjective(m: nat, n: nat)
    requires Decimal(m) == Decimal(n)
    ensures m == n
  {
    hide DigitChar;
    var x, y := Decimal(m), Decimal(n);
    assert x[|x| - 1] == DigitChar(m % 10) && y[|y| - 1] == DigitChar(n % 10);
    DigitCharInjective(m % 10, n % 10);
    if m >= 10 && n >= 10 {
      assert x[..|x| - 1] == Decimal(m / 10) && y[..|y| - 1] == Decimal(n / 10);
      DecimalInjective(m / 10, n / 10);
    }
  }
}
