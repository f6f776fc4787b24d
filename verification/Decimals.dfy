/** Decimal numerals: printing, reading back, and trailing zeros. */
module Decimals {
  import opened Bytes

  function Pow10(n: nat): (p: nat)
    ensures p > 0
  {
    if n == 0 then 1 else 10 * Pow10(n - 1)
  }

  function DigitChar(d: nat): (c: char)
    requires d < 10
    ensures IsDigit(c) && c as int - '0' as int == d
  {
    ('0' as int + d) as char
  }

  /** The last `n` decimal digits of `m`, with leading zeros. */
  function Digits(m: nat, n: nat): (t: string)
    ensures |t| == n && forall i :: 0 <= i < n ==> IsDigit(t[i])
    decreases n
  {
    if n == 0 then "" else Digits(m / 10, n - 1) + [DigitChar(m % 10)]
  }

  /** Number of digits of `m`, at least one. */
  function NumDigits(m: nat): (n: nat)
    ensures n > 0
  {
    if m < 10 then 1 else 1 + NumDigits(m / 10)
  }

  function Dec(m: nat): string { Digits(m, NumDigits(m)) }

  function DigitOf(c: char): (d: nat)
    requires IsDigit(c)
    ensures d < 10
  {
    c as int - '0' as int
  }

  /** The number a digit string stands for. */
  function Val(t: string): nat
    requires AllDigits(t)
  {
    if t == "" then 0 else 10 * Val(t[..|t| - 1]) + DigitOf(t[|t| - 1])
  }

  lemma {:induction false} NumDigitsFits(m: nat)
    ensures m < Pow10(NumDigits(m))
    ensures m > 0 ==> Pow10(NumDigits(m) - 1) <= m
  {
    if m >= 10 { NumDigitsFits(m / 10); }
  }

  lemma {:induction false} FewDigits(m: nat, n: nat)
    requires n > 0 && m < Pow10(n)
    ensures NumDigits(m) <= n
  {
    if m >= 10 { FewDigits(m / 10, n - 1); }
  }

  lemma ValAppend(t: string, d: nat)
    requires AllDigits(t) && d < 10
    ensures AllDigits(t + [DigitChar(d)]) && Val(t + [DigitChar(d)]) == 10 * Val(t) + d
  {
    assert (t + [DigitChar(d)])[..|t|] == t;
  }

  lemma {:induction false} ValDigits(m: nat, n: nat)
    requires m < Pow10(n)
    ensures Val(Digits(m, n)) == m
  {
    if n > 0 {
      ValDigits(m / 10, n - 1);
      ValAppend(Digits(m / 10, n - 1), m % 10);
    }
  }

  /** A numeral can be read back, so different numbers have different numerals. */
  lemma ValDec(m: nat)
    ensures Val(Dec(m)) == m
  {
    NumDigitsFits(m);
    ValDigits(m, NumDigits(m));
  }

  lemma DecInjective(m: nat, n: nat)
    requires Dec(m) == Dec(n)
    ensures m == n
  {
    ValDec(m);
    ValDec(n);
  }

  lemma TenAssociates(p: nat, q: nat)
    ensures 10 * (p * q) == (10 * p) * q
  {}

  lemma {:induction false} Pow10Add(a: nat, b: nat)
    ensures Pow10(a + b) == Pow10(a) * Pow10(b)
  {
    if a > 0 {
      Pow10Add(a - 1, b);
      TenAssociates(Pow10(a - 1), Pow10(b));
    }
  }

  lemma {:induction false} Pow10Grows(a: nat, b: nat)
    requires a <= b
    ensures Pow10(a) <= Pow10(b)
  {
    if a < b { Pow10Grows(a, b - 1); }
  }

  /** A tenfold has one more digit, a zero. */
  lemma DigitsTimes10(m: nat, n: nat)
    ensures Digits(10 * m, n + 1) == Digits(m, n) + "0"
  {
    assert 10 * m / 10 == m && 10 * m % 10 == 0;
  }

  lemma NumDigitsTimes10(m: nat)
    requires m > 0
    ensures NumDigits(10 * m) == NumDigits(m) + 1
  {
    assert 10 * m / 10 == m;
  }
}
