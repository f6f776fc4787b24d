/** Canonical numbers of `images-attestations.py`: exact decimals, rendered in fixed point without
    trailing zeros. */
module Numbers {
  import opened Decimals

  /** A finite decimal: sign, coefficient, exponent. */
  datatype Decimal = Decimal(neg: bool, coeff: nat, exp: int)

  const MAX_DIGITS := 1024
  const MAX_ADJUSTED := 4096

  predicate InRange(d: Decimal) {
    var adjusted := d.exp + NumDigits(d.coeff) - 1;
    NumDigits(d.coeff) <= MAX_DIGITS && -MAX_ADJUSTED <= adjusted <= MAX_ADJUSTED
  }

  /** The coefficient of `d` at a smaller exponent. */
  function Scaled(d: Decimal, e: int): nat
    requires e <= d.exp
  {
    d.coeff * Pow10(d.exp - e)
  }

  function MinExp(a: Decimal, b: Decimal): int { if a.exp < b.exp then a.exp else b.exp }

  /** Equality of exact values; the sign of zero does not count. */
  predicate SameNumber(a: Decimal, b: Decimal) {
    Scaled(a, MinExp(a, b)) == Scaled(b, MinExp(a, b)) && (a.neg == b.neg || a.coeff == 0)
  }

  // ---------- rendering ----------

  function Zeros(n: nat): (z: string)
    ensures |z| == n && forall i :: 0 <= i < n ==> z[i] == '0'
  {
    seq(n, _ => '0')
  }

  /** Fixed-point form of a decimal with `k > 0` places. */
  function FixedPoint(c: nat, k: nat): string {
    var digits := Dec(c);
    var dot := |digits| - k;
    var whole := if dot <= 0 then "0" else digits[..dot];
    var fraction := if dot < 0 then Zeros(-dot) + digits else digits[dot..];
    whole + ("." + fraction)
  }

  function StripRight(t: string, c: char): string {
    if t != "" && t[|t| - 1] == c then StripRight(t[..|t| - 1], c) else t
  }

  /** The number branch of `encode`. */
  function Render(d: Decimal): string {
    if d.coeff == 0 then "0"
    else
      (if d.neg then "-" else "") +
      if d.exp >= 0 then Dec(d.coeff) + Zeros(d.exp)
      else StripRight(StripRight(FixedPoint(d.coeff, -d.exp), '0'), '.')
  }

  // ---------- the normal form ----------

  /** `m / 10^places`, with as few places as possible. */
  datatype Normal = Normal(neg: bool, m: nat, places: nat)

  predicate Reduced(n: Normal) {
    (n.places > 0 ==> n.m % 10 != 0) && (n.m == 0 ==> !n.neg && n.places == 0)
  }

  function Reduce(c: nat, k: nat): (r: (nat, nat))
    requires c > 0
    ensures r.0 > 0 && r.1 <= k && (r.1 > 0 ==> r.0 % 10 != 0)
    decreases k
  {
    if k > 0 && c % 10 == 0 then Reduce(c / 10, k - 1) else (c, k)
  }

  function Normalize(d: Decimal): (n: Normal)
    ensures Reduced(n)
  {
    if d.coeff == 0 then Normal(false, 0, 0)
    else if d.exp >= 0 then Normal(d.neg, d.coeff * Pow10(d.exp), 0)
    else var r := Reduce(d.coeff, -d.exp); Normal(d.neg, r.0, r.1)
  }

  /** At any large enough scale, `d` and its normal form are the same integer. */
  lemma {:induction false} ReduceValue(c: nat, k: nat, scale: nat)
    requires c > 0 && k <= scale
    ensures var r := Reduce(c, k); c * Pow10(scale - k) == r.0 * Pow10(scale - r.1)
    decreases k
  {
    if k > 0 && c % 10 == 0 {
      ReduceValue(c / 10, k - 1, scale);
      assert c / 10 * 10 == c;
      assert c / 10 * (10 * Pow10(scale - k)) == (c / 10 * 10) * Pow10(scale - k);
    }
  }

  lemma NormalizeValue(d: Decimal, scale: nat)
    requires scale + d.exp >= 0
    ensures var n := Normalize(d);
            n.places <= scale && d.coeff * Pow10(d.exp + scale) == n.m * Pow10(scale - n.places)
  {
    if d.coeff != 0 {
      if d.exp >= 0 {
        Pow10Add(d.exp, scale);
        assert d.coeff * (Pow10(d.exp) * Pow10(scale)) == d.coeff * Pow10(d.exp) * Pow10(scale);
      } else {
        ReduceValue(d.coeff, -d.exp, scale);
      }
    }
  }

  lemma MulStrict(a: nat, b: nat, p: nat)
    requires a < b && p > 0
    ensures a * p < b * p
  {}

  lemma CancelPow10(a: nat, b: nat, n: nat)
    ensures a * Pow10(n) == b * Pow10(n) <==> a == b
  {
    if a < b { MulStrict(a, b, Pow10(n)); }
    if b < a { MulStrict(b, a, Pow10(n)); }
  }

  lemma ScaledAt(d: Decimal, e: int, scale: nat)
    requires e <= d.exp && scale + e >= 0
    ensures d.coeff * Pow10(d.exp + scale) == Scaled(d, e) * Pow10(e + scale)
  {
    Pow10Add(d.exp - e, e + scale);
    assert d.coeff * (Pow10(d.exp - e) * Pow10(e + scale)) == d.coeff * Pow10(d.exp - e) * Pow10(e + scale);
  }

  lemma TenDivides(m: nat, n: nat)
    requires n > 0
    ensures m * Pow10(n) % 10 == 0
  {
    assert m * (10 * Pow10(n - 1)) == 10 * (m * Pow10(n - 1));
  }

  /** Reduced forms of equal value at some scale are equal. */
  lemma ReducedUnique(a: Normal, b: Normal, scale: nat)
    requires Reduced(a) && Reduced(b) && a.places <= b.places <= scale
    requires a.m * Pow10(scale - a.places) == b.m * Pow10(scale - b.places)
    ensures a.m == b.m && a.places == b.places
  {
    hide Pow10;
    var gap := b.places - a.places;
    Pow10Add(gap, scale - b.places);
    MulAssoc(a.m, Pow10(gap), Pow10(scale - b.places));
    CancelPow10(a.m * Pow10(gap), b.m, scale - b.places);
    if gap > 0 {
      TenDivides(a.m, gap);
    } else {
      PowZero();
    }
  }

  lemma PowZero()
    ensures Pow10(0) == 1
  {}

  lemma MulAssoc(a: nat, b: nat, c: nat)
    ensures a * (b * c) == a * b * c
  {}

  /** Two decimals are equal exactly when their normal forms are. */
  lemma SameNumberNormal(a: Decimal, b: Decimal)
    ensures SameNumber(a, b) <==> Normalize(a) == Normalize(b)
  {
    var e := MinExp(a, b);
    var scale: nat := if e < 0 then -e else 0;
    NormalizeValue(a, scale);
    NormalizeValue(b, scale);
    ScaledAt(a, e, scale);
    ScaledAt(b, e, scale);
    CancelPow10(Scaled(a, e), Scaled(b, e), e + scale);
    var m, n := Normalize(a), Normalize(b);
    if m.m * Pow10(scale - m.places) == n.m * Pow10(scale - n.places) {
      if m.places <= n.places { ReducedUnique(m, n, scale); } else { ReducedUnique(n, m, scale); }
    }
    ZeroScaled(a, e);
    ZeroScaled(b, e);
  }

  lemma ZeroScaled(d: Decimal, e: int)
    requires e <= d.exp
    ensures Scaled(d, e) == 0 <==> d.coeff == 0
    ensures Normalize(d).m == 0 <==> d.coeff == 0
  {
    hide Pow10;
    if d.coeff > 0 {
      MulStrict(0, d.coeff, Pow10(d.exp - e));
      if d.exp >= 0 { MulStrict(0, d.coeff, Pow10(d.exp)); }
    }
  }
}
