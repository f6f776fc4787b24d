/** The rendered text of a number determines its exact value, and is determined by it. */
module NumberText {
  import opened Bytes
  import opened Decimals
  import opened Numbers

  /** The digits of `m` with at least one before the last `k`, and a point there. */
  function Width(m: nat, k: nat): (n: nat)
    ensures n > k && n >= NumDigits(m)
  {
    if NumDigits(m) > k then NumDigits(m) else k + 1
  }

  function Dotted(m: nat, k: nat): string {
    var d := Digits(m, Width(m, k));
    d[..|d| - k] + ("." + d[|d| - k..])
  }

  function NormalText(n: Normal): string {
    (if n.neg then "-" else "") + if n.places == 0 then Dec(n.m) else Dotted(n.m, n.places)
  }

  // ---------- rendering reaches the normal text ----------

  lemma {:induction false} DigitsPad(m: nat, n: nat, extra: nat)
    requires m < Pow10(n)
    ensures Digits(m, n + extra) == Zeros(extra) + Digits(m, n)
    decreases n + extra
  {
    if n == 0 {
      if extra > 0 {
        DigitsPad(m, 0, extra - 1);
        assert Zeros(extra) == Zeros(extra - 1) + "0";
      }
    } else {
      DigitsPad(m / 10, n - 1, extra);
    }
  }

  lemma FixedPointDotted(c: nat, k: nat)
    requires k > 0
    ensures FixedPoint(c, k) == Dotted(c, k)
  {
    var digits := Dec(c);
    var n := NumDigits(c);
    var dot := n - k;
    NumDigitsFits(c);
    if dot <= 0 {
      DigitsPad(c, n, 1 - dot);
      var d := Zeros(1 - dot) + digits;
      assert d[..1] == "0";
      assert d[1..] == Zeros(-dot) + digits;
    }
  }

  lemma TenTimes(c: nat, p: nat)
    requires c > 0 && p > 0
    ensures c * (10 * p) == 10 * (c * p) && c * p > 0
  {
    MulStrict(0, c, p);
  }

  lemma DecTimes10(m: nat)
    requires m > 0
    ensures Dec(10 * m) == Dec(m) + "0"
  {
    NumDigitsTimes10(m);
    DigitsTimes10(m, NumDigits(m));
  }

  lemma {:induction false} DecTimesPow10(c: nat, e: nat)
    requires c > 0
    ensures Dec(c) + Zeros(e) == Dec(c * Pow10(e))
  {
    hide Dec;
    if e > 0 {
      DecTimesPow10(c, e - 1);
      TenTimes(c, Pow10(e - 1));
      DecTimes10(c * Pow10(e - 1));
      assert Zeros(e) == Zeros(e - 1) + "0";
    }
  }

  /** One trailing zero fewer. */
  lemma DottedTimes10(m: nat, k: nat)
    requires m > 0 && k > 0
    ensures Dotted(10 * m, k) == Dotted(m, k - 1) + "0"
  {
    NumDigitsTimes10(m);
    var n := Width(m, k - 1);
    assert Width(10 * m, k) == n + 1;
    DigitsTimes10(m, n);
    var d := Digits(m, n);
    var d' := d + "0";
    assert d'[..n + 1 - k] == d[..n - (k - 1)];
    assert d'[n + 1 - k..] == d[n - (k - 1)..] + "0";
  }

  function Stripped(t: string): string { StripRight(StripRight(t, '0'), '.') }

  lemma StripZero(t: string)
    ensures Stripped(t + "0") == Stripped(t)
  {
    assert (t + "0")[..|t|] == t;
  }

  lemma StripPoint(m: nat)
    ensures Stripped(Dotted(m, 0)) == Dec(m)
  {
    var d := Dec(m);
    var t := d + ".";
    assert Dotted(m, 0) == t;
    assert t[|t| - 1] == '.' && t[..|t| - 1] == d;
    assert StripRight(t, '0') == t;
    assert IsDigit(d[|d| - 1]);
    assert StripRight(t, '.') == StripRight(d, '.') == d;
  }

  lemma StripNothing(m: nat, k: nat)
    requires k > 0 && m % 10 != 0
    ensures Stripped(Dotted(m, k)) == Dotted(m, k)
  {
    var n := Width(m, k);
    var d := Digits(m, n);
    var t := Dotted(m, k);
    assert d[n - 1] == DigitChar(m % 10);
    assert t[|t| - 1] == d[n - k..][k - 1] == d[n - 1];
  }

  lemma {:induction false} StripReduces(c: nat, k: nat)
    requires c > 0
    ensures var r := Reduce(c, k);
            Stripped(Dotted(c, k)) == if r.1 == 0 then Dec(r.0) else Dotted(r.0, r.1)
    decreases k
  {
    if k == 0 {
      StripPoint(c);
    } else if c % 10 == 0 {
      assert c == 10 * (c / 10);
      DottedTimes10(c / 10, k);
      StripZero(Dotted(c / 10, k - 1));
      StripReduces(c / 10, k - 1);
    } else {
      StripNothing(c, k);
    }
  }

  /** Rendering prints the normal form. */
  lemma RenderNormal(d: Decimal)
    ensures Render(d) == NormalText(Normalize(d))
  {
    if d.coeff == 0 {
      assert Digits(0, 1) == Digits(0, 0) + "0";
      assert Dec(0) == "0";
    } else if d.exp >= 0 {
      DecTimesPow10(d.coeff, d.exp);
    } else {
      FixedPointDotted(d.coeff, -d.exp);
      StripReduces(d.coeff, -d.exp);
    }
  }

  // ---------- the text determines the normal form ----------

  predicate IsNumberChar(c: char) { IsDigit(c) || c == '.' }

  /** The text of the absolute value. */
  function Unsigned(n: Normal): string { if n.places == 0 then Dec(n.m) else Dotted(n.m, n.places) }

  lemma UnsignedChars(n: Normal)
    ensures Unsigned(n) != "" && IsDigit(Unsigned(n)[0])
    ensures forall i :: 0 <= i < |Unsigned(n)| ==> IsNumberChar(Unsigned(n)[i])
  {
    if n.places > 0 {
      var d := Digits(n.m, Width(n.m, n.places));
      var w := |d| - n.places;
      assert Unsigned(n)[0] == d[..w][0] == d[0];
      forall i | 0 <= i < |Unsigned(n)| ensures IsNumberChar(Unsigned(n)[i]) {
        if i < w { assert Unsigned(n)[i] == d[i]; }
        if i > w { assert Unsigned(n)[i] == d[w..][i - w - 1]; }
      }
    }
  }

  /** Where the point stands: `places` from the end, or nowhere. */
  lemma PointAt(n: Normal)
    requires n.places > 0
    ensures var d := Digits(n.m, Width(n.m, n.places));
            var t := Unsigned(n);
            && |t| == |d| + 1
            && (forall i :: 0 <= i < |t| ==> (t[i] == '.' <==> i == |d| - n.places))
            && t[..|d| - n.places] + t[|d| - n.places + 1..] == d
  {
    var d := Digits(n.m, Width(n.m, n.places));
    var w := |d| - n.places;
    var t := Unsigned(n);
    forall i | 0 <= i < |t| ensures t[i] == '.' <==> i == w {
      if i < w { assert t[i] == d[i]; }
      if i > w { assert t[i] == d[w..][i - w - 1]; }
    }
    assert t[..w] == d[..w] && t[w + 1..] == d[w..];
  }

  lemma HasPoint(n: Normal)
    ensures '.' in Unsigned(n) <==> n.places > 0
  {
    if n.places > 0 {
      PointAt(n);
      assert Unsigned(n)[|Unsigned(n)| - 1 - n.places] == '.';
    }
  }

  lemma UnsignedInjective(a: Normal, b: Normal)
    requires Unsigned(a) == Unsigned(b)
    ensures a.m == b.m && a.places == b.places
  {
    var t := Unsigned(a);
    if a.places > 0 { PointAt(a); }
    if b.places > 0 { PointAt(b); }
    HasPoint(a);
    HasPoint(b);
    if a.places == 0 {
      DecInjective(a.m, b.m);
    } else {
      var w := |t| - 1 - a.places;
      assert t[w] == '.';
      WidthVal(a.m, a.places);
      WidthVal(b.m, b.places);
    }
  }

  lemma WidthVal(m: nat, k: nat)
    ensures Val(Digits(m, Width(m, k))) == m
  {
    NumDigitsFits(m);
    Pow10Grows(NumDigits(m), Width(m, k));
    ValDigits(m, Width(m, k));
  }
}
