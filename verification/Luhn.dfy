/** The Luhn check of `text.go` against its positional definition (ISO/IEC 7812-1, Annex B). */
module Luhn {
  import opened Bytes
  import opened Decimals

  predicate AllZero(d: string) { forall i :: 0 <= i < |d| ==> d[i] == '0' }

  /** The weight of a digit: doubled digits count the sum of the two digits of their double. */
  function Weight(n: nat, doubled: bool): nat {
    if doubled then 2 * n / 10 + 2 * n % 10 else n
  }

  /** Whether the digit at `i` stands an odd number of places before the last of `n` digits. */
  predicate Doubled(n: nat, i: int) { (n - 1 - i) % 2 == 1 }

  /** The sum of the weights from position `i` on. */
  function SumFrom(d: string, i: nat): nat
    requires AllDigits(d) && i <= |d|
    decreases |d| - i
  {
    if i == |d| then 0 else Weight(DigitOf(d[i]), Doubled(|d|, i)) + SumFrom(d, i + 1)
  }

  predicate IsLuhn(d: string)
    requires AllDigits(d)
  {
    !AllZero(d) && SumFrom(d, 0) % 10 == 0
  }

  /** `luhn`: right to left, with a toggled flag. */
  method Check(digits: string) returns (ok: bool)
    requires AllDigits(digits)
    ensures ok == IsLuhn(digits)
  {
    var sum, double, allZero := 0, false, true;
    var i := |digits| - 1;
    while i >= 0
      invariant -1 <= i < |digits|
      invariant sum == SumFrom(digits, i + 1) && double == Doubled(|digits|, i)
      invariant allZero <==> forall k :: i < k < |digits| ==> digits[k] == '0'
    {
      var n := digits[i] as int - '0' as int;
      allZero := allZero && n == 0;
      if double {
        n := n * 2;
        if n > 9 { n := n - 9; }
      }
      sum := sum + n;
      double := !double;
      i := i - 1;
    }
    return !allZero && sum % 10 == 0;
  }

  // ---------- what the check detects ----------

  lemma {:induction false} SumChanged(d: string, d': string, j: nat, i: nat)
    requires AllDigits(d) && AllDigits(d') && |d| == |d'| && i <= |d|
    requires j < |d| && forall k :: 0 <= k < |d| && k != j ==> d[k] == d'[k]
    ensures SumFrom(d', i) - SumFrom(d, i)
         == if i <= j then Weight(DigitOf(d'[j]), Doubled(|d|, j)) - Weight(DigitOf(d[j]), Doubled(|d|, j)) else 0
    decreases |d| - i
  {
    if i < |d| { SumChanged(d, d', j, i + 1); }
  }

  /** Doubling adds `n` below five and `n - 9` from five on. */
  lemma DoubledWeight(n: nat)
    requires n <= 9
    ensures Weight(n, true) == n + if n < 5 then n else n - 9
  {}

  lemma AddToMultiple(sum: int, delta: int)
    requires sum % 10 == 0 && -90 <= delta <= 90
    ensures (sum + delta) % 10 == delta % 10
  {}

  lemma WeightsDiffer(a: nat, b: nat, doubled: bool)
    requires a <= 9 && b <= 9 && a != b
    ensures -9 <= Weight(a, doubled) - Weight(b, doubled) <= 9
    ensures (Weight(a, doubled) - Weight(b, doubled)) % 10 != 0
  {
    hide Weight;
    assert !doubled ==> Weight(a, doubled) == a && Weight(b, doubled) == b by { Undoubled(a); Undoubled(b); }
    DoubledWeight(a);
    DoubledWeight(b);
  }

  lemma Undoubled(n: nat)
    ensures Weight(n, false) == n
  {}

  /** Changing any one digit of an accepted number makes it rejected. */
  lemma SubstitutionDetected(d: string, j: nat, c: char)
    requires AllDigits(d) && j < |d| && IsDigit(c) && c != d[j] && IsLuhn(d)
    ensures AllDigits(d[j := c]) && !IsLuhn(d[j := c])
  {
    hide Weight, SumFrom, Doubled;
    SumChanged(d, d[j := c], j, 0);
    var doubled := Doubled(|d|, j);
    WeightsDiffer(DigitOf(c), DigitOf(d[j]), doubled);
    AddToMultiple(SumFrom(d, 0), Weight(DigitOf(c), doubled) - Weight(DigitOf(d[j]), doubled));
  }

  function Swap(d: string, j: nat): string
    requires j + 1 < |d|
  {
    d[j := d[j + 1]][j + 1 := d[j]]
  }

  lemma WeightsSwapped(a: nat, b: nat, first: bool)
    requires a <= 9 && b <= 9
    ensures var delta := Weight(b, first) - Weight(a, first) + Weight(a, !first) - Weight(b, !first);
            -9 <= delta <= 9 && (delta == 0 <==> a == b || (a == 0 && b == 9) || (a == 9 && b == 0))
  {
    hide Weight;
    Undoubled(a);
    Undoubled(b);
    DoubledWeight(a);
    DoubledWeight(b);
  }

  lemma DoublingAlternates(n: nat, j: int)
    ensures Doubled(n, j + 1) == !Doubled(n, j)
  {}

  lemma SwapChangesSum(d: string, j: nat)
    requires AllDigits(d) && j + 1 < |d|
    ensures AllDigits(Swap(d, j))
    ensures var first, a, b := Doubled(|d|, j), DigitOf(d[j]), DigitOf(d[j + 1]);
            SumFrom(Swap(d, j), 0) - SumFrom(d, 0)
            == Weight(b, first) - Weight(a, first) + Weight(a, !first) - Weight(b, !first)
  {
    hide Weight, SumFrom, Doubled, DigitOf;
    var m := d[j := d[j + 1]];
    SumChanged(d, m, j, 0);
    SumChanged(m, Swap(d, j), j + 1, 0);
    DoublingAlternates(|d|, j);
  }

  lemma SwapKeepsNonZero(d: string, j: nat)
    requires j + 1 < |d| && !AllZero(d)
    ensures !AllZero(Swap(d, j))
  {
    var k :| 0 <= k < |d| && d[k] != '0';
    assert Swap(d, j)[if k == j then j + 1 else if k == j + 1 then j else k] == d[k];
  }

  /** Swapping two neighbouring digits of an accepted number goes unnoticed exactly when they are equal
      or are a 0 and a 9. */
  lemma TranspositionDetected(d: string, j: nat)
    requires AllDigits(d) && j + 1 < |d| && IsLuhn(d)
    ensures AllDigits(Swap(d, j))
    ensures IsLuhn(Swap(d, j)) <==>
              d[j] == d[j + 1] || (d[j] == '0' && d[j + 1] == '9') || (d[j] == '9' && d[j + 1] == '0')
  {
    hide Weight, SumFrom, Doubled, Swap, AllZero;
    SwapChangesSum(d, j);
    SwapKeepsNonZero(d, j);
    WeightsSwapped(DigitOf(d[j]), DigitOf(d[j + 1]), Doubled(|d|, j));
    AddToMultiple(SumFrom(d, 0), SumFrom(Swap(d, j), 0) - SumFrom(d, 0));
  }

  /** The sum of a payload once a check digit follows it. */
  function PayloadSum(p: string): nat
    requires AllDigits(p)
  {
    SumFrom(p + "0", 0)
  }

  function CheckDigit(p: string): (c: char)
    requires AllDigits(p)
    ensures IsDigit(c)
  {
    ('0' as int + (10 - PayloadSum(p) % 10) % 10) as char
  }

  lemma SumWithCheckDigit(p: string, c: char)
    requires AllDigits(p) && IsDigit(c)
    ensures AllDigits(p + [c]) && SumFrom(p + [c], 0) == PayloadSum(p) + DigitOf(c)
  {
    var z := p + "0";
    var d := p + [c];
    assert forall k :: 0 <= k < |p| ==> z[k] == d[k];
    SumChanged(z, d, |p|, 0);
  }

  lemma Complement(sum: nat, v: nat)
    requires v <= 9
    ensures (sum + v) % 10 == 0 <==> v == (10 - sum % 10) % 10
  {}

  /** A payload that is not all zeros has exactly one accepting check digit; an all-zero payload has none. */
  lemma CheckDigitUnique(p: string, c: char)
    requires AllDigits(p) && IsDigit(c)
    ensures IsLuhn(p + [c]) <==> !AllZero(p) && c == CheckDigit(p)
  {
    hide SumFrom, PayloadSum, Weight;
    var d := p + [c];
    SumWithCheckDigit(p, c);
    Complement(PayloadSum(p), DigitOf(c));
    if AllZero(p) {
      AllZeroSum(p);
      assert AllZero(d) <==> c == '0' by { assert d[|p|] == c; }
    } else {
      var k :| 0 <= k < |p| && p[k] != '0';
      assert d[k] != '0';
    }
  }

  lemma AllZeroSum(p: string)
    requires AllDigits(p) && AllZero(p)
    ensures PayloadSum(p) == 0
  {
    ZeroSum(p + "0", 0);
  }

  lemma {:induction false} ZeroSum(d: string, i: nat)
    requires AllDigits(d) && AllZero(d) && i <= |d|
    ensures SumFrom(d, i) == 0
    decreases |d| - i
  {
    if i < |d| { ZeroSum(d, i + 1); }
  }
}
