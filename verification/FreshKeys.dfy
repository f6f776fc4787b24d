/** Replacement keys of `sanitizer.go`, and the unbounded search for an unused one. */
module FreshKeys {
  import opened Bytes
  import opened Decimals

  const PREFIX := "elven.redacted_key_"

  /** The `index`-th replacement key. */
  function Name(index: nat): string { PREFIX + Dec(index) }

  lemma NameInjective(i: nat, j: nat)
    requires Name(i) == Name(j)
    ensures i == j
  {
    assert Name(i)[|PREFIX|..] == Dec(i) && Name(j)[|PREFIX|..] == Dec(j);
    DecInjective(i, j);
  }

  /** A replacement key reads as its prefix and its number. */
  lemma NameReads(index: nat)
    ensures var name := Name(index);
            && |name| > 19 && name[..19] == "elven.redacted_key_" && AllDigits(name[19..]) && Val(name[19..]) == index
  {
    ValDec(index);
    assert Name(index)[19..] == Dec(index);
  }

  ghost predicate IsNameFrom(k: string, index: nat) { exists j: nat :: index <= j && k == Name(j) }

  /** The used keys that are replacement keys from `index` on. */
  ghost function Ahead(keys: set<string>, index: nat): set<string> { set k | k in keys && IsNameFrom(k, index) }

  /** Moving past a used name leaves one name fewer ahead. */
  lemma AheadShrinks(keys: set<string>, index: nat)
    requires Name(index) in keys
    ensures |Ahead(keys, index + 1)| < |Ahead(keys, index)|
  {
    hide Name;
    var now, next := Ahead(keys, index), Ahead(keys, index + 1);
    assert IsNameFrom(Name(index), index);
    assert Name(index) !in next by {
      if IsNameFrom(Name(index), index + 1) {
        var j: nat :| index + 1 <= j && Name(index) == Name(j);
        NameInjective(index, j);
      }
    }
    forall k | k in next ensures k in now {
      var j: nat :| index + 1 <= j && k == Name(j);
      assert index <= j;
    }
    SmallerSet(next, now - {Name(index)});
  }

  lemma {:induction false} SmallerSet(a: set<string>, b: set<string>)
    requires a <= b
    ensures |a| <= |b|
    decreases b
  {
    if a != {} {
      var x :| x in a;
      SmallerSet(a - {x}, b - {x});
    }
  }

  /** The first index from `index` on whose name is unused. The search ends, since only finitely many names are used. */
  function Fresh(keys: set<string>, index: nat): (j: nat)
    ensures index <= j && Name(j) !in keys
    ensures forall k :: index <= k < j ==> Name(k) in keys
    decreases |Ahead(keys, index)|
  {
    if Name(index) !in keys then index else AheadShrinks(keys, index); Fresh(keys, index + 1)
  }

  lemma AheadLater(keys: set<string>, i: nat, j: nat)
    requires i <= j
    ensures |Ahead(keys, j)| <= |Ahead(keys, i)|
  {
    hide Name;
    forall k | k in Ahead(keys, j) ensures k in Ahead(keys, i) {
      var n: nat :| j <= n && k == Name(n);
      assert i <= n;
    }
    SmallerSet(Ahead(keys, j), Ahead(keys, i));
  }

  /** The search moves no further than there are used names ahead. */
  lemma {:induction false} FreshNear(keys: set<string>, index: nat)
    ensures var j := Fresh(keys, index); j + |Ahead(keys, j)| <= index + |Ahead(keys, index)|
    decreases |Ahead(keys, index)|
  {
    hide Name, Ahead;
    if Name(index) in keys {
      AheadShrinks(keys, index);
      FreshNear(keys, index + 1);
    }
  }

  /** One more used key is at most one more name ahead. */
  lemma AheadMore(keys: set<string>, k: string, index: nat)
    ensures |Ahead(keys + {k}, index)| <= |Ahead(keys, index)| + 1
  {
    hide Name;
    SmallerSet(Ahead(keys + {k}, index), Ahead(keys, index) + {k});
  }

  /** The loop itself. */
  method FindFresh(keys: set<string>, from: nat) returns (index: nat, key: string)
    ensures index == Fresh(keys, from) && key == Name(index)
  {
    index, key := from, Name(from);
    while key in keys
      invariant from <= index && key == Name(index) && Fresh(keys, from) == Fresh(keys, index)
      decreases |Ahead(keys, index)|
    {
      AheadShrinks(keys, index);
      index := index + 1;
      key := Name(index);
    }
  }
}
