/** Sorting object keys by code points. */
module KeyOrder {
  type Text = seq<int>

  /** Strict lexicographic order. */
  predicate Less(a: Text, b: Text) {
    b != [] && (a == [] || a[0] < b[0] || (a[0] == b[0] && Less(a[1..], b[1..])))
  }

  /** The texts agree on their first `n` code points, and there `a` ends or has the smaller one. */
  predicate DiffersAt(a: Text, b: Text, n: nat) {
    && n <= |a| && n < |b| && (forall i :: 0 <= i < n ==> a[i] == b[i])
    && (n == |a| || a[n] < b[n])
  }

  /** The order is that of the first difference. */
  lemma {:induction false} LessExactly(a: Text, b: Text)
    ensures Less(a, b) <==> exists n: nat :: DiffersAt(a, b, n)
  {
    if a == [] {
      assert b != [] ==> DiffersAt(a, b, 0);
    } else if b != [] && a[0] == b[0] {
      LessExactly(a[1..], b[1..]);
      if n: nat :| DiffersAt(a[1..], b[1..], n) { assert DiffersAt(a, b, n + 1); }
      if n: nat :| DiffersAt(a, b, n) { assert DiffersAt(a[1..], b[1..], n - 1); }
    } else if b != [] && a[0] < b[0] {
      assert DiffersAt(a, b, 0);
    }
  }

  lemma {:induction false} LessIrreflexive(a: Text)
    ensures !Less(a, a)
  {
    if a != [] { LessIrreflexive(a[1..]); }
  }

  lemma {:induction false} LessTransitive(a: Text, b: Text, c: Text)
    requires Less(a, b) && Less(b, c)
    ensures Less(a, c)
  {
    if a != [] && a[0] == b[0] == c[0] { LessTransitive(a[1..], b[1..], c[1..]); }
  }

  lemma {:induction false} LessTotal(a: Text, b: Text)
    ensures a == b || Less(a, b) || Less(b, a)
  {
    if a != [] && b != [] && a[0] == b[0] {
      LessTotal(a[1..], b[1..]);
      if a[1..] == b[1..] { assert a == [a[0]] + a[1..] && b == [b[0]] + b[1..]; }
    }
  }

  ghost predicate IsSorted(q: seq<Text>) {
    forall i, j :: 0 <= i < j < |q| ==> Less(q[i], q[j])
  }

  /** `q` lists the keys `ks` in order, each once. */
  ghost predicate Lists(q: seq<Text>, ks: set<Text>) {
    && IsSorted(q)
    && (forall i :: 0 <= i < |q| ==> q[i] in ks)
    && (forall k :: k in ks ==> k in q)
  }

  /** There is one such list. */
  lemma {:induction false} ListsUnique(p: seq<Text>, q: seq<Text>, ks: set<Text>)
    requires Lists(p, ks) && Lists(q, ks)
    ensures p == q
    decreases |p|
  {
    if p == [] {
      assert q == [];
    } else {
      assert p[0] in ks && q != [] && q[0] in ks;
      FirstIsLeast(p, ks, q[0]);
      FirstIsLeast(q, ks, p[0]);
      if p[0] != q[0] { LessTransitive(p[0], q[0], p[0]); }
      LessIrreflexive(p[0]);
      RestLists(p, ks);
      RestLists(q, ks);
      ListsUnique(p[1..], q[1..], ks - {p[0]});
      assert p == [p[0]] + p[1..] && q == [q[0]] + q[1..];
    }
  }

  lemma FirstIsLeast(p: seq<Text>, ks: set<Text>, k: Text)
    requires Lists(p, ks) && p != [] && k in ks
    ensures k == p[0] || Less(p[0], k)
  {
    var i :| 0 <= i < |p| && p[i] == k;
  }

  lemma RestLists(p: seq<Text>, ks: set<Text>)
    requires Lists(p, ks) && p != []
    ensures Lists(p[1..], ks - {p[0]})
  {
    var r := p[1..];
    forall i | 0 <= i < |r| ensures r[i] in ks - {p[0]} {
      assert Less(p[0], p[i + 1]);
      LessIrreflexive(p[0]);
    }
    forall k | k in ks - {p[0]} ensures k in r {
      var i :| 0 <= i < |p| && p[i] == k;
      assert r[i - 1] == k;
    }
  }

  /** Python's `sorted` on a dictionary's keys. */
  method Sort(ks: set<Text>) returns (q: seq<Text>)
    ensures Lists(q, ks)
  {
    q := [];
    var rest := ks;
    while rest != {}
      invariant rest <= ks && Lists(q, ks - rest)
      decreases rest
    {
      var k :| k in rest;
      q := Insert(q, k, ks - rest);
      rest := rest - {k};
      assert ks - rest == (ks - (rest + {k})) + {k};
    }
    assert ks - rest == ks;
  }

  method Insert(q: seq<Text>, k: Text, ghost ks: set<Text>) returns (r: seq<Text>)
    requires Lists(q, ks) && k !in ks
    ensures Lists(r, ks + {k})
  {
    var i := 0;
    while i < |q| && Less(q[i], k)
      invariant 0 <= i <= |q| && forall j :: 0 <= j < i ==> Less(q[j], k)
    {
      i := i + 1;
    }
    r := q[..i] + [k] + q[i..];
    InsertLists(q, k, ks, i);
  }

  lemma InsertLists(q: seq<Text>, k: Text, ks: set<Text>, i: nat)
    requires Lists(q, ks) && k !in ks && i <= |q|
    requires (forall j :: 0 <= j < i ==> Less(q[j], k)) && (i < |q| ==> !Less(q[i], k))
    ensures Lists(q[..i] + [k] + q[i..], ks + {k})
  {
    var r := q[..i] + [k] + q[i..];
    forall j | i <= j < |q| ensures Less(k, q[j]) {
      LessTotal(k, q[i]);
      if i < j { LessTransitive(k, q[i], q[j]); }
    }
    assert r[i] == k;
    forall x | x in ks ensures x in r {
      var j :| 0 <= j < |q| && q[j] == x;
      assert r[if j < i then j else j + 1] == x;
    }
  }

  lemma {:induction false} ListExists(ks: set<Text>)
    ensures exists q :: Lists(q, ks)
    decreases ks
  {
    if ks == {} {
      assert Lists([], ks);
    } else {
      var k :| k in ks;
      ListExists(ks - {k});
      var q :| Lists(q, ks - {k});
      var i := InsertAt(q, k, 0);
      InsertLists(q, k, ks - {k}, i);
      assert ks - {k} + {k} == ks;
    }
  }

  function InsertAt(q: seq<Text>, k: Text, i: nat): (r: nat)
    requires i <= |q| && forall j :: 0 <= j < i ==> Less(q[j], k)
    ensures r <= |q| && (forall j :: 0 <= j < r ==> Less(q[j], k)) && (r < |q| ==> !Less(q[r], k))
    decreases |q| - i
  {
    if i < |q| && Less(q[i], k) then InsertAt(q, k, i + 1) else i
  }

  /** The keys in order. */
  ghost function Sorted(ks: set<Text>): (q: seq<Text>)
    ensures Lists(q, ks)
  {
    ListExists(ks);
    var q :| Lists(q, ks);
    q
  }
}
