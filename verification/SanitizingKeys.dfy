/** The sanitizer loses no entry of a map, and keeps no key or value of an unclean one. */
module SanitizingKeys {
  import opened Bytes
  import opened Decimals
  import opened FreshKeys
  import opened Sanitizing

  ghost predicate DistinctKeys<V(!new)>(entries: seq<Entry<V>>) {
    forall i, j :: 0 <= i < j < |entries| ==> entries[i].key != entries[j].key
  }

  /** The key is safe to keep: short enough, text, and untouched by redaction. */
  predicate IsClean(e: Env, c: Config, key: string) {
    |key| <= c.maxStringBytes && ValidUtf8(key) && e.redactText(key) == key
  }

  /** The replacement keys below `n` are clean themselves. */
  ghost predicate NamesClean(e: Env, c: Config, n: nat) { forall j: nat :: j < n ==> IsClean(e, c, Name(j)) }

  /** Exactly which keys count as redacted. */
  lemma RedactedExactly(e: Env, c: Config, key: string, index: nat)
    ensures CleanKey(e, c, key, index) != key <==> !IsClean(e, c, key) && key != Name(index)
  {
    hide Name;
  }

  lemma NameIsShortText(j: nat)
    requires j < 100000
    ensures |Name(j)| <= 24 && ValidUtf8(Name(j))
  {
    assert Pow10(5) == 100000 by {
      assert Pow10(1) == 10 && Pow10(2) == 100 && Pow10(3) == 1000 && Pow10(4) == 10000;
    }
    FewDigits(j, 5);
    AsciiIsValidUtf8(Name(j), 0);
  }

  /** Under a string limit of at least 256 bytes, as the configuration demands, the replacement keys that maps of
      16384 entries can reach are clean as soon as redaction leaves them as they are. */
  lemma NamesAreClean(e: Env, c: Config, n: nat)
    requires c.maxStringBytes >= 256 && n <= 3 * 16384 && forall j: nat :: j < n ==> e.redactText(Name(j)) == Name(j)
    ensures NamesClean(e, c, n)
  {
    hide Name;
    forall j: nat | j < n ensures IsClean(e, c, Name(j)) { NameIsShortText(j); }
  }

  /** An output entry keeps a clean input key or has a replacement key; a key that is not clean takes its value
      along. */
  ghost predicate KeepsKey(e: Env, c: Config, key: string, out: string, masked: bool) {
    && ((out == key && IsClean(e, c, key)) || exists j: nat :: out == Name(j))
    && (!IsClean(e, c, key) ==> masked)
  }

  lemma NewKeyUnused(e: Env, c: Config, key: string, index: nat, used: set<string>)
    ensures MapKey(e, c, key, index, used).0 !in used && NativeKey(e, c, key, index, used).0 !in used
  {
    hide Fresh, Name;
  }

  lemma NewKeyKept(e: Env, c: Config, key: string, index: nat, used: set<string>)
    requires IsClean(e, c, Name(index))
    ensures KeepsKey(e, c, key, MapKey(e, c, key, index, used).0, CleanKey(e, c, key, index) != key)
    ensures KeepsKey(e, c, key, NativeKey(e, c, key, index, used).0, CleanKey(e, c, key, index) != key)
  {
    hide Fresh, Name;
    RedactedExactly(e, c, key, index);
  }

  lemma KeysIn<V>(entries: seq<Entry<V>>)
    ensures forall k :: 0 <= k < |entries| ==> entries[k].key in Keys(entries)
  {}

  lemma KeysMore<V>(entries: seq<Entry<V>>, entry: Entry<V>)
    ensures Keys(entries + [entry]) == Keys(entries) + {entry.key}
  {
    var more := entries + [entry];
    forall k | k in Keys(entries) + {entry.key} ensures k in Keys(more) {
      if k in Keys(entries) {
        var i :| 0 <= i < |entries| && entries[i].key == k;
        assert more[i].key == k;
      } else {
        assert more[|entries|].key == k;
      }
    }
  }

  /** After `i` entries the index and the replacement keys used ahead of it sum up to at most `3 * i`. */
  ghost predicate IndexNear(used: set<string>, index: nat, i: nat) { index + |Ahead(used, index)| <= 3 * i }

  lemma IndexMoves(e: Env, c: Config, key: string, index: nat, used: set<string>, i: nat)
    requires IndexNear(used, index, i)
    ensures var k := MapKey(e, c, key, index, used); IndexNear(used + {k.0}, k.1, i + 1)
    ensures var k := NativeKey(e, c, key, index, used); IndexNear(used + {k.0}, k.1, i + 1)
  {
    hide Fresh, Name, Ahead, CleanKey;
    AheadLater(used, index, index + 1);
    FreshNear(used, index + 1);
    var j := Fresh(used, index + 1);
    AheadLater(used, j, j + 1);
    forall k: string, n: nat {:trigger Ahead(used + {k}, n)}
      ensures |Ahead(used + {k}, n)| <= |Ahead(used, n)| + 1
    {
      AheadMore(used, k, n);
    }
  }

  lemma NoneAhead(index: nat)
    ensures Ahead({}, index) == {}
  {}

  /** Every entry of the input has its entry in the output, at the same place, under a key of its own: nothing is
      overwritten. With clean replacement keys, every unclean key is replaced and its value masked. */
  lemma {:induction false} MapKeepsFrom(e: Env, c: Config, v: Value, i: nat, index: nat, depth: nat,
                                        done: seq<Entry<Value>>, left: int)
    requires v.VMap? && i <= |v.entries| && |done| == i && DistinctKeys(done) && IndexNear(Keys(done), index, i)
    ensures var out := MapInto(e, c, v, i, index, depth, done, left).0;
            && |out| == |v.entries| && DistinctKeys(out) && done <= out
            && (NamesClean(e, c, 3 * |v.entries|) ==> forall j :: i <= j < |out| ==>
                  KeepsKey(e, c, v.entries[j].key, out[j].key, out[j].value == VStr(MASK)))
    decreases |v.entries| - i
  {
    hide ValueAt, CleanKey, MapKey, KeepsKey, IsClean, Name, Ahead;
    if i < |v.entries| {
      var key := v.entries[i].key;
      var k := MapKey(e, c, key, index, Keys(done));
      var r := if CleanKey(e, c, key, index) != key then (VStr(MASK), left)
               else ValueAt(e, c, v.entries[i].value, depth + 1, key, left);
      var more := done + [Entry(k.0, r.0)];
      NewKeyUnused(e, c, key, index, Keys(done));
      KeysIn(done);
      KeysMore(done, Entry(k.0, r.0));
      IndexMoves(e, c, key, index, Keys(done), i);
      MapKeepsFrom(e, c, v, i + 1, k.1, depth, more, r.1);
      var out := MapInto(e, c, v, i, index, depth, done, left).0;
      assert out[i] == more[i];
      if NamesClean(e, c, 3 * |v.entries|) {
        NewKeyKept(e, c, key, index, Keys(done));
        MaskedMore(e, c, key, k.0, CleanKey(e, c, key, index) != key, r.0 == VStr(MASK));
      }
    }
  }

  lemma MaskedMore(e: Env, c: Config, key: string, out: string, masked: bool, more: bool)
    requires KeepsKey(e, c, key, out, masked) && (masked ==> more)
    ensures KeepsKey(e, c, key, out, more)
  {}

  lemma {:induction false} ObjectKeepsFrom(e: Env, c: Config, test: DepthTest, v: Native, i: nat, index: nat,
                                           depth: nat, done: seq<Entry<Native>>, left: int)
    requires v.NObject? && i <= |v.entries| && |done| == i && DistinctKeys(done) && IndexNear(Keys(done), index, i)
    ensures var out := NativeEntries(e, c, test, v, i, index, depth, done, left).0;
            && |out| == |v.entries| && DistinctKeys(out) && done <= out
            && (NamesClean(e, c, 3 * |v.entries|) ==> forall j :: i <= j < |out| ==>
                  KeepsKey(e, c, v.entries[j].key, out[j].key, out[j].value == NString(MASK)))
    decreases |v.entries| - i
  {
    hide NativeAt, CleanKey, NativeKey, KeepsKey, IsClean, Name, Ahead;
    if i < |v.entries| {
      var key := v.entries[i].key;
      var k := NativeKey(e, c, key, index, Keys(done));
      var r := if CleanKey(e, c, key, index) != key then (NString(MASK), left)
               else NativeAt(e, c, test, v.entries[i].value, depth + 1, key, left);
      var more := done + [Entry(k.0, r.0)];
      NewKeyUnused(e, c, key, index, Keys(done));
      KeysIn(done);
      KeysMore(done, Entry(k.0, r.0));
      IndexMoves(e, c, key, index, Keys(done), i);
      ObjectKeepsFrom(e, c, test, v, i + 1, k.1, depth, more, r.1);
      var out := NativeEntries(e, c, test, v, i, index, depth, done, left).0;
      assert out[i] == more[i];
      if NamesClean(e, c, 3 * |v.entries|) {
        NewKeyKept(e, c, key, index, Keys(done));
        MaskedMore(e, c, key, k.0, CleanKey(e, c, key, index) != key, r.0 == NString(MASK));
      }
    }
  }

  /** Cleaning a map loses and overwrites nothing, in whatever order it is iterated. */
  lemma MapKeepsEntries(e: Env, c: Config, v: Value, depth: nat, left: int)
    requires v.VMap?
    ensures var out := MapInto(e, c, v, 0, 0, depth, [], left).0;
            && |out| == |v.entries| && DistinctKeys(out)
            && (NamesClean(e, c, 3 * |v.entries|) ==> forall j :: 0 <= j < |out| ==>
                  KeepsKey(e, c, v.entries[j].key, out[j].key, out[j].value == VStr(MASK)))
  {
    hide MapInto, KeepsKey, NamesClean;
    NoneAhead(0);
    MapKeepsFrom(e, c, v, 0, 0, depth, [], left);
  }

  /** The same for the objects of decoded JSON. */
  lemma ObjectKeepsEntries(e: Env, c: Config, test: DepthTest, v: Native, depth: nat, left: int)
    requires v.NObject?
    ensures var out := NativeEntries(e, c, test, v, 0, 0, depth, [], left).0;
            && |out| == |v.entries| && DistinctKeys(out)
            && (NamesClean(e, c, 3 * |v.entries|) ==> forall j :: 0 <= j < |out| ==>
                  KeepsKey(e, c, v.entries[j].key, out[j].key, out[j].value == NString(MASK)))
  {
    hide NativeEntries, KeepsKey, NamesClean;
    NoneAhead(0);
    ObjectKeepsFrom(e, c, test, v, 0, 0, depth, [], left);
  }
}
