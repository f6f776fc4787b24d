/** How deep the sanitizer's output nests, and what stands under its sensitive keys. */
module SanitizingNesting {
  import opened FreshKeys
  import opened JsonDepth
  import opened Sanitizing

  /** How deep the containers of an output nest. */
  function NestOf(v: Value): nat {
    match v
    case VMap(entries) => 1 + NestOfEntries(v, |entries|)
    case VSlice(items) => 1 + NestOfItems(v, |items|)
    case _ => 0
  }

  function NestOfEntries(v: Value, n: nat): nat
    requires v.VMap? && n <= |v.entries|
    decreases v, n
  {
    if n == 0 then 0 else Max(NestOfEntries(v, n - 1), NestOf(v.entries[n - 1].value))
  }

  function NestOfItems(v: Value, n: nat): nat
    requires v.VSlice? && n <= |v.items|
    decreases v, n
  {
    if n == 0 then 0 else Max(NestOfItems(v, n - 1), NestOf(v.items[n - 1]))
  }

  lemma {:induction false} NestPrefix(a: seq<Entry<Value>>, b: seq<Entry<Value>>, n: nat)
    requires n <= |a| && n <= |b| && forall k :: 0 <= k < n ==> a[k] == b[k]
    ensures NestOfEntries(VMap(a), n) == NestOfEntries(VMap(b), n)
    decreases n
  {
    if n > 0 { NestPrefix(a, b, n - 1); }
  }

  lemma {:induction false} NestItemsPrefix(a: seq<Value>, b: seq<Value>, n: nat)
    requires n <= |a| && n <= |b| && forall k :: 0 <= k < n ==> a[k] == b[k]
    ensures NestOfItems(VSlice(a), n) == NestOfItems(VSlice(b), n)
    decreases n
  {
    if n > 0 { NestItemsPrefix(a, b, n - 1); }
  }

  /** The output at `depth` nests at most as many containers as there are levels left. */
  lemma {:induction false} ValueNests(e: Env, c: Config, v: Value, depth: nat, key: string, left: int)
    ensures NestOf(ValueAt(e, c, v, depth, key, left).0) <= Room(c, depth)
    decreases Room(c, depth), v
  {
    hide TextAt, MapInto, SliceInto, Sql;
    if depth <= c.maxDepth {
      match v {
        case VMap(_) => MapNests(e, c, v, 0, 0, depth, [], left - 1);
        case VSlice(_) => SliceNests(e, c, v, 0, depth, [], left - 1);
        case _ =>
      }
    }
  }

  lemma {:induction false} MapNests(e: Env, c: Config, v: Value, i: nat, index: nat, depth: nat,
                                    done: seq<Entry<Value>>, left: int)
    requires v.VMap? && i <= |v.entries| && depth <= c.maxDepth
    requires NestOfEntries(VMap(done), |done|) < Room(c, depth)
    ensures var r := MapInto(e, c, v, i, index, depth, done, left).0;
            NestOfEntries(VMap(r), |r|) < Room(c, depth)
    decreases Room(c, depth), v, |v.entries| - i
  {
    hide ValueAt, CleanKey, MapKey;
    if i < |v.entries| {
      var key := v.entries[i].key;
      var k := MapKey(e, c, key, index, Keys(done));
      ValueNests(e, c, v.entries[i].value, depth + 1, key, left);
      var r := if CleanKey(e, c, key, index) != key then (VStr(MASK), left)
               else ValueAt(e, c, v.entries[i].value, depth + 1, key, left);
      var more := done + [Entry(k.0, r.0)];
      NestPrefix(done, more, |done|);
      MapNests(e, c, v, i + 1, k.1, depth, more, r.1);
    }
  }

  lemma {:induction false} SliceNests(e: Env, c: Config, v: Value, i: nat, depth: nat, done: seq<Value>, left: int)
    requires v.VSlice? && i <= |v.items| && depth <= c.maxDepth
    requires NestOfItems(VSlice(done), |done|) < Room(c, depth)
    ensures var r := SliceInto(e, c, v, i, depth, done, left).0;
            NestOfItems(VSlice(r), |r|) < Room(c, depth)
    decreases Room(c, depth), v, |v.items| - i
  {
    hide ValueAt;
    if i < |v.items| {
      ValueNests(e, c, v.items[i], depth + 1, "", left);
      var r := ValueAt(e, c, v.items[i], depth + 1, "", left);
      NestItemsPrefix(done, done + [r.0], |done|);
      SliceNests(e, c, v, i + 1, depth, done + [r.0], r.1);
    }
  }

  // ---------- sensitive keys ----------

  /** The key is not one of the replacement keys. */
  ghost predicate IsOwnKey(key: string) { forall j: nat :: key != Name(j) }

  /** At every level, an entry under a sensitive key of its own holds the mask. */
  ghost predicate SensitiveMasked(e: Env, v: Value) {
    match v
    case VMap(entries) =>
      forall k :: 0 <= k < |entries| ==>
        SensitiveMasked(e, entries[k].value)
        && (e.sensitiveKey(entries[k].key) && IsOwnKey(entries[k].key) ==> entries[k].value == VStr(MASK))
    case VSlice(items) => forall k :: 0 <= k < |items| ==> SensitiveMasked(e, items[k])
    case _ => true
  }

  /** A key in the output that is not a replacement key is the input's own. */
  lemma OwnKeyKept(e: Env, c: Config, key: string, index: nat, used: set<string>)
    ensures IsOwnKey(MapKey(e, c, key, index, used).0) ==>
              MapKey(e, c, key, index, used).0 == key && CleanKey(e, c, key, index) == key
    ensures IsOwnKey(NativeKey(e, c, key, index, used).0) ==>
              NativeKey(e, c, key, index, used).0 == key && CleanKey(e, c, key, index) == key
  {
    hide Fresh, Name;
  }

  /** No value under a sensitive key survives, at any level of a telemetry value. */
  lemma {:induction false} ValueMasked(e: Env, c: Config, v: Value, depth: nat, key: string, left: int)
    ensures SensitiveMasked(e, ValueAt(e, c, v, depth, key, left).0)
    ensures e.sensitiveKey(key) ==> ValueAt(e, c, v, depth, key, left).0 == VStr(MASK)
    decreases Room(c, depth), v
  {
    hide TextAt, MapInto, SliceInto, Sql;
    if depth <= c.maxDepth {
      match v {
        case VMap(_) => MapMasked(e, c, v, 0, 0, depth, [], left - 1);
        case VSlice(_) => SliceMasked(e, c, v, 0, depth, [], left - 1);
        case _ =>
      }
    }
  }

  lemma {:induction false} MapMasked(e: Env, c: Config, v: Value, i: nat, index: nat, depth: nat,
                                     done: seq<Entry<Value>>, left: int)
    requires v.VMap? && i <= |v.entries| && depth <= c.maxDepth && SensitiveMasked(e, VMap(done))
    ensures SensitiveMasked(e, VMap(MapInto(e, c, v, i, index, depth, done, left).0))
    decreases Room(c, depth), v, |v.entries| - i
  {
    hide ValueAt, CleanKey, MapKey, IsOwnKey;
    if i < |v.entries| {
      var key := v.entries[i].key;
      var k := MapKey(e, c, key, index, Keys(done));
      ValueMasked(e, c, v.entries[i].value, depth + 1, key, left);
      OwnKeyKept(e, c, key, index, Keys(done));
      var r := if CleanKey(e, c, key, index) != key then (VStr(MASK), left)
               else ValueAt(e, c, v.entries[i].value, depth + 1, key, left);
      MapMasked(e, c, v, i + 1, k.1, depth, done + [Entry(k.0, r.0)], r.1);
    }
  }

  lemma {:induction false} SliceMasked(e: Env, c: Config, v: Value, i: nat, depth: nat, done: seq<Value>, left: int)
    requires v.VSlice? && i <= |v.items| && depth <= c.maxDepth && SensitiveMasked(e, VSlice(done))
    ensures SensitiveMasked(e, VSlice(SliceInto(e, c, v, i, depth, done, left).0))
    decreases Room(c, depth), v, |v.items| - i
  {
    hide ValueAt;
    if i < |v.items| {
      ValueMasked(e, c, v.items[i], depth + 1, "", left);
      var r := ValueAt(e, c, v.items[i], depth + 1, "", left);
      SliceMasked(e, c, v, i + 1, depth, done + [r.0], r.1);
    }
  }

  /** The same promise for a decoded value, before it is written as JSON again. */
  ghost predicate NativeSensitiveMasked(e: Env, v: Native) {
    match v
    case NObject(entries) =>
      forall k :: 0 <= k < |entries| ==>
        NativeSensitiveMasked(e, entries[k].value)
        && (e.sensitiveKey(entries[k].key) && IsOwnKey(entries[k].key) ==> entries[k].value == NString(MASK))
    case NArray(items) => forall k :: 0 <= k < |items| ==> NativeSensitiveMasked(e, items[k])
    case _ => true
  }

  lemma {:induction false} NativeMasked(e: Env, c: Config, test: DepthTest, v: Native, depth: nat, key: string,
                                        left: int)
    ensures NativeSensitiveMasked(e, NativeAt(e, c, test, v, depth, key, left).0)
    ensures e.sensitiveKey(key) ==> NativeAt(e, c, test, v, depth, key, left).0 == NString(MASK)
    decreases Room(c, depth), 1, v
  {
    hide TextAt, NativeEntries, NativeItems, Sql;
    match v {
      case NObject(_) => EntriesMasked(e, c, test, v, 0, 0, depth, [], left - 1);
      case NArray(_) => ItemsMasked(e, c, test, v, 0, depth, [], left - 1);
      case _ =>
    }
  }

  lemma {:induction false} EntriesMasked(e: Env, c: Config, test: DepthTest, v: Native, i: nat, index: nat, depth: nat,
                                         done: seq<Entry<Native>>, left: int)
    requires v.NObject? && i <= |v.entries| && NativeSensitiveMasked(e, NObject(done))
    ensures NativeSensitiveMasked(e, NObject(NativeEntries(e, c, test, v, i, index, depth, done, left).0))
    decreases Room(c, depth), 1, v, |v.entries| - i
  {
    hide NativeAt, CleanKey, NativeKey, IsOwnKey;
    if i < |v.entries| {
      var key := v.entries[i].key;
      var k := NativeKey(e, c, key, index, Keys(done));
      NativeMasked(e, c, test, v.entries[i].value, depth + 1, key, left);
      OwnKeyKept(e, c, key, index, Keys(done));
      var r := if CleanKey(e, c, key, index) != key then (NString(MASK), left)
               else NativeAt(e, c, test, v.entries[i].value, depth + 1, key, left);
      EntriesMasked(e, c, test, v, i + 1, k.1, depth, done + [Entry(k.0, r.0)], r.1);
    }
  }

  lemma {:induction false} ItemsMasked(e: Env, c: Config, test: DepthTest, v: Native, i: nat, depth: nat,
                                       done: seq<Native>, left: int)
    requires v.NArray? && i <= |v.items| && NativeSensitiveMasked(e, NArray(done))
    ensures NativeSensitiveMasked(e, NArray(NativeItems(e, c, test, v, i, depth, done, left).0))
    decreases Room(c, depth), 1, v, |v.items| - i
  {
    hide NativeAt;
    if i < |v.items| {
      NativeMasked(e, c, test, v.items[i], depth + 1, "", left);
      var r := NativeAt(e, c, test, v.items[i], depth + 1, "", left);
      ItemsMasked(e, c, test, v, i + 1, depth, done + [r.0], r.1);
    }
  }

  // ---------- sensitive keys in strings within strings ----------

  /** Nothing of what stood under a sensitive key is left in `out`, cleaned from `v` under `key`: also not in the JSON
      that its strings hold, at any level. */
  ghost predicate MaskedThroughout(e: Env, c: Config, v: Native, key: string, out: Native, depth: nat)
    decreases Room(c, depth), 1, v
  {
    if e.sensitiveKey(key) then out == NString(MASK)
    else
      || out == NString(MASK) || out == NString(LIMIT) || e.sqlKey(key)
      || match v
         case NString(s) => out.NString? && TextMaskedThroughout(e, c, s, out.s, depth)
         case NObject(entries) =>
           out.NObject? && |out.entries| == |entries| && EntriesThroughout(e, c, v, out.entries, depth)
         case NArray(items) => out.NArray? && |out.items| == |items| && ItemsThroughout(e, c, v, out.items, depth)
         case _ => true
  }

  ghost predicate EntriesThroughout(e: Env, c: Config, v: Native, out: seq<Entry<Native>>, depth: nat)
    requires v.NObject? && |out| <= |v.entries|
    decreases Room(c, depth), 1, v, 0
  {
    forall k :: 0 <= k < |out| ==>
      out[k].value == NString(MASK)
      || MaskedThroughout(e, c, v.entries[k].value, v.entries[k].key, out[k].value, depth + 1)
  }

  ghost predicate ItemsThroughout(e: Env, c: Config, v: Native, out: seq<Native>, depth: nat)
    requires v.NArray? && |out| <= |v.items|
    decreases Room(c, depth), 1, v, 0
  {
    forall k :: 0 <= k < |out| ==> MaskedThroughout(e, c, v.items[k], "", out[k], depth + 1)
  }

  /** A text that hands on a value is what a masked value is written as. */
  ghost predicate TextMaskedThroughout(e: Env, c: Config, input: string, output: string, depth: nat)
    decreases Room(c, depth), 0
  {
    match Handed(e, c, input, depth)
    case None => true
    case Some(v) =>
      exists kept: Native :: output == Written(e, c, kept) && NativeSensitiveMasked(e, kept)
                             && MaskedThroughout(e, c, v, "", kept, depth + 1)
  }

  /** No value under a sensitive key survives in a text, at any level of JSON held in strings. */
  lemma {:induction false} TextMasked(e: Env, c: Config, test: DepthTest, input: string, depth: nat, left: int)
    ensures TextMaskedThroughout(e, c, input, TextAt(e, c, test, input, depth, left).0, depth)
    decreases Room(c, depth), 0
  {
    hide TextAt, NativeAt, Handed, Written, NativeSensitiveMasked, MaskedThroughout;
    TextHands(e, c, test, input, depth, left);
    if Handed(e, c, input, depth).Some? {
      NativeMasked(e, c, test, Handed(e, c, input, depth).value, depth + 1, "", left);
      NativeThroughout(e, c, test, Handed(e, c, input, depth).value, depth + 1, "", left);
    }
  }

  lemma {:induction false} NativeThroughout(e: Env, c: Config, test: DepthTest, v: Native, depth: nat, key: string,
                                            left: int)
    ensures MaskedThroughout(e, c, v, key, NativeAt(e, c, test, v, depth, key, left).0, depth)
    decreases Room(c, depth), 1, v
  {
    hide TextAt, NativeEntries, NativeItems, Sql, TextMaskedThroughout, EntriesThroughout, ItemsThroughout;
    match v {
      case NString(s) => TextMasked(e, c, test, s, depth, left - 1);
      case NObject(_) =>
        NoEntriesThroughout(e, c, v, depth);
        ObjectThroughout(e, c, test, v, 0, 0, depth, [], left - 1);
      case NArray(_) =>
        NoItemsThroughout(e, c, v, depth);
        ArrayThroughout(e, c, test, v, 0, depth, [], left - 1);
      case _ =>
    }
  }

  lemma NoEntriesThroughout(e: Env, c: Config, v: Native, depth: nat)
    requires v.NObject?
    ensures EntriesThroughout(e, c, v, [], depth)
  {}

  lemma NoItemsThroughout(e: Env, c: Config, v: Native, depth: nat)
    requires v.NArray?
    ensures ItemsThroughout(e, c, v, [], depth)
  {}

  lemma {:induction false} ObjectThroughout(e: Env, c: Config, test: DepthTest, v: Native, i: nat, index: nat,
                                            depth: nat, done: seq<Entry<Native>>, left: int)
    requires v.NObject? && i <= |v.entries| && |done| == i && EntriesThroughout(e, c, v, done, depth)
    ensures var out := NativeEntries(e, c, test, v, i, index, depth, done, left).0;
            |out| == |v.entries| && EntriesThroughout(e, c, v, out, depth)
    decreases Room(c, depth), 1, v, |v.entries| - i
  {
    hide NativeAt, CleanKey, NativeKey, MaskedThroughout;
    if i < |v.entries| {
      var key := v.entries[i].key;
      var k := NativeKey(e, c, key, index, Keys(done));
      NativeThroughout(e, c, test, v.entries[i].value, depth + 1, key, left);
      var r := if CleanKey(e, c, key, index) != key then (NString(MASK), left)
               else NativeAt(e, c, test, v.entries[i].value, depth + 1, key, left);
      ObjectThroughout(e, c, test, v, i + 1, k.1, depth, done + [Entry(k.0, r.0)], r.1);
    }
  }

  lemma {:induction false} ArrayThroughout(e: Env, c: Config, test: DepthTest, v: Native, i: nat, depth: nat,
                                           done: seq<Native>, left: int)
    requires v.NArray? && i <= |v.items| && |done| == i && ItemsThroughout(e, c, v, done, depth)
    ensures var out := NativeItems(e, c, test, v, i, depth, done, left).0;
            |out| == |v.items| && ItemsThroughout(e, c, v, out, depth)
    decreases Room(c, depth), 1, v, |v.items| - i
  {
    hide NativeAt, MaskedThroughout;
    if i < |v.items| {
      NativeThroughout(e, c, test, v.items[i], depth + 1, "", left);
      var r := NativeAt(e, c, test, v.items[i], depth + 1, "", left);
      ArrayThroughout(e, c, test, v, i + 1, depth, done + [r.0], r.1);
    }
  }
}
