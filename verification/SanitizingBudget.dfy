/** What the sanitizer keeps is paid for from one budget. */
module SanitizingBudget {
  import opened Sanitizing

  /** The values of a decoded output that are more than a mask or a limit mark. */
  function RetainedNative(v: Native): nat {
    match v
    case NString(s) => if s == MASK || s == LIMIT then 0 else 1
    case NObject(entries) => 1 + RetainedNativeEntries(v, |entries|)
    case NArray(items) => 1 + RetainedNativeItems(v, |items|)
    case _ => 1
  }

  function RetainedNativeEntries(v: Native, n: nat): nat
    requires v.NObject? && n <= |v.entries|
    decreases v, n
  {
    if n == 0 then 0 else RetainedNativeEntries(v, n - 1) + RetainedNative(v.entries[n - 1].value)
  }

  function RetainedNativeItems(v: Native, n: nat): nat
    requires v.NArray? && n <= |v.items|
    decreases v, n
  {
    if n == 0 then 0 else RetainedNativeItems(v, n - 1) + RetainedNative(v.items[n - 1])
  }

  lemma {:induction false} RetainedNativePrefix(a: seq<Entry<Native>>, b: seq<Entry<Native>>, n: nat)
    requires n <= |a| && n <= |b| && forall k :: 0 <= k < n ==> a[k] == b[k]
    ensures RetainedNativeEntries(NObject(a), n) == RetainedNativeEntries(NObject(b), n)
    decreases n
  {
    if n > 0 { RetainedNativePrefix(a, b, n - 1); }
  }

  lemma {:induction false} RetainedNativeItemsPrefix(a: seq<Native>, b: seq<Native>, n: nat)
    requires n <= |a| && n <= |b| && forall k :: 0 <= k < n ==> a[k] == b[k]
    ensures RetainedNativeItems(NArray(a), n) == RetainedNativeItems(NArray(b), n)
    decreases n
  {
    if n > 0 { RetainedNativeItemsPrefix(a, b, n - 1); }
  }

  lemma {:induction false} TextBudget(e: Env, c: Config, test: DepthTest, input: string, depth: nat, left: int)
    requires left >= 0
    ensures 0 <= TextAt(e, c, test, input, depth, left).1 <= left
    decreases Room(c, depth), 0
  {
    hide TextAt, NativeAt, Handed;
    TextHands(e, c, test, input, depth, left);
    if Handed(e, c, input, depth).Some? {
      NativeBudget(e, c, test, Handed(e, c, input, depth).value, depth + 1, "", left);
    }
  }

  /** A text that hands on no value costs nothing; otherwise its cost pays for everything kept of the JSON it holds. */
  lemma TextPaid(e: Env, c: Config, test: DepthTest, input: string, depth: nat, left: int)
    requires left >= 0
    ensures var r := TextAt(e, c, test, input, depth, left);
            match Handed(e, c, input, depth)
            case None => r.1 == left
            case Some(v) =>
              var kept := NativeAt(e, c, test, v, depth + 1, "", left).0;
              RetainedNative(kept) <= left - r.1 && r.0 == Written(e, c, kept)
  {
    hide TextAt, NativeAt, Handed, RetainedNative, Written;
    TextHands(e, c, test, input, depth, left);
    if Handed(e, c, input, depth).Some? {
      NativeBudget(e, c, test, Handed(e, c, input, depth).value, depth + 1, "", left);
    }
  }

  /** Everything retained of a decoded value has been charged, and the budget never goes below zero. */
  lemma {:induction false} NativeBudget(e: Env, c: Config, test: DepthTest, v: Native, depth: nat, key: string,
                                        left: int)
    requires left >= 0
    ensures var r := NativeAt(e, c, test, v, depth, key, left); 0 <= r.1 && RetainedNative(r.0) <= left - r.1
    decreases Room(c, depth), 1, v
  {
    hide TextAt, NativeEntries, NativeItems, Sql;
    if left > 0 {
      match v {
        case NString(s) => TextBudget(e, c, test, s, depth, left - 1);
        case NObject(_) => EntriesBudget(e, c, test, v, 0, 0, depth, [], left - 1);
        case NArray(_) => ItemsBudget(e, c, test, v, 0, depth, [], left - 1);
        case _ =>
      }
    }
  }

  lemma {:induction false} EntriesBudget(e: Env, c: Config, test: DepthTest, v: Native, i: nat, index: nat, depth: nat,
                                         done: seq<Entry<Native>>, left: int)
    requires v.NObject? && i <= |v.entries| && left >= 0
    ensures var r := NativeEntries(e, c, test, v, i, index, depth, done, left);
            0 <= r.1
            && RetainedNativeEntries(NObject(r.0), |r.0|) - RetainedNativeEntries(NObject(done), |done|) <= left - r.1
    decreases Room(c, depth), 1, v, |v.entries| - i
  {
    hide NativeAt, CleanKey, NativeKey;
    if i < |v.entries| {
      var key := v.entries[i].key;
      var k := NativeKey(e, c, key, index, Keys(done));
      NativeBudget(e, c, test, v.entries[i].value, depth + 1, key, left);
      var r := if CleanKey(e, c, key, index) != key then (NString(MASK), left)
               else NativeAt(e, c, test, v.entries[i].value, depth + 1, key, left);
      var more := done + [Entry(k.0, r.0)];
      RetainedNativePrefix(done, more, |done|);
      EntriesBudget(e, c, test, v, i + 1, k.1, depth, more, r.1);
    }
  }

  lemma {:induction false} ItemsBudget(e: Env, c: Config, test: DepthTest, v: Native, i: nat, depth: nat,
                                       done: seq<Native>, left: int)
    requires v.NArray? && i <= |v.items| && left >= 0
    ensures var r := NativeItems(e, c, test, v, i, depth, done, left);
            0 <= r.1
            && RetainedNativeItems(NArray(r.0), |r.0|) - RetainedNativeItems(NArray(done), |done|) <= left - r.1
    decreases Room(c, depth), 1, v, |v.items| - i
  {
    hide NativeAt;
    if i < |v.items| {
      NativeBudget(e, c, test, v.items[i], depth + 1, "", left);
      var r := NativeAt(e, c, test, v.items[i], depth + 1, "", left);
      RetainedNativeItemsPrefix(done, done + [r.0], |done|);
      ItemsBudget(e, c, test, v, i + 1, depth, done + [r.0], r.1);
    }
  }

  /** The values of an output that are more than a mask or a limit mark. */
  function Retained(v: Value): nat {
    match v
    case VStr(s) => if s == MASK || s == LIMIT then 0 else 1
    case VMap(entries) => 1 + RetainedEntries(v, |entries|)
    case VSlice(items) => 1 + RetainedItems(v, |items|)
    case _ => 1
  }

  function RetainedEntries(v: Value, n: nat): nat
    requires v.VMap? && n <= |v.entries|
    decreases v, n
  {
    if n == 0 then 0 else RetainedEntries(v, n - 1) + Retained(v.entries[n - 1].value)
  }

  function RetainedItems(v: Value, n: nat): nat
    requires v.VSlice? && n <= |v.items|
    decreases v, n
  {
    if n == 0 then 0 else RetainedItems(v, n - 1) + Retained(v.items[n - 1])
  }

  lemma {:induction false} RetainedPrefix(a: seq<Entry<Value>>, b: seq<Entry<Value>>, n: nat)
    requires n <= |a| && n <= |b| && forall k :: 0 <= k < n ==> a[k] == b[k]
    ensures RetainedEntries(VMap(a), n) == RetainedEntries(VMap(b), n)
    decreases n
  {
    if n > 0 { RetainedPrefix(a, b, n - 1); }
  }

  lemma {:induction false} RetainedItemsPrefix(a: seq<Value>, b: seq<Value>, n: nat)
    requires n <= |a| && n <= |b| && forall k :: 0 <= k < n ==> a[k] == b[k]
    ensures RetainedItems(VSlice(a), n) == RetainedItems(VSlice(b), n)
    decreases n
  {
    if n > 0 { RetainedItemsPrefix(a, b, n - 1); }
  }

  /** Everything retained has been charged, and the budget never goes below zero. */
  lemma {:induction false} ValueBudget(e: Env, c: Config, v: Value, depth: nat, key: string, left: int)
    requires left >= 0
    ensures var r := ValueAt(e, c, v, depth, key, left); 0 <= r.1 && Retained(r.0) <= left - r.1
    decreases Room(c, depth), v
  {
    hide TextAt, MapInto, SliceInto, Sql;
    if left > 0 {
      match v {
        case VStr(s) => TextBudget(e, c, Every, s, depth, left - 1);
        case VMap(_) => MapBudget(e, c, v, 0, 0, depth, [], left - 1);
        case VSlice(_) => SliceBudget(e, c, v, 0, depth, [], left - 1);
        case _ =>
      }
    }
  }

  lemma {:induction false} MapBudget(e: Env, c: Config, v: Value, i: nat, index: nat, depth: nat,
                                     done: seq<Entry<Value>>, left: int)
    requires v.VMap? && i <= |v.entries| && left >= 0
    ensures var r := MapInto(e, c, v, i, index, depth, done, left);
            0 <= r.1 && RetainedEntries(VMap(r.0), |r.0|) - RetainedEntries(VMap(done), |done|) <= left - r.1
    decreases Room(c, depth), v, |v.entries| - i
  {
    hide ValueAt, CleanKey, MapKey;
    if i < |v.entries| {
      var key := v.entries[i].key;
      var k := MapKey(e, c, key, index, Keys(done));
      ValueBudget(e, c, v.entries[i].value, depth + 1, key, left);
      var r := if CleanKey(e, c, key, index) != key then (VStr(MASK), left)
               else ValueAt(e, c, v.entries[i].value, depth + 1, key, left);
      var more := done + [Entry(k.0, r.0)];
      RetainedPrefix(done, more, |done|);
      MapBudget(e, c, v, i + 1, k.1, depth, more, r.1);
    }
  }

  lemma {:induction false} SliceBudget(e: Env, c: Config, v: Value, i: nat, depth: nat, done: seq<Value>, left: int)
    requires v.VSlice? && i <= |v.items| && left >= 0
    ensures var r := SliceInto(e, c, v, i, depth, done, left);
            0 <= r.1 && RetainedItems(VSlice(r.0), |r.0|) - RetainedItems(VSlice(done), |done|) <= left - r.1
    decreases Room(c, depth), v, |v.items| - i
  {
    hide ValueAt;
    if i < |v.items| {
      ValueBudget(e, c, v.items[i], depth + 1, "", left);
      var r := ValueAt(e, c, v.items[i], depth + 1, "", left);
      RetainedItemsPrefix(done, done + [r.0], |done|);
      SliceBudget(e, c, v, i + 1, depth, done + [r.0], r.1);
    }
  }

  /** A fresh sanitizer retains at most `maxItems` values of an attribute map. */
  lemma AttributesBounded(e: Env, c: Config, input: seq<Entry<Value>>)
    ensures var r := Attributes(e, c, input, c.maxItems);
            0 <= r.1 && RetainedEntries(VMap(r.0), |r.0|) <= c.maxItems - r.1
  {
    hide MapInto;
    if |input| <= c.maxItems {
      MapBudget(e, c, VMap(input), 0, 0, 0, [], c.maxItems);
    } else {
      var r := [Entry("elven.redaction", VStr(LIMIT))];
      assert RetainedEntries(VMap(r), 1) == RetainedEntries(VMap(r), 0) + Retained(VStr(LIMIT));
    }
  }
}
