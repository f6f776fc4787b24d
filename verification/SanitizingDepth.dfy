/** What the flat depth scan leaves for the depth limit to cut: scalars, but never a container. */
module SanitizingDepth {
  import opened Bytes
  import opened JsonDepth
  import opened Sanitizing

  // ---------- levels of a decoded value ----------

  /** Levels of `v`, when a scalar counts `leaf` of them. */
  function LevelsOf(v: Native, leaf: nat): nat
    decreases v
  {
    match v
    case NObject(entries) => 1 + LevelsOfEntries(v, |entries|, leaf)
    case NArray(items) => 1 + LevelsOfItems(v, |items|, leaf)
    case _ => leaf
  }

  function LevelsOfEntries(v: Native, n: nat, leaf: nat): nat
    requires v.NObject? && n <= |v.entries|
    decreases v, n
  {
    if n == 0 then 0 else Max(LevelsOfEntries(v, n - 1, leaf), LevelsOf(v.entries[n - 1].value, leaf))
  }

  function LevelsOfItems(v: Native, n: nat, leaf: nat): nat
    requires v.NArray? && n <= |v.items|
    decreases v, n
  {
    if n == 0 then 0 else Max(LevelsOfItems(v, n - 1, leaf), LevelsOf(v.items[n - 1], leaf))
  }

  /** `v` is what a parser may read from `d`; of repeated keys it keeps one. */
  ghost predicate Reads(d: Doc, v: Native)
    decreases d
  {
    match (d, v)
    case (Scalar(_), NNull) => true
    case (Scalar(_), NBool(_)) => true
    case (Scalar(_), NNumber(_)) => true
    case (Quoted(_), NString(_)) => true
    case (List(es), NArray(items)) => ReadsElems(es, items)
    case (Dict(ms), NObject(entries)) => forall k :: 0 <= k < |entries| ==> ReadsMember(ms, entries[k].value)
    case _ => false
  }

  ghost predicate ReadsElems(es: Elems, items: seq<Native>)
    decreases es
  {
    match es
    case NoElem(_) => items == []
    case Elem(_, d, rest) => items != [] && Reads(d, items[0]) && ReadsElems(rest, items[1..])
  }

  ghost predicate ReadsMember(ms: Members, v: Native)
    decreases ms
  {
    ms.Member? && (Reads(ms.doc, v) || ReadsMember(ms.rest, v))
  }

  /** The decoder returns only values that stand in the text. */
  ghost predicate ParsesDocuments(e: Env) {
    forall t: string :: e.parse(t).Some? ==> exists d: Doc :: Writes(t, d) && Reads(d, e.parse(t).value)
  }

  lemma {:induction false} ReadsLevels(d: Doc, v: Native, leaf: nat)
    requires Reads(d, v)
    ensures LevelsOf(v, leaf) <= Levels(d, leaf)
    decreases d
  {
    match (d, v) {
      case (List(es), NArray(items)) => ReadsElemsLevels(es, items, v, |items|, leaf);
      case (Dict(ms), NObject(entries)) => ReadsMembersLevels(ms, v, |entries|, leaf);
      case _ =>
    }
  }

  lemma {:induction false} ReadsElemsLevels(es: Elems, items: seq<Native>, v: Native, n: nat, leaf: nat)
    requires ReadsElems(es, items) && v.NArray? && |items| <= |v.items| && items == v.items[|v.items| - |items|..]
    requires n == |v.items|
    ensures forall k :: |v.items| - |items| <= k < |v.items| ==> LevelsOf(v.items[k], leaf) <= ElemsLevels(es, leaf)
    ensures |items| == |v.items| ==> LevelsOfItems(v, n, leaf) <= ElemsLevels(es, leaf)
    decreases es
  {
    if es.Elem? {
      ReadsLevels(es.doc, items[0], leaf);
      assert items[1..] == v.items[|v.items| - |items[1..]|..];
      ReadsElemsLevels(es.rest, items[1..], v, n, leaf);
      var first := |v.items| - |items|;
      forall k | first <= k < |v.items| ensures LevelsOf(v.items[k], leaf) <= ElemsLevels(es, leaf) {
        if k == first { assert v.items[k] == items[0]; }
      }
    }
    if |items| == |v.items| { ItemsBound(v, n, leaf, ElemsLevels(es, leaf)); }
  }

  lemma {:induction false} ReadsMembersLevels(ms: Members, v: Native, n: nat, leaf: nat)
    requires v.NObject? && n <= |v.entries| && forall k :: 0 <= k < n ==> ReadsMember(ms, v.entries[k].value)
    ensures LevelsOfEntries(v, n, leaf) <= MembersLevels(ms, leaf)
    decreases ms, n + 1
  {
    if n > 0 {
      ReadsMembersLevels(ms, v, n - 1, leaf);
      ReadsMemberLevels(ms, v.entries[n - 1].value, leaf);
    }
  }

  lemma {:induction false} ReadsMemberLevels(ms: Members, v: Native, leaf: nat)
    requires ReadsMember(ms, v)
    ensures LevelsOf(v, leaf) <= MembersLevels(ms, leaf)
    decreases ms, 0
  {
    if Reads(ms.doc, v) { ReadsLevels(ms.doc, v, leaf); } else { ReadsMemberLevels(ms.rest, v, leaf); }
  }

  lemma {:induction false} EntriesBound(v: Native, n: nat, leaf: nat, bound: nat)
    requires v.NObject? && n <= |v.entries|
    ensures LevelsOfEntries(v, n, leaf) <= bound <==>
              forall k :: 0 <= k < n ==> LevelsOf(v.entries[k].value, leaf) <= bound
    decreases n
  {
    if n > 0 { EntriesBound(v, n - 1, leaf, bound); }
  }

  lemma {:induction false} ItemsBound(v: Native, n: nat, leaf: nat, bound: nat)
    requires v.NArray? && n <= |v.items|
    ensures LevelsOfItems(v, n, leaf) <= bound <==> forall k :: 0 <= k < n ==> LevelsOf(v.items[k], leaf) <= bound
    decreases n
  {
    if n > 0 { ItemsBound(v, n - 1, leaf, bound); }
  }

  lemma EntryLevels(v: Native, k: nat, leaf: nat)
    requires v.NObject? && k < |v.entries|
    ensures LevelsOf(v.entries[k].value, leaf) + 1 <= LevelsOf(v, leaf)
  {
    EntriesBound(v, |v.entries|, leaf, LevelsOfEntries(v, |v.entries|, leaf));
  }

  lemma ItemLevels(v: Native, k: nat, leaf: nat)
    requires v.NArray? && k < |v.items|
    ensures LevelsOf(v.items[k], leaf) + 1 <= LevelsOf(v, leaf)
  {
    ItemsBound(v, |v.items|, leaf, LevelsOfItems(v, |v.items|, leaf));
  }

  // ---------- containers are never cut ----------

  /** Once the flat scan has passed, exempting containers from the depth limit changes nothing: at every level,
      also inside JSON held in strings, depth never cuts a container. */
  lemma {:induction false} DepthNeverCutsText(e: Env, c: Config, input: string, depth: nat, left: int)
    requires ParsesDocuments(e)
    ensures TextAt(e, c, Every, input, depth, left) == TextAt(e, c, ScalarsOnly, input, depth, left)
    decreases Room(c, depth), 0
  {
    hide DepthAllowed, ValidUtf8, NativeAt, Writes, Reads;
    if depth <= c.maxDepth {
      var decoded := if e.looksLikeJson(input) then Some(input) else e.decodeLayers(input);
      if decoded.Some? && DepthAllowed(decoded.value, depth, c.maxDepth) {
        var v := e.parse(decoded.value);
        if v.Some? {
          var d: Doc :| Writes(decoded.value, d) && Reads(d, v.value);
          DepthAllowedExact(decoded.value, d, depth, c.maxDepth);
          ReadsLevels(d, v.value, 0);
          DepthNeverCutsNative(e, c, v.value, depth + 1, "", left);
        }
      }
    }
  }

  lemma {:induction false} DepthNeverCutsNative(e: Env, c: Config, v: Native, depth: nat, key: string, left: int)
    requires ParsesDocuments(e) && depth > 0 && Fits(LevelsOf(v, 0), depth - 1, c.maxDepth)
    ensures NativeAt(e, c, Every, v, depth, key, left) == NativeAt(e, c, ScalarsOnly, v, depth, key, left)
    decreases Room(c, depth), 1, v
  {
    hide TextAt, NativeEntries, NativeItems, Sql, Number, ParsesDocuments;
    match v {
      case NString(s) => if depth <= c.maxDepth { DepthNeverCutsText(e, c, s, depth, left - 1); }
      case NObject(_) => DepthNeverCutsEntries(e, c, v, 0, 0, depth, [], left - 1);
      case NArray(_) => DepthNeverCutsItems(e, c, v, 0, depth, [], left - 1);
      case _ =>
    }
  }

  lemma {:induction false} DepthNeverCutsEntries(e: Env, c: Config, v: Native, i: nat, index: nat, depth: nat,
                                                 done: seq<Entry<Native>>, left: int)
    requires ParsesDocuments(e) && v.NObject? && i <= |v.entries|
    requires depth > 0 && depth - 1 + LevelsOf(v, 0) <= c.maxDepth
    ensures NativeEntries(e, c, Every, v, i, index, depth, done, left)
         == NativeEntries(e, c, ScalarsOnly, v, i, index, depth, done, left)
    decreases Room(c, depth), 1, v, |v.entries| - i
  {
    hide NativeAt, CleanKey, NativeKey, ParsesDocuments;
    if i < |v.entries| {
      var key := v.entries[i].key;
      var k := NativeKey(e, c, key, index, Keys(done));
      EntryLevels(v, i, 0);
      DepthNeverCutsNative(e, c, v.entries[i].value, depth + 1, key, left);
      var r := if CleanKey(e, c, key, index) != key then (NString(MASK), left)
               else NativeAt(e, c, Every, v.entries[i].value, depth + 1, key, left);
      DepthNeverCutsEntries(e, c, v, i + 1, k.1, depth, done + [Entry(k.0, r.0)], r.1);
    }
  }

  lemma {:induction false} DepthNeverCutsItems(e: Env, c: Config, v: Native, i: nat, depth: nat,
                                               done: seq<Native>, left: int)
    requires ParsesDocuments(e) && v.NArray? && i <= |v.items|
    requires depth > 0 && depth - 1 + LevelsOf(v, 0) <= c.maxDepth
    ensures NativeItems(e, c, Every, v, i, depth, done, left) == NativeItems(e, c, ScalarsOnly, v, i, depth, done, left)
    decreases Room(c, depth), 1, v, |v.items| - i
  {
    hide NativeAt, ParsesDocuments;
    if i < |v.items| {
      ItemLevels(v, i, 0);
      DepthNeverCutsNative(e, c, v.items[i], depth + 1, "", left);
      var r := NativeAt(e, c, Every, v.items[i], depth + 1, "", left);
      DepthNeverCutsItems(e, c, v, i + 1, depth, done + [r.0], r.1);
    }
  }

  // ---------- a scalar can be ----------

  /** A document that passes the flat scan and whose scalar is cut all the same: its height is one too many. */
  lemma ScalarCutAfterScan(e: Env, c: Config, left: int)
    requires c.maxDepth == 2 && c.maxItems >= 1 && left >= 2 && !e.sensitiveKey("") && !e.sqlKey("")
    ensures var d := List(Elem("", Scalar("true"), NoElem("")));
            Writes("[true]", d) && Nest(d) == 1 && Height(d) == 2 && Reads(d, NArray([NBool(true)]))
    ensures DepthAllowed("[true]", 1, c.maxDepth)
    ensures NativeAt(e, c, Every, NArray([NBool(true)]), 2, "", left).0 == NArray([NString(LIMIT)])
    ensures NativeAt(e, c, Never, NArray([NBool(true)]), 2, "", left).0 == NArray([NBool(true)])
  {
    var d := List(Elem("", Scalar("true"), NoElem("")));
    WritesTrue(d);
    DepthAllowedExact("[true]", d, 1, c.maxDepth);
    var v := NArray([NBool(true)]);
    OneItem(e, c, Every, v, left - 1);
    OneItem(e, c, Never, v, left - 1);
  }

  lemma WritesTrue(d: Doc)
    requires d == List(Elem("", Scalar("true"), NoElem("")))
    ensures Writes("[true]", d) && Reads(d, NArray([NBool(true)]))
  {
    TruePrinted();
    hide Print, PrintElems;
    assert AllQuiet("") && Valid(d) && "[true]" == "" + (Print(d) + "");
    assert [NBool(true)][1..] == [];
  }

  lemma TruePrinted()
    ensures Print(List(Elem("", Scalar("true"), NoElem("")))) == "[true]"
  {
    assert PrintElems(Elem("", Scalar("true"), NoElem(""))) == "" + (Print(Scalar("true")) + "");
    assert "" + ("true" + "") == "true";
    hide PrintElems;
    assert "[" + ("true" + "]") == "[true]";
  }

  lemma OneItem(e: Env, c: Config, test: DepthTest, v: Native, left: int)
    requires v == NArray([NBool(true)]) && c.maxDepth == 2 && left >= 1 && !e.sensitiveKey("") && !e.sqlKey("")
    ensures NativeItems(e, c, test, v, 0, 2, [], left).0 == [NativeAt(e, c, test, NBool(true), 3, "", left).0]
  {
    var r := NativeAt(e, c, test, NBool(true), 3, "", left);
    assert [] + [r.0] == [r.0];
    assert NativeItems(e, c, test, v, 1, 2, [r.0], r.1) == ([r.0], r.1);
  }
}
