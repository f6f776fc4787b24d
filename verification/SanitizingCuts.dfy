/** Exactly when the depth limit cuts something: when a value that it is applied to stands too deep. */
module SanitizingCuts {
  import opened Sanitizing
  import opened SanitizingKeys

  // ---------- the values that are tested ----------

  /** The children of a container, by position. */
  function Children(v: Native): seq<Native> {
    match v
    case NObject(entries) => seq(|entries|, k requires 0 <= k < |entries| => entries[k].value)
    case NArray(items) => items
    case _ => []
  }

  /** The key under which `native` meets a child. */
  function ChildKey(v: Native, k: nat): string
    requires k < |Children(v)|
  {
    if v.NObject? then v.entries[k].key else ""
  }

  /** The keys stored before entry `k` is met, and the index then. */
  function KeysBefore(e: Env, c: Config, v: Native, k: nat): (set<string>, nat)
    requires v.NObject? && k <= |v.entries|
  {
    if k == 0 then ({}, 0)
    else
      var b := KeysBefore(e, c, v, k - 1);
      var n := NativeKey(e, c, v.entries[k - 1].key, b.1, b.0);
      (b.0 + {n.0}, n.1)
  }

  /** The child is masked with its key, so that `native` is not called on it. */
  predicate Skipped(e: Env, c: Config, v: Native, k: nat)
    requires k < |Children(v)|
  {
    v.NObject? && CleanKey(e, c, v.entries[k].key, KeysBefore(e, c, v, k).1) != v.entries[k].key
  }

  /** `native` goes on to the children: no key masks the value, and it is not too large. */
  predicate Opens(e: Env, c: Config, v: Native, key: string) {
    !e.sensitiveKey(key) && !e.sqlKey(key) && |Children(v)| <= c.maxItems
  }

  /** Every value of the JSON in a text to which the depth limit is applied stands within it. */
  predicate TextFits(e: Env, c: Config, input: string, depth: nat)
    decreases Room(c, depth), 0
  {
    match Handed(e, c, input, depth)
    case None => true
    case Some(v) => ValueFits(e, c, v, depth + 1, "")
  }

  /** The same for a value met under `key`, in its children and in the JSON its strings hold. */
  predicate ValueFits(e: Env, c: Config, v: Native, depth: nat, key: string)
    decreases Room(c, depth), 1, v
  {
    || e.sensitiveKey(key)
    || (depth <= c.maxDepth
        && (e.sqlKey(key)
            || if v.NString? then TextFits(e, c, v.s, depth)
               else Opens(e, c, v, key) ==> AllFit(e, c, v, |Children(v)|, depth)))
  }

  /** The first `n` children fit, unless they are masked with their keys. */
  predicate AllFit(e: Env, c: Config, v: Native, n: nat, depth: nat)
    requires n <= |Children(v)| && depth <= c.maxDepth
    decreases Room(c, depth), 0
  {
    forall k: nat :: k < n ==> Skipped(e, c, v, k) || ValueFits(e, c, Children(v)[k], depth + 1, ChildKey(v, k))
  }

  lemma ChildFits(e: Env, c: Config, v: Native, n: nat, depth: nat, k: nat)
    requires k < n <= |Children(v)| && depth <= c.maxDepth && AllFit(e, c, v, n, depth)
    ensures Skipped(e, c, v, k) || ValueFits(e, c, Children(v)[k], depth + 1, ChildKey(v, k))
  {}

  lemma NoneFit(e: Env, c: Config, v: Native, depth: nat)
    requires depth <= c.maxDepth
    ensures AllFit(e, c, v, 0, depth)
  {}

  lemma AllFitStep(e: Env, c: Config, v: Native, n: nat, depth: nat)
    requires 0 < n <= |Children(v)| && depth <= c.maxDepth
    ensures AllFit(e, c, v, n, depth) <==>
              AllFit(e, c, v, n - 1, depth)
              && (Skipped(e, c, v, n - 1) || ValueFits(e, c, Children(v)[n - 1], depth + 1, ChildKey(v, n - 1)))
  {
    hide ValueFits, Skipped, Children, ChildKey;
  }

  // ---------- when they fit, nothing is cut ----------

  /** A text whose tested values fit is cleaned as if `native` had no depth test at all. */
  lemma {:induction false} FittingTextUncut(e: Env, c: Config, input: string, depth: nat, left: int)
    requires TextFits(e, c, input, depth)
    ensures TextAt(e, c, Every, input, depth, left) == TextAt(e, c, Never, input, depth, left)
    decreases Room(c, depth), 0
  {
    hide TextAt, NativeAt, Handed, ValueFits, Written;
    TextHands(e, c, Every, input, depth, left);
    TextHands(e, c, Never, input, depth, left);
    if Handed(e, c, input, depth).Some? {
      FittingValueUncut(e, c, Handed(e, c, input, depth).value, depth + 1, "", left);
    }
  }

  lemma {:induction false} FittingValueUncut(e: Env, c: Config, v: Native, depth: nat, key: string, left: int)
    requires ValueFits(e, c, v, depth, key)
    ensures NativeAt(e, c, Every, v, depth, key, left) == NativeAt(e, c, Never, v, depth, key, left)
    decreases Room(c, depth), 1, v
  {
    hide TextAt, NativeEntries, NativeItems, Sql, Number, TextFits, AllFit;
    if Opens(e, c, v, key) {
      match v {
        case NString(s) => FittingTextUncut(e, c, s, depth, left - 1);
        case NObject(_) =>
          MetFirst(e, c, v);
          FittingEntriesUncut(e, c, v, 0, 0, depth, [], left - 1);
        case NArray(_) => FittingItemsUncut(e, c, v, 0, depth, [], left - 1);
        case _ =>
      }
    }
  }

  /** What has been stored and the index, when entry `i` is met. */
  ghost predicate Met(e: Env, c: Config, v: Native, i: nat, index: nat, done: seq<Entry<Native>>) {
    v.NObject? && i <= |v.entries| && |done| == i && KeysBefore(e, c, v, i) == (Keys(done), index)
  }

  lemma MetNext(e: Env, c: Config, v: Native, i: nat, index: nat, done: seq<Entry<Native>>, value: Native)
    requires Met(e, c, v, i, index, done) && i < |v.entries|
    ensures var n := NativeKey(e, c, v.entries[i].key, index, Keys(done));
            Met(e, c, v, i + 1, n.1, done + [Entry(n.0, value)])
    ensures i < |Children(v)| && Children(v)[i] == v.entries[i].value && ChildKey(v, i) == v.entries[i].key
    ensures Skipped(e, c, v, i) <==> CleanKey(e, c, v.entries[i].key, index) != v.entries[i].key
  {
    hide NativeKey, CleanKey;
    KeysMore(done, Entry(NativeKey(e, c, v.entries[i].key, index, Keys(done)).0, value));
  }

  lemma {:induction false} FittingEntriesUncut(e: Env, c: Config, v: Native, i: nat, index: nat, depth: nat,
                                               done: seq<Entry<Native>>, left: int)
    requires Met(e, c, v, i, index, done)
    requires depth <= c.maxDepth && AllFit(e, c, v, |Children(v)|, depth)
    ensures NativeEntries(e, c, Every, v, i, index, depth, done, left)
         == NativeEntries(e, c, Never, v, i, index, depth, done, left)
    decreases Room(c, depth), 1, v, |v.entries| - i
  {
    hide NativeAt, CleanKey, NativeKey, Met, ValueFits, Skipped, Children, AllFit, ChildKey;
    MetBound(e, c, v, i, index, done);
    if i < |v.entries| {
      var key := v.entries[i].key;
      var k := NativeKey(e, c, key, index, Keys(done));
      var r := if CleanKey(e, c, key, index) != key then (NString(MASK), left)
               else NativeAt(e, c, Every, v.entries[i].value, depth + 1, key, left);
      MetNext(e, c, v, i, index, done, r.0);
      ChildFits(e, c, v, |Children(v)|, depth, i);
      if CleanKey(e, c, key, index) == key {
        FittingValueUncut(e, c, v.entries[i].value, depth + 1, key, left);
      }
      FittingEntriesUncut(e, c, v, i + 1, k.1, depth, done + [Entry(k.0, r.0)], r.1);
    }
  }

  lemma MetBound(e: Env, c: Config, v: Native, i: nat, index: nat, done: seq<Entry<Native>>)
    requires Met(e, c, v, i, index, done)
    ensures v.NObject? && i <= |v.entries| && |done| == i && |Children(v)| == |v.entries|
  {}

  lemma {:induction false} FittingItemsUncut(e: Env, c: Config, v: Native, i: nat, depth: nat,
                                             done: seq<Native>, left: int)
    requires v.NArray? && i <= |v.items|
    requires depth <= c.maxDepth && AllFit(e, c, v, |Children(v)|, depth)
    ensures NativeItems(e, c, Every, v, i, depth, done, left) == NativeItems(e, c, Never, v, i, depth, done, left)
    decreases Room(c, depth), 1, v, |v.items| - i
  {
    hide NativeAt, ValueFits, AllFit;
    if i < |v.items| {
      ChildFits(e, c, v, |Children(v)|, depth, i);
      FittingValueUncut(e, c, v.items[i], depth + 1, "", left);
      var r := NativeAt(e, c, Every, v.items[i], depth + 1, "", left);
      FittingItemsUncut(e, c, v, i + 1, depth, done + [r.0], r.1);
    }
  }

  // ---------- what a run costs when the budget never runs out ----------

  /** A budget that lets `native` reach everything in `v`. */
  function Ample(e: Env, c: Config, v: Native, depth: nat): nat
    decreases Room(c, depth), 1, v
  {
    if v.NString? then 1 + AmpleText(e, c, v.s, depth)
    else 1 + |Children(v)| + AmpleFor(e, c, v, |Children(v)|, depth)
  }

  function AmpleFor(e: Env, c: Config, v: Native, n: nat, depth: nat): nat
    requires n <= |Children(v)|
    decreases Room(c, depth), 1, v, n
  {
    if n == 0 then 0 else AmpleFor(e, c, v, n - 1, depth) + Ample(e, c, Children(v)[n - 1], depth + 1)
  }

  function AmpleText(e: Env, c: Config, input: string, depth: nat): nat
    decreases Room(c, depth), 0
  {
    match Handed(e, c, input, depth)
    case None => 0
    case Some(v) => Ample(e, c, v, depth + 1)
  }

  /** What `native` charges then. */
  function Cost(e: Env, c: Config, test: DepthTest, v: Native, depth: nat, key: string): nat
    decreases Room(c, depth), 1, v
  {
    if e.sensitiveKey(key) || TooDeep(c, test, v, depth) then 0
    else if !Opens(e, c, v, key) then 1
    else if v.NString? then 1 + CostText(e, c, test, v.s, depth)
    else 1 + CostFor(e, c, test, v, |Children(v)|, depth)
  }

  /** What it charges for the first `n` children. */
  function CostFor(e: Env, c: Config, test: DepthTest, v: Native, n: nat, depth: nat): nat
    requires n <= |Children(v)|
    decreases Room(c, depth), 1, v, n
  {
    if n == 0 then 0
    else CostFor(e, c, test, v, n - 1, depth)
         + if Skipped(e, c, v, n - 1) then 0
           else Cost(e, c, test, Children(v)[n - 1], depth + 1, ChildKey(v, n - 1))
  }

  function CostText(e: Env, c: Config, test: DepthTest, input: string, depth: nat): nat
    decreases Room(c, depth), 0
  {
    match Handed(e, c, input, depth)
    case None => 0
    case Some(v) => Cost(e, c, test, v, depth + 1, "")
  }

  lemma {:induction false} CostIsAmple(e: Env, c: Config, test: DepthTest, v: Native, depth: nat, key: string)
    ensures Cost(e, c, test, v, depth, key) <= Ample(e, c, v, depth)
    decreases Room(c, depth), 1, v
  {
    hide Opens, Handed, Children, TooDeep;
    if v.NString? {
      CostTextIsAmple(e, c, test, v.s, depth);
    } else {
      CostForIsAmple(e, c, test, v, |Children(v)|, depth);
    }
  }

  lemma {:induction false} CostForIsAmple(e: Env, c: Config, test: DepthTest, v: Native, n: nat, depth: nat)
    requires n <= |Children(v)|
    ensures CostFor(e, c, test, v, n, depth) <= AmpleFor(e, c, v, n, depth)
    decreases Room(c, depth), 1, v, n
  {
    hide Cost, Ample, Skipped;
    if n > 0 {
      CostForIsAmple(e, c, test, v, n - 1, depth);
      CostIsAmple(e, c, test, Children(v)[n - 1], depth + 1, ChildKey(v, n - 1));
    }
  }

  lemma {:induction false} CostTextIsAmple(e: Env, c: Config, test: DepthTest, input: string, depth: nat)
    ensures CostText(e, c, test, input, depth) <= AmpleText(e, c, input, depth)
    decreases Room(c, depth), 0
  {
    hide Cost, Ample, Handed;
    if Handed(e, c, input, depth).Some? {
      CostIsAmple(e, c, test, Handed(e, c, input, depth).value, depth + 1, "");
    }
  }

  lemma {:induction false} AmpleGrows(e: Env, c: Config, v: Native, i: nat, n: nat, depth: nat)
    requires i <= n <= |Children(v)|
    ensures AmpleFor(e, c, v, i, depth) <= AmpleFor(e, c, v, n, depth)
    decreases n
  {
    hide Ample, Children;
    if i < n { AmpleGrows(e, c, v, i, n - 1, depth); }
  }

  lemma {:induction false} Charged(e: Env, c: Config, test: DepthTest, v: Native, depth: nat, key: string, left: int)
    requires left >= Ample(e, c, v, depth)
    ensures NativeAt(e, c, test, v, depth, key, left).1 == left - Cost(e, c, test, v, depth, key)
    decreases Room(c, depth), 1, v
  {
    hide TextAt, NativeEntries, NativeItems, Sql, Number, AmpleFor, AmpleText, CostFor, CostText, Met;
    if Opens(e, c, v, key) {
      match v {
        case NString(s) => ChargedText(e, c, test, s, depth, left - 1);
        case NObject(_) =>
          MetFirst(e, c, v);
          ChargedNone(e, c, test, v, depth);
          ChargedEntries(e, c, test, v, 0, 0, depth, [], left - 1);
        case NArray(_) =>
          ChargedNone(e, c, test, v, depth);
          ChargedItems(e, c, test, v, 0, depth, [], left - 1);
        case _ => ChargedNone(e, c, test, v, depth);
      }
    }
  }

  lemma MetFirst(e: Env, c: Config, v: Native)
    requires v.NObject?
    ensures Met(e, c, v, 0, 0, [])
  {
    var none: seq<Entry<Native>> := [];
    assert Keys(none) == {};
  }

  lemma ChargedNone(e: Env, c: Config, test: DepthTest, v: Native, depth: nat)
    ensures AmpleFor(e, c, v, 0, depth) == 0 && CostFor(e, c, test, v, 0, depth) == 0
  {}

  lemma {:induction false} ChargedText(e: Env, c: Config, test: DepthTest, input: string, depth: nat, left: int)
    requires left >= AmpleText(e, c, input, depth)
    ensures TextAt(e, c, test, input, depth, left).1 == left - CostText(e, c, test, input, depth)
    decreases Room(c, depth), 0
  {
    hide TextAt, NativeAt, Handed, Cost, Ample, Written;
    TextHands(e, c, test, input, depth, left);
    if Handed(e, c, input, depth).Some? {
      Charged(e, c, test, Handed(e, c, input, depth).value, depth + 1, "", left);
    }
  }

  lemma {:induction false} ChargedEntries(e: Env, c: Config, test: DepthTest, v: Native, i: nat, index: nat, depth: nat,
                                          done: seq<Entry<Native>>, left: int)
    requires Met(e, c, v, i, index, done)
    requires var n := |Children(v)|; left >= AmpleFor(e, c, v, n, depth) - AmpleFor(e, c, v, i, depth)
    ensures NativeEntries(e, c, test, v, i, index, depth, done, left).1
         == left - (CostFor(e, c, test, v, |Children(v)|, depth) - CostFor(e, c, test, v, i, depth))
    decreases Room(c, depth), 1, v, |v.entries| - i
  {
    hide NativeAt, CleanKey, NativeKey, Met, Skipped, Children, Cost, Ample, ChildKey;
    MetBound(e, c, v, i, index, done);
    if i < |v.entries| {
      var key := v.entries[i].key;
      var k := NativeKey(e, c, key, index, Keys(done));
      var r := if CleanKey(e, c, key, index) != key then (NString(MASK), left)
               else NativeAt(e, c, test, v.entries[i].value, depth + 1, key, left);
      MetNext(e, c, v, i, index, done, r.0);
      AmpleGrows(e, c, v, i + 1, |Children(v)|, depth);
      CostIsAmple(e, c, test, v.entries[i].value, depth + 1, key);
      if CleanKey(e, c, key, index) == key {
        Charged(e, c, test, v.entries[i].value, depth + 1, key, left);
      }
      ChargedEntries(e, c, test, v, i + 1, k.1, depth, done + [Entry(k.0, r.0)], r.1);
    }
  }

  lemma {:induction false} ChargedItems(e: Env, c: Config, test: DepthTest, v: Native, i: nat, depth: nat,
                                        done: seq<Native>, left: int)
    requires v.NArray? && i <= |v.items|
    requires left >= AmpleFor(e, c, v, |v.items|, depth) - AmpleFor(e, c, v, i, depth)
    ensures NativeItems(e, c, test, v, i, depth, done, left).1
         == left - (CostFor(e, c, test, v, |v.items|, depth) - CostFor(e, c, test, v, i, depth))
    decreases Room(c, depth), 1, v, |v.items| - i
  {
    hide NativeAt, Cost, Ample;
    if i < |v.items| {
      AmpleGrows(e, c, v, i + 1, |v.items|, depth);
      CostIsAmple(e, c, test, v.items[i], depth + 1, "");
      Charged(e, c, test, v.items[i], depth + 1, "", left);
      var r := NativeAt(e, c, test, v.items[i], depth + 1, "", left);
      ChargedItems(e, c, test, v, i + 1, depth, done + [r.0], r.1);
    }
  }

  // ---------- when one does not fit, the run without the test costs more ----------

  lemma {:induction false} CostGap(e: Env, c: Config, v: Native, depth: nat, key: string)
    ensures var x, y := Cost(e, c, Every, v, depth, key), Cost(e, c, Never, v, depth, key);
            x <= y && (x < y <==> !ValueFits(e, c, v, depth, key))
    decreases Room(c, depth), 1, v
  {
    hide CostFor, CostText, AllFit, TextFits;
    if depth <= c.maxDepth && Opens(e, c, v, key) {
      if v.NString? {
        CostTextGap(e, c, v.s, depth);
      } else {
        CostForGap(e, c, v, |Children(v)|, depth);
      }
    }
  }

  lemma {:induction false} CostForGap(e: Env, c: Config, v: Native, n: nat, depth: nat)
    requires n <= |Children(v)| && depth <= c.maxDepth
    ensures var x, y := CostFor(e, c, Every, v, n, depth), CostFor(e, c, Never, v, n, depth);
            x <= y && (x < y <==> !AllFit(e, c, v, n, depth))
    decreases Room(c, depth), 1, v, n
  {
    hide Cost, Skipped, ValueFits, Children, ChildKey, AllFit;
    if n == 0 {
      NoneFit(e, c, v, depth);
    } else {
      CostForGap(e, c, v, n - 1, depth);
      CostGap(e, c, Children(v)[n - 1], depth + 1, ChildKey(v, n - 1));
      AllFitStep(e, c, v, n, depth);
    }
  }

  lemma {:induction false} CostTextGap(e: Env, c: Config, input: string, depth: nat)
    ensures var x, y := CostText(e, c, Every, input, depth), CostText(e, c, Never, input, depth);
            x <= y && (x < y <==> !TextFits(e, c, input, depth))
    decreases Room(c, depth), 0
  {
    hide Cost, ValueFits, Handed;
    if Handed(e, c, input, depth).Some? {
      CostGap(e, c, Handed(e, c, input, depth).value, depth + 1, "");
    }
  }

  /** The depth limit changes the cleaning of a value, its output or its cost, under some budget, exactly when a tested
      value does not fit. */
  lemma ValueUncutExactly(e: Env, c: Config, v: Native, depth: nat, key: string)
    ensures ValueFits(e, c, v, depth, key) <==>
              forall left: int ::
                NativeAt(e, c, Every, v, depth, key, left) == NativeAt(e, c, Never, v, depth, key, left)
  {
    hide *;
    if ValueFits(e, c, v, depth, key) {
      forall left: int
        ensures NativeAt(e, c, Every, v, depth, key, left) == NativeAt(e, c, Never, v, depth, key, left)
      {
        FittingValueUncut(e, c, v, depth, key, left);
      }
    } else {
      var left := Ample(e, c, v, depth);
      Charged(e, c, Every, v, depth, key, left);
      Charged(e, c, Never, v, depth, key, left);
      CostGap(e, c, v, depth, key);
      assert NativeAt(e, c, Every, v, depth, key, left) != NativeAt(e, c, Never, v, depth, key, left);
    }
  }

  /** The same for a text, at every level of strings within strings. */
  lemma TextUncutExactly(e: Env, c: Config, input: string, depth: nat)
    ensures TextFits(e, c, input, depth) <==>
              forall left: int :: TextAt(e, c, Every, input, depth, left) == TextAt(e, c, Never, input, depth, left)
  {
    hide *;
    if TextFits(e, c, input, depth) {
      forall left: int ensures TextAt(e, c, Every, input, depth, left) == TextAt(e, c, Never, input, depth, left) {
        FittingTextUncut(e, c, input, depth, left);
      }
    } else {
      var left := AmpleText(e, c, input, depth);
      ChargedText(e, c, Every, input, depth, left);
      ChargedText(e, c, Never, input, depth, left);
      CostTextGap(e, c, input, depth);
      assert TextAt(e, c, Every, input, depth, left) != TextAt(e, c, Never, input, depth, left);
    }
  }
}
