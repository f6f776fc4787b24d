/** How deep the values stand to which the depth limit is applied, and what is cut of those that stand too deep. */
module SanitizingLevels {
  import opened Bytes
  import opened JsonDepth
  import opened Sanitizing
  import opened SanitizingDepth
  import opened SanitizingCuts

  // ---------- the levels that are tested ----------

  /** Levels of values that the depth limit is applied to. */
  function TestedLevels(e: Env, c: Config, v: Native, key: string): nat
    decreases v
  {
    if e.sensitiveKey(key) then 0
    else if !Opens(e, c, v, key) then 1
    else 1 + TestedBelow(e, c, v, |Children(v)|)
  }

  function TestedBelow(e: Env, c: Config, v: Native, n: nat): nat
    requires n <= |Children(v)|
    decreases v, n
  {
    if n == 0 then 0
    else Max(TestedBelow(e, c, v, n - 1),
             if Skipped(e, c, v, n - 1) then 0 else TestedLevels(e, c, Children(v)[n - 1], ChildKey(v, n - 1)))
  }

  /** The tested strings of `v` hold only texts that fit where they stand. */
  predicate StringsFit(e: Env, c: Config, v: Native, depth: nat, key: string)
    decreases v
  {
    Opens(e, c, v, key) ==>
      if v.NString? then TextFits(e, c, v.s, depth)
      else forall k: nat :: k < |Children(v)| ==>
        Skipped(e, c, v, k) || StringsFit(e, c, Children(v)[k], depth + 1, ChildKey(v, k))
  }

  lemma {:induction false} TestedBound(e: Env, c: Config, v: Native, n: nat, bound: nat)
    requires n <= |Children(v)|
    ensures TestedBelow(e, c, v, n) <= bound <==>
              forall k: nat :: k < n ==>
                Skipped(e, c, v, k) || TestedLevels(e, c, Children(v)[k], ChildKey(v, k)) <= bound
    decreases n
  {
    hide Skipped, TestedLevels, Children, ChildKey;
    if n > 0 { TestedBound(e, c, v, n - 1, bound); }
  }

  /** A value fits exactly when its tested levels fit below the depth above it, and so do the texts in its strings. */
  lemma {:induction false} FitsByLevels(e: Env, c: Config, v: Native, depth: nat, key: string)
    requires depth > 0
    ensures ValueFits(e, c, v, depth, key) <==>
              Fits(TestedLevels(e, c, v, key), depth - 1, c.maxDepth) && StringsFit(e, c, v, depth, key)
    decreases v
  {
    hide Skipped, ChildKey, TextFits, TestedBelow;
    if v.NString? {
      assert TestedBelow(e, c, v, 0) == 0 by { TestedBound(e, c, v, 0, 0); }
    } else {
      forall k: nat | k < |Children(v)|
        ensures ValueFits(e, c, Children(v)[k], depth + 1, ChildKey(v, k)) <==>
                  Fits(TestedLevels(e, c, Children(v)[k], ChildKey(v, k)), depth, c.maxDepth)
                  && StringsFit(e, c, Children(v)[k], depth + 1, ChildKey(v, k))
      {
        FitsByLevels(e, c, Children(v)[k], depth + 1, ChildKey(v, k));
      }
      FitsByChildren(e, c, v, depth, key);
    }
  }

  lemma FitsByChildren(e: Env, c: Config, v: Native, depth: nat, key: string)
    requires depth > 0 && !v.NString?
    requires forall k: nat :: k < |Children(v)| ==>
               (ValueFits(e, c, Children(v)[k], depth + 1, ChildKey(v, k)) <==>
                  Fits(TestedLevels(e, c, Children(v)[k], ChildKey(v, k)), depth, c.maxDepth)
                  && StringsFit(e, c, Children(v)[k], depth + 1, ChildKey(v, k)))
    ensures ValueFits(e, c, v, depth, key) <==>
              Fits(TestedLevels(e, c, v, key), depth - 1, c.maxDepth) && StringsFit(e, c, v, depth, key)
  {
    hide Skipped, ChildKey, Children, TextFits, TestedBelow;
    if depth <= c.maxDepth && Opens(e, c, v, key) {
      TestedBound(e, c, v, |Children(v)|, c.maxDepth - depth);
    }
  }

  /** The depth limit never changes how a text with JSON is cleaned exactly when its initial depth plus the tested
      levels fit, and so do the texts in its tested strings. */
  lemma DepthCutsExactly(e: Env, c: Config, input: string, depth: nat)
    requires Handed(e, c, input, depth).Some?
    ensures var v := Handed(e, c, input, depth).value;
            (forall left: int :: TextAt(e, c, Every, input, depth, left) == TextAt(e, c, Never, input, depth, left))
            <==> Fits(TestedLevels(e, c, v, ""), depth, c.maxDepth) && StringsFit(e, c, v, depth + 1, "")
  {
    hide TextAt, ValueFits, TestedLevels, StringsFit, Handed, Fits;
    TextUncutExactly(e, c, input, depth);
    FitsByLevels(e, c, Handed(e, c, input, depth).value, depth + 1, "");
  }

  /** No more levels are tested than there are. */
  lemma {:induction false} TestedBelowLevels(e: Env, c: Config, v: Native, key: string)
    ensures TestedLevels(e, c, v, key) <= LevelsOf(v, 1)
    decreases v
  {
    hide Skipped, ChildKey;
    LevelsPositive(v);
    if Opens(e, c, v, key) {
      forall k: nat | k < |Children(v)|
        ensures TestedLevels(e, c, Children(v)[k], ChildKey(v, k)) + 1 <= LevelsOf(v, 1)
      {
        TestedBelowLevels(e, c, Children(v)[k], ChildKey(v, k));
        if v.NObject? { EntryLevels(v, k, 1); } else { ItemLevels(v, k, 1); }
      }
      TestedBound(e, c, v, |Children(v)|, LevelsOf(v, 1) - 1);
    }
  }

  lemma LevelsPositive(v: Native)
    ensures LevelsOf(v, 1) > 0
  {}

  /** Read off the document alone: when the initial depth plus its height fits, and so do the texts in its tested
      strings, no value is cut. */
  lemma FittingDocumentUncut(e: Env, c: Config, t: string, d: Doc, depth: nat, left: int)
    requires e.looksLikeJson(t) && e.parse(t).Some? && Writes(t, d) && Reads(d, e.parse(t).value)
    requires depth + Height(d) <= c.maxDepth && StringsFit(e, c, e.parse(t).value, depth + 1, "")
    ensures DepthAllowed(t, depth, c.maxDepth)
    ensures TextAt(e, c, Every, t, depth, left) == TextAt(e, c, Never, t, depth, left)
  {
    hide *;
    var v := e.parse(t).value;
    HeightFits(d, depth, c.maxDepth);
    ReadsLevels(d, v, 1);
    TestedBelowLevels(e, c, v, "");
    FitsByLevels(e, c, v, depth + 1, "");
    ParsedFits(e, c, t, depth);
    FittingTextUncut(e, c, t, depth, left);
    DepthAllowedExact(t, d, depth, c.maxDepth);
  }

  lemma ParsedFits(e: Env, c: Config, t: string, depth: nat)
    requires e.looksLikeJson(t) && e.parse(t).Some? && ValueFits(e, c, e.parse(t).value, depth + 1, "")
    ensures TextFits(e, c, t, depth)
  {
    hide DepthAllowed, ValidUtf8, IsMarker, ValueFits;
  }

  lemma HeightFits(d: Doc, depth: nat, max: nat)
    requires depth + Height(d) <= max
    ensures Height(d) == Levels(d, 1) && Fits(Nest(d), depth, max)
    ensures forall n: nat :: n <= Height(d) ==> Fits(n, depth, max)
  {
    hide Levels;
    NestBelowHeight(d);
  }

  lemma {:induction false} NestBelowHeight(d: Doc)
    ensures Nest(d) <= Height(d)
    decreases d
  {
    match d {
      case List(es) => ElemsBelow(es);
      case Dict(ms) => MembersBelow(ms);
      case _ =>
    }
  }

  lemma {:induction false} ElemsBelow(es: Elems)
    ensures ElemsLevels(es, 0) <= ElemsLevels(es, 1)
    decreases es
  {
    if es.Elem? {
      NestBelowHeight(es.doc);
      ElemsBelow(es.rest);
    }
  }

  lemma {:induction false} MembersBelow(ms: Members)
    ensures MembersLevels(ms, 0) <= MembersLevels(ms, 1)
    decreases ms
  {
    if ms.Member? {
      NestBelowHeight(ms.doc);
      MembersBelow(ms.rest);
    }
  }

  // ---------- the paths to tested values ----------

  /** The path leads to a value in `v` that the depth limit is applied to. */
  predicate Tested(e: Env, c: Config, v: Native, key: string, path: seq<nat>)
    decreases |path|
  {
    && !e.sensitiveKey(key)
    && (path == []
        || (Opens(e, c, v, key) && path[0] < |Children(v)| && !Skipped(e, c, v, path[0])
            && Tested(e, c, Children(v)[path[0]], ChildKey(v, path[0]), path[1..])))
  }

  ghost predicate TestedAt(e: Env, c: Config, v: Native, key: string, n: nat) {
    exists path :: |path| == n && Tested(e, c, v, key, path)
  }

  /** The longest path to a tested value has one step fewer than there are tested levels. */
  lemma {:induction false} LongestPath(e: Env, c: Config, v: Native, key: string, n: nat)
    ensures n < TestedLevels(e, c, v, key) <==> TestedAt(e, c, v, key, n)
    decreases v, n
  {
    if n == 0 {
      PathHere(e, c, v, key);
    } else {
      forall k: nat | k < |Children(v)|
        ensures n - 1 < TestedLevels(e, c, Children(v)[k], ChildKey(v, k)) <==>
                  TestedAt(e, c, Children(v)[k], ChildKey(v, k), n - 1)
      {
        LongestPath(e, c, Children(v)[k], ChildKey(v, k), n - 1);
      }
      hide TestedLevels, TestedAt, Children;
      PathStep(e, c, v, key, n);
      LevelsByChildren(e, c, v, key, n);
    }
  }

  lemma PathHere(e: Env, c: Config, v: Native, key: string)
    ensures TestedLevels(e, c, v, key) > 0 <==> TestedAt(e, c, v, key, 0)
  {
    var here: seq<nat> := [];
    assert |here| == 0 && (!e.sensitiveKey(key) ==> Tested(e, c, v, key, here));
  }

  lemma PathStep(e: Env, c: Config, v: Native, key: string, n: nat)
    requires n > 0
    ensures TestedAt(e, c, v, key, n) <==>
              Opens(e, c, v, key) && exists k: nat :: k < |Children(v)| && !Skipped(e, c, v, k)
                                                      && TestedAt(e, c, Children(v)[k], ChildKey(v, k), n - 1)
  {
    hide Skipped, Children, ChildKey;
    if TestedAt(e, c, v, key, n) {
      var path :| |path| == n && Tested(e, c, v, key, path);
      assert |path[1..]| == n - 1 && Tested(e, c, Children(v)[path[0]], ChildKey(v, path[0]), path[1..]);
    }
    if Opens(e, c, v, key) && exists k: nat :: k < |Children(v)| && !Skipped(e, c, v, k)
                                               && TestedAt(e, c, Children(v)[k], ChildKey(v, k), n - 1)
    {
      var k: nat :| k < |Children(v)| && !Skipped(e, c, v, k)
                    && TestedAt(e, c, Children(v)[k], ChildKey(v, k), n - 1);
      var rest :| |rest| == n - 1 && Tested(e, c, Children(v)[k], ChildKey(v, k), rest);
      assert ([k] + rest)[1..] == rest && |[k] + rest| == n;
      assert Tested(e, c, v, key, [k] + rest);
    }
  }

  lemma LevelsByChildren(e: Env, c: Config, v: Native, key: string, n: nat)
    requires n > 0
    ensures n < TestedLevels(e, c, v, key) <==>
              Opens(e, c, v, key) && exists k: nat :: k < |Children(v)| && !Skipped(e, c, v, k)
                                                      && n - 1 < TestedLevels(e, c, Children(v)[k], ChildKey(v, k))
  {
    hide Skipped, Children, ChildKey;
    if Opens(e, c, v, key) { TestedBound(e, c, v, |Children(v)|, n - 1); }
  }

  /** No tested value stands deeper than the limit exactly when depth and tested levels fit. */
  lemma NothingBeyondLimit(e: Env, c: Config, v: Native, depth: nat, key: string)
    requires depth > 0
    ensures Fits(TestedLevels(e, c, v, key), depth - 1, c.maxDepth) <==>
              forall path :: Tested(e, c, v, key, path) ==> depth + |path| <= c.maxDepth
  {
    hide TestedLevels, Tested;
    forall path | Tested(e, c, v, key, path) ensures |path| < TestedLevels(e, c, v, key) {
      LongestPath(e, c, v, key, |path|);
    }
    var n := TestedLevels(e, c, v, key);
    if !Fits(n, depth - 1, c.maxDepth) {
      LongestPath(e, c, v, key, n - 1);
      var path :| |path| == n - 1 && Tested(e, c, v, key, path);
    }
  }

  // ---------- what is cut ----------

  /** The budget does not pay for the value and one unit for each of its children. */
  predicate Unpaid(v: Native, left: int) { left <= 0 || |Children(v)| > left - 1 }

  /** Following the path through the output meets a limit mark, either where the depth limit is passed, or further up
      at a value for which the budget met there does not pay. */
  ghost predicate CutOn(e: Env, c: Config, v: Native, depth: nat, key: string, left: int, path: seq<nat>)
    decreases |path|, 0
  {
    var out := NativeAt(e, c, Every, v, depth, key, left).0;
    || (out == NString(LIMIT) && (depth > c.maxDepth || Unpaid(v, left)))
    || (path != [] && path[0] < |Children(v)| && path[0] < |Children(out)|
        && exists l: int :: CutBelow(e, c, v, depth, path[0], out, l, path[1..]))
  }

  /** The child at `k` is cleaned under the budget `left`, and cut on the path. */
  ghost predicate CutBelow(e: Env, c: Config, v: Native, depth: nat, k: nat, out: Native, left: int, path: seq<nat>)
    requires k < |Children(v)| && k < |Children(out)|
    decreases |path|, 1
  {
    && Children(out)[k] == NativeAt(e, c, Every, Children(v)[k], depth + 1, ChildKey(v, k), left).0
    && CutOn(e, c, Children(v)[k], depth + 1, ChildKey(v, k), left, path)
  }

  /** Within the depth limit a container that `native` opens is cut exactly when the budget does not pay for it. */
  lemma CutByBudgetOnly(e: Env, c: Config, v: Native, depth: nat, key: string, left: int)
    requires IsContainer(v) && Opens(e, c, v, key) && depth <= c.maxDepth
    ensures NativeAt(e, c, Every, v, depth, key, left).0 == NString(LIMIT) <==> Unpaid(v, left)
    ensures !Unpaid(v, left) && v.NObject? ==> NativeAt(e, c, Every, v, depth, key, left).0
                                               == NObject(NativeEntries(e, c, Every, v, 0, 0, depth, [], left - 1).0)
    ensures !Unpaid(v, left) && v.NArray? ==> NativeAt(e, c, Every, v, depth, key, left).0
                                              == NArray(NativeItems(e, c, Every, v, 0, depth, [], left - 1).0)
  {
    hide NativeEntries, NativeItems;
  }

  /** Every tested value that stands deeper than the limit is cut, whatever the budget; above the first such value only
      a budget that does not pay for a container and its items cuts. */
  lemma {:induction false} BeyondLimitIsCut(e: Env, c: Config, v: Native, depth: nat, key: string, left: int,
                                            path: seq<nat>)
    requires Tested(e, c, v, key, path) && depth + |path| > c.maxDepth
    ensures CutOn(e, c, v, depth, key, left, path)
    decreases |path|
  {
    hide NativeEntries, NativeItems, TextAt, Sql, Number, Skipped;
    if path != [] && depth <= c.maxDepth {
      CutByBudgetOnly(e, c, v, depth, key, left);
      if !Unpaid(v, left) {
        var l := ChildOutput(e, c, v, depth, key, left, path[0]);
        BeyondLimitIsCut(e, c, Children(v)[path[0]], depth + 1, ChildKey(v, path[0]), l, path[1..]);
        CutFurther(e, c, v, depth, key, left, path, l);
      }
    }
  }

  lemma CutFurther(e: Env, c: Config, v: Native, depth: nat, key: string, left: int, path: seq<nat>, l: int)
    requires path != [] && path[0] < |Children(v)|
    requires path[0] < |Children(NativeAt(e, c, Every, v, depth, key, left).0)|
    requires CutBelow(e, c, v, depth, path[0], NativeAt(e, c, Every, v, depth, key, left).0, l, path[1..])
    ensures CutOn(e, c, v, depth, key, left, path)
  {
    hide NativeAt, Children, CutBelow;
  }

  /** The output for a child that is not masked with its key is the cleaned child, under the budget met there. */
  lemma ChildOutput(e: Env, c: Config, v: Native, depth: nat, key: string, left: int, k: nat) returns (l: int)
    requires k < |Children(v)| && Opens(e, c, v, key) && depth <= c.maxDepth
    requires !Skipped(e, c, v, k) && !Unpaid(v, left)
    ensures var out := NativeAt(e, c, Every, v, depth, key, left).0;
            k < |Children(out)|
            && Children(out)[k] == NativeAt(e, c, Every, Children(v)[k], depth + 1, ChildKey(v, k), l).0
  {
    hide NativeEntries, NativeItems, NativeAt, Skipped, Met;
    CutByBudgetOnly(e, c, v, depth, key, left);
    if v.NObject? {
      MetFirst(e, c, v);
      l := EntryOutput(e, c, v, 0, 0, depth, [], left - 1, k);
    } else {
      l := ItemOutput(e, c, v, 0, depth, [], left - 1, k);
    }
  }

  lemma {:induction false} EntryOutput(e: Env, c: Config, v: Native, i: nat, index: nat, depth: nat,
                                       done: seq<Entry<Native>>, left: int, k: nat) returns (l: int)
    requires Met(e, c, v, i, index, done) && i <= k < |v.entries| && k < |Children(v)| && !Skipped(e, c, v, k)
    ensures var out := NativeEntries(e, c, Every, v, i, index, depth, done, left).0;
            && |out| == |v.entries| && done <= out
            && out[k].value == NativeAt(e, c, Every, v.entries[k].value, depth + 1, v.entries[k].key, l).0
    decreases |v.entries| - i
  {
    hide NativeAt, CleanKey, NativeKey, Met, Skipped;
    MetBound(e, c, v, i, index, done);
    var key := v.entries[i].key;
    var n := NativeKey(e, c, key, index, Keys(done));
    var r := if CleanKey(e, c, key, index) != key then (NString(MASK), left)
             else NativeAt(e, c, Every, v.entries[i].value, depth + 1, key, left);
    MetNext(e, c, v, i, index, done, r.0);
    var more := done + [Entry(n.0, r.0)];
    if i == k {
      EntriesKept(e, c, v, i + 1, n.1, depth, more, r.1);
      assert more[k].value == r.0;
      l := left;
    } else {
      l := EntryOutput(e, c, v, i + 1, n.1, depth, more, r.1, k);
    }
  }

  lemma {:induction false} EntriesKept(e: Env, c: Config, v: Native, i: nat, index: nat, depth: nat,
                                       done: seq<Entry<Native>>, left: int)
    requires v.NObject? && i <= |v.entries| && |done| == i
    ensures var out := NativeEntries(e, c, Every, v, i, index, depth, done, left).0; |out| == |v.entries| && done <= out
    decreases |v.entries| - i
  {
    hide NativeAt, CleanKey, NativeKey;
    if i < |v.entries| {
      var key := v.entries[i].key;
      var n := NativeKey(e, c, key, index, Keys(done));
      var r := if CleanKey(e, c, key, index) != key then (NString(MASK), left)
               else NativeAt(e, c, Every, v.entries[i].value, depth + 1, key, left);
      EntriesKept(e, c, v, i + 1, n.1, depth, done + [Entry(n.0, r.0)], r.1);
    }
  }

  lemma {:induction false} ItemOutput(e: Env, c: Config, v: Native, i: nat, depth: nat, done: seq<Native>, left: int,
                                      k: nat) returns (l: int)
    requires v.NArray? && i <= k < |v.items| && |done| == i
    ensures var out := NativeItems(e, c, Every, v, i, depth, done, left).0;
            |out| == |v.items| && done <= out && out[k] == NativeAt(e, c, Every, v.items[k], depth + 1, "", l).0
    decreases |v.items| - i
  {
    hide NativeAt;
    var r := NativeAt(e, c, Every, v.items[i], depth + 1, "", left);
    var more := done + [r.0];
    if i == k {
      ItemsKept(e, c, v, i + 1, depth, more, r.1);
      assert more[k] == r.0;
      l := left;
    } else {
      l := ItemOutput(e, c, v, i + 1, depth, more, r.1, k);
    }
  }

  lemma {:induction false} ItemsKept(e: Env, c: Config, v: Native, i: nat, depth: nat, done: seq<Native>, left: int)
    requires v.NArray? && i <= |v.items| && |done| == i
    ensures var out := NativeItems(e, c, Every, v, i, depth, done, left).0; |out| == |v.items| && done <= out
    decreases |v.items| - i
  {
    hide NativeAt;
    if i < |v.items| {
      var r := NativeAt(e, c, Every, v.items[i], depth + 1, "", left);
      ItemsKept(e, c, v, i + 1, depth, done + [r.0], r.1);
    }
  }
}
