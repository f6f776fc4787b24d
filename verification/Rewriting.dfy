/** What the redaction loops of `text.go` build: the input with ordered, disjoint spans replaced. */
module Rewriting {
  /** What stands for a redacted span. */
  const MASK := "[REDACTED]"

  datatype Edit = Edit(start: nat, end: nat, text: string)

  /** End of the last edited span. */
  function LastEnd(edits: seq<Edit>): nat { if edits == [] then 0 else edits[|edits| - 1].end }

  /** The edits lie in order, without overlap, inside the first `n` characters. */
  ghost predicate Ordered(edits: seq<Edit>, n: nat) {
    && (forall k :: 0 <= k < |edits| ==> edits[k].start <= edits[k].end <= n)
    && (forall j, k :: 0 <= j < k < |edits| ==> edits[j].end <= edits[k].start)
  }

  /** The text before `LastEnd(edits)` with the edits made. */
  function Built(s: string, edits: seq<Edit>): string
    requires Ordered(edits, |s|)
  {
    if edits == [] then ""
    else
      var init, e := edits[..|edits| - 1], edits[|edits| - 1];
      Built(s, init) + s[LastEnd(init)..e.start] + e.text
  }

  /** The whole text with the edits made. */
  function Rewrite(s: string, edits: seq<Edit>): string
    requires Ordered(edits, |s|)
  {
    Built(s, edits) + s[LastEnd(edits)..]
  }

  lemma Extend(s: string, edits: seq<Edit>, e: Edit)
    requires Ordered(edits, |s|) && LastEnd(edits) <= e.start <= e.end <= |s|
    ensures Ordered(edits + [e], |s|)
    ensures Built(s, edits + [e]) == Built(s, edits) + s[LastEnd(edits)..e.start] + e.text
  {
    OrderedMore(edits, e, |s|);
    var more := edits + [e];
    hide Ordered;
    assert more[..|more| - 1] == edits && more[|more| - 1] == e;
  }

  lemma OrderedMore(edits: seq<Edit>, e: Edit, n: nat)
    requires Ordered(edits, n) && LastEnd(edits) <= e.start <= e.end <= n
    ensures Ordered(edits + [e], n)
  {
    forall j | 0 <= j < |edits| ensures edits[j].end <= e.start {
      if j < |edits| - 1 { assert edits[j].end <= edits[|edits| - 1].start; }
    }
  }

  // ---------- what a rewriting keeps ----------

  /** `i` lies in the span of some edit. */
  ghost predicate Edited(edits: seq<Edit>, i: int) {
    exists k :: 0 <= k < |edits| && edits[k].start <= i < edits[k].end
  }

  /** How far the edits that end at or before `i` move the characters after them. */
  function Shift(edits: seq<Edit>, i: nat): int {
    if edits == [] then 0
    else
      var e := edits[|edits| - 1];
      Shift(edits[..|edits| - 1], i) + if e.end <= i then |e.text| - (e.end - e.start) else 0
  }

  lemma {:induction false} BuiltLength(s: string, edits: seq<Edit>)
    requires Ordered(edits, |s|)
    ensures |Built(s, edits)| == LastEnd(edits) + Shift(edits, LastEnd(edits))
  {
    if edits != [] {
      var init := edits[..|edits| - 1];
      BuiltLength(s, init);
      ShiftAfter(init, LastEnd(init), LastEnd(edits));
    }
  }

  lemma {:induction false} ShiftAfter(edits: seq<Edit>, i: nat, j: nat)
    requires i <= j && forall k :: 0 <= k < |edits| ==> edits[k].end <= i
    ensures Shift(edits, i) == Shift(edits, j)
  {
    if edits != [] { ShiftAfter(edits[..|edits| - 1], i, j); }
  }

  lemma LastEndBounds(edits: seq<Edit>, n: nat)
    requires Ordered(edits, n)
    ensures forall k :: 0 <= k < |edits| ==> edits[k].end <= LastEnd(edits)
  {
    forall k | 0 <= k < |edits| ensures edits[k].end <= LastEnd(edits) {
      if k < |edits| - 1 { assert edits[k].end <= edits[|edits| - 1].start; }
    }
  }

  lemma BuiltBetween(s: string, edits: seq<Edit>, i: nat)
    requires Ordered(edits, |s|) && edits != []
    requires LastEnd(edits[..|edits| - 1]) <= i < edits[|edits| - 1].start
    ensures 0 <= i + Shift(edits, i) < |Built(s, edits)| && Built(s, edits)[i + Shift(edits, i)] == s[i]
  {
    var init, e := edits[..|edits| - 1], edits[|edits| - 1];
    assert Ordered(init, |s|) && e.start <= e.end <= |s|;
    assert Shift(edits, i) == Shift(init, i);
    LastEndBounds(init, |s|);
    hide Ordered, Shift;
    assert Built(s, edits) == Built(s, init) + s[LastEnd(init)..e.start] + e.text;
    hide Built;
    BuiltLength(s, init);
    ShiftAfter(init, LastEnd(init), i);
    Middle(Built(s, init), s, LastEnd(init), e.start, e.text, i);
  }

  lemma Front(before: string, middle: string, after: string, p: nat)
    requires p < |before|
    ensures p < |before + middle + after| && (before + middle + after)[p] == before[p]
  {}

  lemma Middle(before: string, s: string, from: nat, to: nat, after: string, i: nat)
    requires from <= i < to <= |s|
    ensures |before| + (i - from) < |before + s[from..to] + after|
    ensures (before + s[from..to] + after)[|before| + (i - from)] == s[i]
  {}

  lemma NotEditedBefore(edits: seq<Edit>, n: nat, i: nat)
    requires Ordered(edits, n) && i < LastEnd(edits) && !Edited(edits, i)
    ensures edits != []
    ensures var init := edits[..|edits| - 1];
            i < edits[|edits| - 1].start <= edits[|edits| - 1].end <= n && Ordered(init, n) && !Edited(init, i)
            && LastEnd(init) <= edits[|edits| - 1].start
  {
    var init := edits[..|edits| - 1];
    assert forall k :: 0 <= k < |init| ==> init[k] == edits[k];
  }

  lemma {:induction false} BuiltKeeps(s: string, edits: seq<Edit>, i: nat)
    requires Ordered(edits, |s|) && i < LastEnd(edits) && !Edited(edits, i)
    ensures 0 <= i + Shift(edits, i) < |Built(s, edits)| && Built(s, edits)[i + Shift(edits, i)] == s[i]
  {
    hide Ordered, Edited;
    NotEditedBefore(edits, |s|, i);
    var init, e := edits[..|edits| - 1], edits[|edits| - 1];
    if i < LastEnd(init) {
      BuiltKeeps(s, init, i);
      Front(Built(s, init), s[LastEnd(init)..e.start], e.text, i + Shift(init, i));
    } else {
      BuiltBetween(s, edits, i);
    }
  }

  lemma {:induction false} ShiftGrows(edits: seq<Edit>, n: nat, i: nat, j: nat)
    requires Ordered(edits, n) && i < j && !Edited(edits, i)
    requires forall k :: 0 <= k < |edits| ==> edits[k].end <= j || j <= edits[k].start
    ensures i + Shift(edits, i) < j + Shift(edits, j)
  {
    if edits != [] {
      var init, e := edits[..|edits| - 1], edits[|edits| - 1];
      assert !Edited(init, i) by {
        assert forall k :: 0 <= k < |init| ==> init[k] == edits[k];
      }
      if i < e.start && e.end <= j {
        ShiftGrows(init, n, i, e.start);
        ShiftAfter(init, e.start, j);
      } else {
        ShiftGrows(init, n, i, j);
      }
    }
  }

  /** Every character outside the edited spans is still there, moved by `Shift`. */
  lemma RewriteKeeps(s: string, edits: seq<Edit>, i: nat)
    requires Ordered(edits, |s|) && i < |s| && !Edited(edits, i)
    ensures 0 <= i + Shift(edits, i) < |Rewrite(s, edits)| && Rewrite(s, edits)[i + Shift(edits, i)] == s[i]
  {
    if i < LastEnd(edits) {
      BuiltKeeps(s, edits, i);
    } else {
      BuiltLength(s, edits);
      LastEndBounds(edits, |s|);
      ShiftAfter(edits, LastEnd(edits), i);
    }
  }

  /** Kept characters keep their order. */
  lemma RewriteKeepsOrder(s: string, edits: seq<Edit>, i: nat, j: nat)
    requires Ordered(edits, |s|) && i < j < |s| && !Edited(edits, i) && !Edited(edits, j)
    ensures i + Shift(edits, i) < j + Shift(edits, j)
  {
    ShiftGrows(edits, |s|, i, j);
  }

  // ---------- what a rewriting puts in ----------

  /** `t` stands at position `i` of the text. */
  predicate Holds(s: string, i: int, t: string) { 0 <= i && i + |t| <= |s| && s[i..i + |t|] == t }

  lemma HoldsBefore(s: string, i: int, t: string, more: string)
    requires Holds(s, i, t)
    ensures Holds(s + more, i, t)
  {
    assert (s + more)[i..i + |t|] == s[i..i + |t|];
  }

  lemma HoldsLast(s: string, t: string)
    ensures Holds(s + t, |s|, t)
  {}

  lemma BuiltLast(s: string, edits: seq<Edit>)
    requires Ordered(edits, |s|) && edits != []
    ensures var init, e := edits[..|edits| - 1], edits[|edits| - 1];
            && Ordered(init, |s|) && LastEnd(init) <= e.start <= e.end <= |s|
            && Built(s, edits) == Built(s, init) + s[LastEnd(init)..e.start] + e.text
  {}

  lemma {:induction false} BuiltPuts(s: string, edits: seq<Edit>, k: nat)
    requires Ordered(edits, |s|) && k < |edits|
    ensures Holds(Built(s, edits), edits[k].start + Shift(edits[..k], edits[k].start), edits[k].text)
  {
    hide Ordered, Built, Shift, Holds, LastEnd;
    BuiltLast(s, edits);
    var init, e := edits[..|edits| - 1], edits[|edits| - 1];
    var before := Built(s, init) + s[LastEnd(init)..e.start];
    if k == |edits| - 1 {
      BuiltLength(s, init);
      LastEndBounds(init, |s|);
      ShiftAfter(init, LastEnd(init), e.start);
      HoldsLast(before, e.text);
    } else {
      assert init[..k] == edits[..k];
      BuiltPuts(s, init, k);
      HoldsBefore(Built(s, init), edits[k].start + Shift(edits[..k], edits[k].start), edits[k].text,
                  s[LastEnd(init)..e.start]);
      HoldsBefore(before, edits[k].start + Shift(edits[..k], edits[k].start), edits[k].text, e.text);
    }
  }

  /** The text of every edit stands in the place of its span, moved by the edits before it. */
  lemma RewritePuts(s: string, edits: seq<Edit>, k: nat)
    requires Ordered(edits, |s|) && k < |edits|
    ensures Holds(Rewrite(s, edits), edits[k].start + Shift(edits[..k], edits[k].start), edits[k].text)
  {
    BuiltPuts(s, edits, k);
    HoldsBefore(Built(s, edits), edits[k].start + Shift(edits[..k], edits[k].start), edits[k].text,
                s[LastEnd(edits)..]);
  }

  /** And there is nothing else in it: its length is that of the text, moved by all edits. */
  lemma RewriteLength(s: string, edits: seq<Edit>)
    requires Ordered(edits, |s|)
    ensures |Rewrite(s, edits)| == |s| + Shift(edits, |s|)
  {
    BuiltLength(s, edits);
    LastEndBounds(edits, |s|);
    ShiftAfter(edits, LastEnd(edits), |s|);
  }
}
