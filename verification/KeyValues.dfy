/** `redactKeyValues` of `text.go`: masking the values of sensitive fields outside sanitised query ranges. */
module KeyValues {
  import opened Bytes
  import opened Compound
  import opened Fields
  import opened QueryRanges
  import opened Rewriting

  predicate QuotedKey(s: string, p: nat)
    requires p <= |s|
  {
    p > 0 && IsQuote(s[p - 1])
  }

  function Requoted(quote: char): string {
    if quote == '\0' then MASK else [quote] + MASK + [quote]
  }

  /** The field at `p` is to be masked. */
  ghost predicate MustMask(s: string, found: seq<Range>, keys: Keys, p: nat) {
    p <= |s| && FieldAt(s, p).Some? && keys.sensitive(s[p..FieldAt(s, p).value.keyEnd]) && !Covers(found, p)
  }

  /** `e` replaces the whole value of the field at `p` by the mask, in the value's own quotes. */
  ghost predicate MasksField(s: string, found: seq<Range>, keys: Keys, p: nat, e: Edit) {
    && MustMask(s, found, keys, p)
    && var f := FieldAt(s, p).value;
    && e.start == f.valueStart
    && if f.valueStart == |s| then e.end == |s| && e.text == MASK
       else exists quote :: ValueEnds(s, f.valueStart, s[p..f.keyEnd], QuotedKey(s, p), keys, e.end, quote)
                            && e.text == Requoted(quote)
  }

  /** No field further left shares the separator of the field at `p`. */
  ghost predicate Leftmost(s: string, p: nat) {
    && p <= |s| && FieldAt(s, p).Some?
    && forall q :: 0 <= q < p && FieldAt(s, q).Some? ==>
         FieldAt(s, q).value.valueStart != FieldAt(s, p).value.valueStart
  }

  /** The field at `p` was masked, or lies inside a masked value. */
  ghost predicate Settled(s: string, found: seq<Range>, keys: Keys, edits: seq<Edit>, p: nat) {
    Edited(edits, p) || exists k :: 0 <= k < |edits| && MasksField(s, found, keys, p, edits[k])
  }

  /** The edit masks the field at `p`, as the pattern search meets it. */
  ghost predicate MasksMatch(s: string, found: seq<Range>, keys: Keys, edits: seq<Edit>, p: nat, e: Edit) {
    MasksField(s, found, keys, p, e) && Leftmost(s, p) && !Edited(edits, p)
  }

  ghost predicate MasksSome(s: string, found: seq<Range>, keys: Keys, edits: seq<Edit>, e: Edit) {
    exists p: nat :: MasksMatch(s, found, keys, edits, p, e)
  }

  /** Every edit masks a sensitive field, whole from its first key character on and not inside another masked value. */
  ghost predicate Sound(s: string, found: seq<Range>, keys: Keys, edits: seq<Edit>) {
    && (forall j, k :: 0 <= j < k < |edits| ==> edits[j].start < edits[k].start)
    && forall k :: 0 <= k < |edits| ==> MasksSome(s, found, keys, edits, edits[k])
  }

  /** Every leftmost sensitive field before `upto` is settled. */
  ghost predicate Complete(s: string, found: seq<Range>, keys: Keys, edits: seq<Edit>, upto: nat) {
    forall p :: 0 <= p < upto && Leftmost(s, p) && MustMask(s, found, keys, p) ==> Settled(s, found, keys, edits, p)
  }

  /** `out` is the text with ordered, disjoint edits made that mask sensitive fields, and miss none of them. */
  ghost predicate Redacted(s: string, found: seq<Range>, keys: Keys, out: string) {
    exists edits :: Ordered(edits, |s|) && Sound(s, found, keys, edits) && Complete(s, found, keys, edits, |s|)
                    && out == Rewrite(s, edits)
  }

  lemma SettledMore(s: string, found: seq<Range>, keys: Keys, edits: seq<Edit>, e: Edit, p: nat)
    requires Settled(s, found, keys, edits, p)
    ensures Settled(s, found, keys, edits + [e], p)
  {
    hide MasksField;
    var more := edits + [e];
    if Edited(edits, p) {
      var k :| 0 <= k < |edits| && edits[k].start <= p < edits[k].end;
      assert more[k] == edits[k];
    } else {
      var k :| 0 <= k < |edits| && MasksField(s, found, keys, p, edits[k]);
      assert more[k] == edits[k];
    }
  }

  /** Passing over a field that needs no mask. */
  lemma CompleteSkip(s: string, found: seq<Range>, keys: Keys, edits: seq<Edit>, from: nat, p: nat)
    requires Complete(s, found, keys, edits, from) && from <= p <= |s| && FieldAt(s, p).Some?
    requires forall k :: from <= k < p ==> FieldAt(s, k).None?
    requires !MustMask(s, found, keys, p)
    ensures Complete(s, found, keys, edits, FieldAt(s, p).value.valueStart)
  {
    hide Settled, MustMask;
    var v := FieldAt(s, p).value.valueStart;
    forall q | 0 <= q < v && Leftmost(s, q) && MustMask(s, found, keys, q)
      ensures Settled(s, found, keys, edits, q)
    {
      if q > p { SameRun(s, p, q); }
    }
  }

  /** Masking a field. */
  lemma CompleteMask(s: string, found: seq<Range>, keys: Keys, edits: seq<Edit>, from: nat, p: nat, e: Edit)
    requires Complete(s, found, keys, edits, from) && from <= p <= |s| && FieldAt(s, p).Some?
    requires forall k :: from <= k < p ==> FieldAt(s, k).None?
    requires MasksField(s, found, keys, p, e)
    ensures Complete(s, found, keys, edits + [e], e.end)
  {
    var v := FieldAt(s, p).value.valueStart;
    assert e.start == v;
    hide MustMask, MasksField, FieldAt;
    var more := edits + [e];
    forall q | 0 <= q < e.end && Leftmost(s, q) && MustMask(s, found, keys, q)
      ensures Settled(s, found, keys, more, q)
    {
      if q < from {
        SettledMore(s, found, keys, edits, e, q);
      } else if q < v {
        if q > p { SameRun(s, p, q); }
        assert q == p;
        assert more[|edits|] == e;
      } else {
        assert more[|edits|] == e;
      }
    }
  }

  lemma SoundMore(s: string, found: seq<Range>, keys: Keys, edits: seq<Edit>, p: nat, e: Edit)
    requires Sound(s, found, keys, edits) && Ordered(edits, |s|)
    requires MasksField(s, found, keys, p, e) && Leftmost(s, p) && LastEnd(edits) <= p < e.start
    ensures Sound(s, found, keys, edits + [e])
  {
    hide MasksField, Leftmost;
    var more := edits + [e];
    LastEndBounds(edits, |s|);
    assert !Edited(more, p);
    assert MasksMatch(s, found, keys, more, p, e);
    forall k | 0 <= k < |edits| ensures MasksSome(s, found, keys, more, edits[k]) {
      var q: nat :| MasksMatch(s, found, keys, edits, q, edits[k]);
      FieldBeforeValue(s, found, keys, q, edits[k]);
      NotEditedMore(edits, e, q);
      assert MasksMatch(s, found, keys, more, q, edits[k]);
    }
  }

  lemma FieldBeforeValue(s: string, found: seq<Range>, keys: Keys, p: nat, e: Edit)
    requires MasksField(s, found, keys, p, e)
    ensures p < e.start
  {}

  lemma NotEditedMore(edits: seq<Edit>, e: Edit, q: nat)
    requires !Edited(edits, q) && q < e.start
    ensures !Edited(edits + [e], q)
  {
    var more := edits + [e];
    forall k | 0 <= k < |more| ensures !(more[k].start <= q < more[k].end) {
      if k < |edits| { assert more[k] == edits[k]; }
    }
  }

  /** The cursor never stands inside a key: what is before it ends a value or a separator. */
  ghost predicate AtBoundary(s: string, position: nat): (b: bool)
    ensures position == 0 ==> b
  {
    position == 0 || position >= |s| || !IsKeyChar(s[position]) || !IsKeyChar(s[position - 1])
  }

  /** The first match from a boundary on is not the tail of an earlier one. */
  lemma FirstIsLeftmost(s: string, from: nat, p: nat)
    requires AtBoundary(s, from) && from <= p <= |s| && FieldAt(s, p).Some?
    requires forall k :: from <= k < p ==> FieldAt(s, k).None?
    ensures Leftmost(s, p)
  {
    forall q | 0 <= q < p && FieldAt(s, q).Some?
      ensures FieldAt(s, q).value.valueStart != FieldAt(s, p).value.valueStart
    {
      if FieldAt(s, q).value.valueStart == FieldAt(s, p).value.valueStart {
        assert q < from;
        var f := FieldAt(s, q).value;
        if p >= f.keyEnd { SeparatorHasNoKey(s, f.keyEnd, p); }
      }
    }
  }

  lemma ValueIsBoundary(s: string, p: nat)
    requires p <= |s| && FieldAt(s, p).Some?
    ensures AtBoundary(s, FieldAt(s, p).value.valueStart)
  {
    var f := FieldAt(s, p).value;
    SeparatorHasNoKeyChar(s, f.keyEnd, f.valueStart - 1);
  }

  lemma SeparatorHasNoKeyChar(s: string, e: nat, k: nat)
    requires e <= |s| && SeparatorEnd(s, e).Some? && e <= k < SeparatorEnd(s, e).value
    ensures !IsKeyChar(s[k])
  {}

  lemma EndIsBoundary(s: string, found: seq<Range>, keys: Keys, p: nat, e: Edit)
    requires MasksField(s, found, keys, p, e)
    ensures AtBoundary(s, e.end)
  {
    hide ValueEnds, SeparatorEnd;
    var f := FieldAt(s, p).value;
    if f.valueStart < |s| {
      var quote :| ValueEnds(s, f.valueStart, s[p..f.keyEnd], QuotedKey(s, p), keys, e.end, quote)
                   && e.text == Requoted(quote);
      NoSuffixSurvives(s, f.valueStart, s[p..f.keyEnd], QuotedKey(s, p), keys, e.end, quote);
    }
  }

  lemma MaskedBounds(s: string, found: seq<Range>, keys: Keys, p: nat, e: Edit)
    requires MasksField(s, found, keys, p, e)
    ensures p < e.start <= e.end <= |s|
  {
    var f := FieldAt(s, p).value;
    if f.valueStart < |s| {
      var quote :| ValueEnds(s, f.valueStart, s[p..f.keyEnd], QuotedKey(s, p), keys, e.end, quote)
                   && e.text == Requoted(quote);
      NoSuffixSurvives(s, f.valueStart, s[p..f.keyEnd], QuotedKey(s, p), keys, e.end, quote);
    }
  }

  /** The edit for the value of the field at `p`. */
  method MaskValue(s: string, ghost found: seq<Range>, keys: Keys, p: nat) returns (end: nat, text: string)
    requires MustMask(s, found, keys, p)
    ensures MasksField(s, found, keys, p, Edit(FieldAt(s, p).value.valueStart, end, text))
  {
    hide ValueEnds;
    var f := FieldAt(s, p).value;
    if f.valueStart >= |s| { return |s|, MASK; }
    var quote;
    end, quote := SensitiveValueEnd(s, f.valueStart, s[p..f.keyEnd], QuotedKey(s, p), keys);
    text := "";
    if quote != '\0' { text := text + [quote]; }
    text := text + MASK;
    if quote != '\0' { text := text + [quote]; }
    assert text == Requoted(quote);
  }

  /** `out` is the text before `position` with the edits made. */
  ghost predicate Written(s: string, edits: seq<Edit>, position: nat, out: string) {
    && Ordered(edits, |s|) && LastEnd(edits) <= position <= |s|
    && out == Built(s, edits) + s[LastEnd(edits)..position]
  }

  lemma WrittenMore(s: string, edits: seq<Edit>, position: nat, to: nat, out: string)
    requires Written(s, edits, position, out) && position <= to <= |s|
    ensures Written(s, edits, to, out + s[position..to]) && Ordered(edits, |s|) && LastEnd(edits) <= position
  {
    hide Built, Ordered;
    SliceSplit(s, LastEnd(edits), position, to);
  }

  lemma WrittenEdit(s: string, edits: seq<Edit>, e: Edit, out: string)
    requires Written(s, edits, e.start, out) && e.start <= e.end <= |s|
    ensures Written(s, edits + [e], e.end, out + e.text)
  {
    hide Built, Ordered;
    Extend(s, edits, e);
    assert s[e.end..e.end] == "" && LastEnd(edits + [e]) == e.end;
  }

  lemma NothingWritten(s: string)
    ensures Written(s, [], 0, "")
  {}

  /** `redactKeyValues`, given the query ranges as the pattern search and the sort leave them. */
  method RedactKeyValues(s: string, found: seq<Range>, keys: Keys) returns (out: string)
    requires SortedByStart(found)
    ensures Redacted(s, found, keys, out)
  {
    hide FieldAt, Settled, Covers, Merge, MasksField, Sound, Separated, Leftmost, Redacted, AtBoundary, Complete,
         Passed, Written, Ordered, LastEnd;
    out := "";
    ghost var edits: seq<Edit> := [];
    NoEdits(s, found, keys);
    NothingWritten(s);
    NonePassed(Merge(found));
    var ranges := new Range[|found|](i requires 0 <= i < |found| => found[i]);
    assert ranges[..] == found;
    var n := MergeInPlace(ranges);
    ghost var merged := ranges[..n];
    assert Separated(merged) by { MergeExact(found, 0); }
    var position, queryIndex := 0, 0;
    while position < |s|
      invariant position <= |s| && Written(s, edits, position, out)
      invariant Sound(s, found, keys, edits) && Complete(s, found, keys, edits, position) && AtBoundary(s, position)
      invariant ranges[..n] == merged && Passed(merged, queryIndex, position)
    {
      var start := FindField(s, position);
      if start == |s| {
        WrittenMore(s, edits, position, |s|, out);
        assert s[position..] == s[position..|s|];
        out := out + s[position..];
        CompleteEnd(s, found, keys, edits, position);
        position := |s|;
        break;
      }
      var f := FieldAt(s, start).value;
      var inside;
      PassedLater(merged, queryIndex, position, start);
      queryIndex, inside := Seek(ranges, n, queryIndex, start);
      MergeExact(found, start);
      var valueStart := f.valueStart;
      WrittenMore(s, edits, position, valueStart, out);
      out := out + s[position..valueStart];
      if inside || !keys.sensitive(s[start..f.keyEnd]) {
        CompleteSkip(s, found, keys, edits, position, start);
        ValueIsBoundary(s, start);
        PassedLater(merged, queryIndex, start, valueStart);
        position := valueStart;
        continue;
      }
      var end, text := MaskValue(s, found, keys, start);
      ghost var e := Edit(valueStart, end, text);
      MaskedBounds(s, found, keys, start, e);
      WrittenEdit(s, edits, e, out);
      CompleteMask(s, found, keys, edits, position, start, e);
      FirstIsLeftmost(s, position, start);
      SoundMore(s, found, keys, edits, start, e);
      EndIsBoundary(s, found, keys, start, e);
      PassedLater(merged, queryIndex, start, end);
      edits := edits + [e];
      out := out + text;
      position := end;
      assert position > start;  // the source's defensive branch for a stuck cursor is never taken
    }
    RedactedBy(s, found, keys, edits, out);
  }

  lemma NonePassed(rs: seq<Range>)
    ensures Passed(rs, 0, 0)
  {}

  lemma PassedLater(rs: seq<Range>, index: nat, x: int, y: int)
    requires Passed(rs, index, x) && x <= y
    ensures Passed(rs, index, y)
  {}

  lemma CompleteEnd(s: string, found: seq<Range>, keys: Keys, edits: seq<Edit>, position: nat)
    requires Complete(s, found, keys, edits, position) && forall k :: position <= k < |s| ==> FieldAt(s, k).None?
    ensures Complete(s, found, keys, edits, |s|)
  {
    hide FieldAt, Leftmost, Settled;
  }

  lemma RedactedBy(s: string, found: seq<Range>, keys: Keys, edits: seq<Edit>, out: string)
    requires Written(s, edits, |s|, out) && Sound(s, found, keys, edits) && Complete(s, found, keys, edits, |s|)
    ensures Redacted(s, found, keys, out)
  {
    hide Ordered, Sound, Complete, Built;
    assert s[LastEnd(edits)..|s|] == s[LastEnd(edits)..];
    assert out == Rewrite(s, edits);
  }

  lemma NoEdits(s: string, found: seq<Range>, keys: Keys)
    ensures Sound(s, found, keys, []) && Complete(s, found, keys, [], 0)
  {}

  // ---------- the promise determines the result ----------

  /** The field that an edit masks, and the edit, are determined by where the edit starts. */
  lemma SameField(s: string, found: seq<Range>, keys: Keys, es: seq<Edit>, fs: seq<Edit>,
                  p: nat, q: nat, e: Edit, f: Edit)
    requires MasksMatch(s, found, keys, es, p, e) && MasksMatch(s, found, keys, fs, q, f) && e.start == f.start
    ensures p == q && e == f
  {
    hide ValueEnds;
    assert FieldAt(s, p).value.valueStart == FieldAt(s, q).value.valueStart;
    assert p == q;
    SameMask(s, found, keys, p, e, f);
  }

  lemma SameMask(s: string, found: seq<Range>, keys: Keys, p: nat, e: Edit, f: Edit)
    requires MasksField(s, found, keys, p, e) && MasksField(s, found, keys, p, f)
    ensures e == f
  {
    hide ValueEnds, FieldAt;
    var v := FieldAt(s, p).value;
    if v.valueStart < |s| {
      var key := s[p..v.keyEnd];
      var x :| ValueEnds(s, v.valueStart, key, QuotedKey(s, p), keys, e.end, x) && e.text == Requoted(x);
      var y :| ValueEnds(s, v.valueStart, key, QuotedKey(s, p), keys, f.end, y) && f.text == Requoted(y);
      ValueEndsUnique(s, v.valueStart, key, QuotedKey(s, p), keys, e.end, x, f.end, y);
    }
  }

  /** `es` keeps the promise of `Redacted`. */
  ghost predicate Keeps(s: string, found: seq<Range>, keys: Keys, es: seq<Edit>) {
    Ordered(es, |s|) && Sound(s, found, keys, es) && Complete(s, found, keys, es, |s|)
  }

  lemma SamePrefix(es: seq<Edit>, fs: seq<Edit>, k: nat, n: nat)
    requires n < k <= |es| && k <= |fs| && es[..k] == fs[..k]
    ensures es[n] == fs[n]
  {
    assert es[..k][n] == fs[..k][n];
  }

  lemma MatchIs(s: string, found: seq<Range>, keys: Keys, edits: seq<Edit>, p: nat, e: Edit)
    requires MasksMatch(s, found, keys, edits, p, e)
    ensures MustMask(s, found, keys, p) && Leftmost(s, p) && !Edited(edits, p) && p < e.start && p < |s|
  {}

  lemma StartsGrow(s: string, found: seq<Range>, keys: Keys, es: seq<Edit>, j: nat, k: nat)
    requires Sound(s, found, keys, es) && j < k < |es|
    ensures es[j].start < es[k].start
  {
    hide MasksSome;
  }

  /** The field of the `k`-th edit of `es` is settled by `fs` from its `k`-th edit on, when the earlier ones agree. */
  lemma NotLater(s: string, found: seq<Range>, keys: Keys, es: seq<Edit>, fs: seq<Edit>, k: nat)
    requires Keeps(s, found, keys, es) && Keeps(s, found, keys, fs)
    requires k < |es| && k <= |fs| && es[..k] == fs[..k]
    ensures k < |fs| && fs[k].start <= es[k].start
  {
    assert MasksSome(s, found, keys, es, es[k]);
    var p: nat :| MasksMatch(s, found, keys, es, p, es[k]);
    MatchIs(s, found, keys, es, p, es[k]);
    assert Settled(s, found, keys, fs, p);
    hide MasksField, MasksMatch, Leftmost, MustMask, Complete, Sound, Ordered;
    var n: nat;
    if Edited(fs, p) {
      n :| n < |fs| && fs[n].start <= p < fs[n].end;
    } else {
      n :| n < |fs| && MasksField(s, found, keys, p, fs[n]);
      MatchStart(s, found, keys, es, p, es[k], fs[n]);
    }
    if n < k {
      SamePrefix(es, fs, k, n);
      StartsGrow(s, found, keys, es, n, k);
      assert false;
    } else if k < n {
      StartsGrow(s, found, keys, fs, k, n);
    }
  }

  lemma MatchStart(s: string, found: seq<Range>, keys: Keys, es: seq<Edit>, p: nat, e: Edit, f: Edit)
    requires MasksMatch(s, found, keys, es, p, e) && MasksField(s, found, keys, p, f)
    ensures e.start == f.start
  {}

  /** Only one list of edits keeps the promise. */
  lemma {:induction false} EditsUnique(s: string, found: seq<Range>, keys: Keys, es: seq<Edit>, fs: seq<Edit>, k: nat)
    requires Keeps(s, found, keys, es) && Keeps(s, found, keys, fs)
    requires k <= |es| && k <= |fs| && es[..k] == fs[..k]
    ensures es == fs
    decreases |es| - k
  {
    hide Ordered, Complete, MasksMatch;
    if k < |es| {
      NotLater(s, found, keys, es, fs, k);
      NotLater(s, found, keys, fs, es, k);
      var p: nat :| MasksMatch(s, found, keys, es, p, es[k]);
      var q: nat :| MasksMatch(s, found, keys, fs, q, fs[k]);
      SameField(s, found, keys, es, fs, p, q, es[k], fs[k]);
      assert es[..k + 1] == es[..k] + [es[k]] && fs[..k + 1] == fs[..k] + [fs[k]];
      EditsUnique(s, found, keys, es, fs, k + 1);
    } else if k < |fs| {
      NotLater(s, found, keys, fs, es, k);
    } else {
      assert es == es[..k] && fs == fs[..k];
    }
  }

  /** So the promise has one result for each text: public fields are not touched, sensitive ones not missed. */
  lemma RedactionUnique(s: string, found: seq<Range>, keys: Keys, out: string, out': string)
    requires Redacted(s, found, keys, out) && Redacted(s, found, keys, out')
    ensures out == out'
  {
    hide Sound, Complete, Rewrite;
    var es :| Keeps(s, found, keys, es) && out == Rewrite(s, es);
    var fs :| Keeps(s, found, keys, fs) && out' == Rewrite(s, fs);
    EditsUnique(s, found, keys, es, fs, 0);
  }
}
