/** Sanitised query ranges of `text.go`: in-place merging, and the forward-only index over the result. */
module QueryRanges {
  datatype Range = Range(start: nat, end: nat)

  ghost predicate Covers(rs: seq<Range>, x: int) {
    exists k :: 0 <= k < |rs| && rs[k].start <= x < rs[k].end
  }

  /** What the pattern search and the sort leave: ranges with ordered ends, in order of their starts. */
  predicate SortedByStart(rs: seq<Range>) {
    && (forall k :: 0 <= k < |rs| ==> rs[k].start <= rs[k].end)
    && (forall j, k :: 0 <= j < k < |rs| ==> rs[j].start <= rs[k].start)
  }

  /** In order, with a gap between neighbours. */
  predicate Separated(rs: seq<Range>) {
    && (forall k :: 0 <= k < |rs| ==> rs[k].start <= rs[k].end)
    && (forall j, k :: 0 <= j < k < |rs| ==> rs[j].end < rs[k].start)
  }

  function MergeStep(merged: seq<Range>, r: Range): seq<Range> {
    if merged != [] && r.start <= merged[|merged| - 1].end then
      var last := merged[|merged| - 1];
      merged[|merged| - 1 := last.(end := if r.end > last.end then r.end else last.end)]
    else merged + [r]
  }

  function Merge(rs: seq<Range>): (m: seq<Range>)
    ensures |m| <= |rs| && (rs != [] ==> m != [])
  {
    if rs == [] then [] else MergeStep(Merge(rs[..|rs| - 1]), rs[|rs| - 1])
  }

  /** The loop of `sanitizedQueryRanges`: `merged` shares the array it reads from. */
  method MergeInPlace(ranges: array<Range>) returns (n: nat)
    modifies ranges
    ensures n <= ranges.Length && ranges[..n] == Merge(old(ranges[..]))
    ensures ranges[n..] == old(ranges[..])[n..]
  {
    n := 0;
    ghost var rs := ranges[..];
    for i := 0 to ranges.Length
      invariant n <= i && ranges[..n] == Merge(rs[..i]) && ranges[n..] == rs[n..]
    {
      assert rs[..i + 1][..i] == rs[..i];
      var r := ranges[i];
      assert r == ranges[n..][i - n] == rs[i];
      if n > 0 && r.start <= ranges[n - 1].end {
        ghost var before := ranges[..n];
        ranges[n - 1] := ranges[n - 1].(end := if r.end > ranges[n - 1].end then r.end else ranges[n - 1].end);
        assert ranges[..n] == MergeStep(before, r);
      } else {
        ghost var before := ranges[..n];
        ghost var rest := ranges[n..];
        ranges[n] := r;
        n := n + 1;
        assert ranges[..n] == before + [r];
        assert ranges[n..] == rest[1..];
      }
    }
    assert rs[..ranges.Length] == rs;
  }

  lemma MergeStepCovers(merged: seq<Range>, r: Range, x: int)
    requires Separated(merged) && r.start <= r.end
    requires merged != [] ==> merged[|merged| - 1].start <= r.start
    ensures Covers(MergeStep(merged, r), x) <==> Covers(merged, x) || r.start <= x < r.end
  {
    var m := MergeStep(merged, r);
    if Covers(merged, x) {
      var k :| 0 <= k < |merged| && merged[k].start <= x < merged[k].end;
      assert m[k].start <= x < m[k].end;
    }
    if r.start <= x < r.end {
      assert m[|m| - 1].start <= x < m[|m| - 1].end;
    }
    if Covers(m, x) {
      var k :| 0 <= k < |m| && m[k].start <= x < m[k].end;
      assert k < |m| - 1 ==> m[k] == merged[k];
      if k == |m| - 1 && |m| == |merged| { assert merged[k].start <= x; }
    }
  }

  lemma {:induction false} MergeShape(rs: seq<Range>)
    requires SortedByStart(rs)
    ensures Separated(Merge(rs))
    ensures rs != [] ==> Merge(rs)[|Merge(rs)| - 1].start <= rs[|rs| - 1].start
  {
    if rs != [] {
      MergeShape(rs[..|rs| - 1]);
    }
  }

  /** Merging leaves strictly separated ranges that cover exactly what the given ranges cover. */
  lemma {:induction false} MergeExact(rs: seq<Range>, x: int)
    requires SortedByStart(rs)
    ensures Separated(Merge(rs)) && (Covers(Merge(rs), x) <==> Covers(rs, x))
  {
    MergeShape(rs);
    if rs != [] {
      var init, r := rs[..|rs| - 1], rs[|rs| - 1];
      MergeShape(init);
      MergeExact(init, x);
      assert init != [] ==> init[|init| - 1] == rs[|rs| - 2];
      MergeStepCovers(Merge(init), r, x);
      CoversSplit(rs, x);
    }
  }

  lemma CoversSplit(rs: seq<Range>, x: int)
    requires rs != []
    ensures Covers(rs, x) <==> Covers(rs[..|rs| - 1], x) || rs[|rs| - 1].start <= x < rs[|rs| - 1].end
  {
    var init := rs[..|rs| - 1];
    if Covers(init, x) {
      var k :| 0 <= k < |init| && init[k].start <= x < init[k].end;
      assert rs[k] == init[k];
    }
    if Covers(rs, x) {
      var k :| 0 <= k < |rs| && rs[k].start <= x < rs[k].end;
      assert k < |init| ==> init[k] == rs[k];
    }
  }

  /** Every range before `index` ends at or before `x`. */
  ghost predicate Passed(rs: seq<Range>, index: nat, x: int) {
    index <= |rs| && forall k :: 0 <= k < index ==> rs[k].end <= x
  }

  /** The forward-only index: moved past the ranges that end by `x`, it alone decides whether `x` is covered. */
  method Seek(ranges: array<Range>, n: nat, index: nat, x: nat) returns (index': nat, inside: bool)
    requires n <= ranges.Length && Separated(ranges[..n]) && Passed(ranges[..n], index, x)
    ensures index <= index' && Passed(ranges[..n], index', x)
    ensures inside <==> Covers(ranges[..n], x)
  {
    index' := index;
    while index' < n && ranges[index'].end <= x
      invariant index <= index' && Passed(ranges[..n], index', x)
    {
      index' := index' + 1;
    }
    inside := index' < n && ranges[index'].start <= x && x < ranges[index'].end;
    if Covers(ranges[..n], x) {
      var k :| 0 <= k < n && ranges[k].start <= x < ranges[k].end;
      assert index' <= k;
      if index' < k { assert ranges[..n][index'].end < ranges[..n][k].start; }
    }
  }
}
