/** The fields and values that are masked in free text, as grammars, and what each mask replaces. */
module FieldGrammar {
  import opened Bytes
  import opened Quoting
  import opened Compound
  import opened Fields
  import opened QueryRanges
  import opened Rewriting
  import opened KeyValues

  // ---------- a field ----------

  predicate IsKeyStart(c: char) { 'a' <= c <= 'z' || 'A' <= c <= 'Z' || c == '_' }

  predicate IsKeyPart(c: char) { IsKeyStart(c) || '0' <= c <= '9' || c in {'.', '-'} }

  predicate IsKey(t: string) {
    1 <= |t| <= 96 && IsKeyStart(t[0]) && forall i :: 0 <= i < |t| ==> IsKeyPart(t[i])
  }

  predicate IsGap(t: string) { forall i :: 0 <= i < |t| ==> t[i] in {' ', '\t'} }

  /** `key` and its separator stand at `p`, up to the value at `v`. */
  ghost predicate Stands(s: string, p: nat, key: string, quote: string, gap: string, sign: char, space: string, v: nat)
  {
    && v <= |s| && p + |key| + |quote| + |gap| + 1 + |space| == v
    && s[p..v] == key + quote + gap + [sign] + space
  }

  /** A field: a key of at most 96 characters, perhaps a closing quote, and `:` or `=` with blanks around it, all of the
      blanks after it included. */
  ghost predicate IsField(s: string, p: nat, e: nat, v: nat) {
    exists key, quote, gap, sign, space ::
      && IsKey(key) && quote in {"", "\"", "'"} && IsGap(gap) && sign in {':', '='} && IsGap(space)
      && e == p + |key| && Stands(s, p, key, quote, gap, sign, space, v) && (v < |s| ==> s[v] !in {' ', '\t'})
  }

  lemma FieldIs(s: string, p: nat)
    requires p <= |s| && FieldAt(s, p).Some?
    ensures IsField(s, p, FieldAt(s, p).value.keyEnd, FieldAt(s, p).value.valueStart)
  {
    hide *;
    var e, q, w, v := FieldParts(s, p);
    Pieces(s, p, e, q, w, v);
    KeyRun(s, p, e);
    GapRun(s, q, w);
    GapRun(s, w + 1, v);
    FieldMade(s, p, e, q, w, v);
  }

  /** Where the parts of a match begin and end. */
  lemma FieldParts(s: string, p: nat) returns (e: nat, q: nat, w: nat, v: nat)
    requires p <= |s| && FieldAt(s, p).Some?
    ensures p < e <= q <= w < v <= |s| && FieldAt(s, p) == Some(Field(e, v))
    ensures e - p <= 96 && IsIdentStart(s[p]) && (forall k :: p <= k < e ==> IsKeyChar(s[k]))
    ensures s[e..q] in {"", "\"", "'"} && IsAssign(s[w]) && (v < |s| ==> !IsBlank(s[v]))
    ensures (forall k :: q <= k < w ==> IsBlank(s[k])) && (forall k :: w + 1 <= k < v ==> IsBlank(s[k]))
  {
    e := FieldAt(s, p).value.keyEnd;
    q := if e < |s| && IsQuote(s[e]) then e + 1 else e;
    w := RunEnd(s, q, IsBlank);
    v := FieldAt(s, p).value.valueStart;
    hide RunEnd, IsKeyChar, IsBlank, IsIdentStart, IsAssign;
    if q == e + 1 { assert s[e..q] == [s[e]]; }
  }

  lemma KeyRun(s: string, p: nat, e: nat)
    requires p < e <= |s| && e - p <= 96 && IsIdentStart(s[p]) && forall k :: p <= k < e ==> IsKeyChar(s[k])
    ensures IsKey(s[p..e])
  {
    forall i | 0 <= i < e - p ensures IsKeyPart(s[p..e][i]) { assert s[p..e][i] == s[p + i]; }
  }

  lemma GapRun(s: string, i: nat, j: nat)
    requires i <= j <= |s| && forall k :: i <= k < j ==> IsBlank(s[k])
    ensures IsGap(s[i..j])
  {
    forall k | 0 <= k < j - i ensures s[i..j][k] in {' ', '\t'} { assert s[i..j][k] == s[i + k]; }
  }

  lemma FieldMade(s: string, p: nat, e: nat, q: nat, w: nat, v: nat)
    requires p < e <= q <= w < v <= |s| && Stands(s, p, s[p..e], s[e..q], s[q..w], s[w], s[w + 1..v], v)
    requires IsKey(s[p..e]) && s[e..q] in {"", "\"", "'"} && IsGap(s[q..w]) && IsAssign(s[w]) && IsGap(s[w + 1..v])
    requires v < |s| ==> !IsBlank(s[v])
    ensures IsField(s, p, e, v)
  {
    hide Stands, IsKey, IsGap;
  }

  lemma Pieces(s: string, p: nat, e: nat, q: nat, w: nat, v: nat)
    requires p <= e <= q <= w < v <= |s|
    ensures Stands(s, p, s[p..e], s[e..q], s[q..w], s[w], s[w + 1..v], v)
  {
    SliceSplit(s, p, e, v);
    SliceSplit(s, e, q, v);
    SliceSplit(s, q, w, v);
    assert s[w..v] == [s[w]] + s[w + 1..v];
  }

  lemma PiecesStand(s: string, p: nat, key: string, quote: string, gap: string, sign: char, space: string, v: nat)
    requires Stands(s, p, key, quote, gap, sign, space, v)
    ensures var e := p + |key|; var q := e + |quote|; var w := q + |gap|;
            && w < v <= |s| && key == s[p..e] && quote == s[e..q] && gap == s[q..w] && sign == s[w]
            && space == s[w + 1..v]
  {
    assert key + quote + gap + [sign] + space == "" + (key + (quote + gap + [sign] + space))
        == key + (quote + (gap + [sign] + space)) == key + quote + (gap + ([sign] + space))
        == key + quote + gap + ([sign] + space) == key + quote + gap + [sign] + (space + "");
    PieceAt(s, p, v, "", key, quote + gap + [sign] + space);
    PieceAt(s, p, v, key, quote, gap + [sign] + space);
    PieceAt(s, p, v, key + quote, gap, [sign] + space);
    PieceAt(s, p, v, key + quote + gap, [sign], space);
    PieceAt(s, p, v, key + quote + gap + [sign], space, "");
    var w := p + |key| + |quote| + |gap|;
    assert s[w..w + 1][0] == s[w];
  }

  lemma PieceAt(s: string, p: nat, v: nat, before: string, x: string, after: string)
    requires p <= v <= |s| && s[p..v] == before + (x + after)
    ensures var i := p + |before|; i + |x| <= v && s[i..i + |x|] == x
  {
    SliceSlice(s, p, v, |before|, |before| + |x|);
    assert (before + (x + after))[|before|..|before| + |x|] == x;
  }

  /** The match at `p` is the one field of the grammar that starts there. */
  lemma FieldExactly(s: string, p: nat, e: nat, v: nat)
    requires p <= |s|
    ensures FieldAt(s, p) == Some(Field(e, v)) <==> IsField(s, p, e, v)
  {
    hide FieldAt, IsKey, IsGap, Stands;
    if FieldAt(s, p) == Some(Field(e, v)) { FieldIs(s, p); }
    if IsField(s, p, e, v) {
      var key, quote, gap, sign, space :|
        && IsKey(key) && quote in {"", "\"", "'"} && IsGap(gap) && sign in {':', '='} && IsGap(space)
        && e == p + |key| && Stands(s, p, key, quote, gap, sign, space, v) && (v < |s| ==> s[v] !in {' ', '\t'});
      PiecesStand(s, p, key, quote, gap, sign, space, v);
      FieldFound(s, p, e, e + |quote|, e + |quote| + |gap|, v);
    }
  }

  lemma FieldFound(s: string, p: nat, e: nat, q: nat, w: nat, v: nat)
    requires p <= e <= q <= w < v <= |s|
    requires IsKey(s[p..e]) && s[e..q] in {"", "\"", "'"} && IsGap(s[q..w]) && s[w] in {':', '='} && IsGap(s[w + 1..v])
    requires v < |s| ==> s[v] !in {' ', '\t'}
    ensures FieldAt(s, p) == Some(Field(e, v))
  {
    hide IsKey, IsGap, FieldAt, SeparatorEnd, RunEnd, IsKeyPart, IsIdentStart;
    assert !IsKeyPart(s[e]) by { NoKeyPart(s, e, q, w); }
    KeyEnds(s, p, e, q);
    SeparatorFound(s, e, q, w, v);
    MatchFound(s, p, e, v);
  }

  lemma NoKeyPart(s: string, e: nat, q: nat, w: nat)
    requires e <= q <= w < |s| && s[e..q] in {"", "\"", "'"} && IsGap(s[q..w]) && s[w] in {':', '='}
    ensures !IsKeyPart(s[e])
  {
    if q == e + 1 { assert s[e] == s[e..q][0]; }
    if q == e < w { assert s[e] == s[q..w][0]; }
  }

  lemma SeparatorFound(s: string, e: nat, q: nat, w: nat, v: nat)
    requires e <= q <= w < v <= |s|
    requires s[e..q] in {"", "\"", "'"} && IsGap(s[q..w]) && s[w] in {':', '='} && IsGap(s[w + 1..v])
    requires v < |s| ==> s[v] !in {' ', '\t'}
    ensures SeparatorEnd(s, e) == Some(v)
  {
    GapEnds(s, q, w);
    GapEnds(s, w + 1, v);
    if q == e + 1 { assert s[e] == s[e..q][0]; }
    if q == e < w { assert s[e] == s[q..w][0]; }
    hide RunEnd, IsGap;
  }

  lemma MatchFound(s: string, p: nat, e: nat, v: nat)
    requires p < e < v <= |s| && e - p <= 96 && IsIdentStart(s[p]) && RunEnd(s, p, IsKeyChar) == e
    requires SeparatorEnd(s, e) == Some(v)
    ensures FieldAt(s, p) == Some(Field(e, v))
  {
    hide RunEnd, SeparatorEnd;
  }

  lemma KeyEnds(s: string, p: nat, e: nat, q: nat)
    requires p <= e <= q < |s| && IsKey(s[p..e]) && s[e..q] in {"", "\"", "'"} && (q == e ==> !IsKeyPart(s[e]))
    ensures RunEnd(s, p, IsKeyChar) == e && p < e && e - p <= 96 && IsIdentStart(s[p])
  {
    forall k | p <= k < e ensures IsKeyChar(s[k]) { assert s[p..e][k - p] == s[k]; }
    assert s[p] == s[p..e][0];
    assert q == e || (q == e + 1 && s[e] == s[e..q][0]);
    RunEndIs(s, p, IsKeyChar, e);
  }

  lemma GapEnds(s: string, i: nat, j: nat)
    requires i <= j <= |s| && IsGap(s[i..j]) && (j < |s| ==> s[j] !in {' ', '\t'})
    ensures RunEnd(s, i, IsBlank) == j
  {
    forall k | i <= k < j ensures IsBlank(s[k]) { assert s[i..j][k - i] == s[k]; }
    RunEndIs(s, i, IsBlank, j);
  }

  // ---------- a quoted value ----------

  /** The quoted text that continues at `i` ends right before `end`: characters and backslash pairs, then the quote. */
  ghost predicate ClosesAt(s: string, i: nat, quote: char, end: nat) {
    exists us :: UnitsValid(quote, us) && end == i + |PrintUnits(us)| + 1 && At(s, i, PrintUnits(us) + [quote])
  }

  lemma {:induction false} Closed(s: string, i: nat, quote: char) returns (us: seq<Unit>)
    requires i <= |s| && quote != '\\' && QuotedEnd(s, i, quote).Some?
    ensures UnitsValid(quote, us) && QuotedEnd(s, i, quote).value == i + |PrintUnits(us)| + 1
    ensures At(s, i, PrintUnits(us) + [quote])
    decreases |s| - i
  {
    if s[i] == '\\' {
      us := Closed(s, i + 2, quote);
      UnitBefore(s, i, Escape(s[i + 1]), us, quote);
      us := [Escape(s[i + 1])] + us;
    } else if s[i] == quote {
      us := [];
    } else {
      us := Closed(s, i + 1, quote);
      UnitBefore(s, i, Char(s[i]), us, quote);
      us := [Char(s[i])] + us;
    }
  }

  function UnitText(u: Unit): string { match u case Char(c) => [c] case Escape(c) => ['\\', c] }

  lemma UnitBefore(s: string, i: nat, u: Unit, us: seq<Unit>, quote: char)
    requires At(s, i, UnitText(u)) && At(s, i + |UnitText(u)|, PrintUnits(us) + [quote])
    ensures |PrintUnits([u] + us)| == |UnitText(u)| + |PrintUnits(us)|
    ensures At(s, i, PrintUnits([u] + us) + [quote])
  {
    var head, tail := UnitText(u), PrintUnits(us) + [quote];
    assert ([u] + us)[1..] == us;
    assert PrintUnits([u] + us) + [quote] == head + tail;
    SliceSplit(s, i, i + |head|, i + |head| + |tail|);
  }

  lemma {:induction false} Closes(s: string, i: nat, quote: char, us: seq<Unit>)
    requires quote != '\\' && UnitsValid(quote, us) && At(s, i, PrintUnits(us) + [quote])
    ensures i <= |s| && QuotedEnd(s, i, quote) == Some(i + |PrintUnits(us)| + 1)
    decreases |us|
  {
    var t := PrintUnits(us) + [quote];
    AtChar(s, i, t, 0);
    AtInside(s, i, t);
    if us != [] {
      var head, tail := UnitText(us[0]), PrintUnits(us[1..]) + [quote];
      assert t == head + tail;
      AtSplit(s, i, head, tail);
      AtInside(s, i + |head|, tail);
      hide At;
      Closes(s, i + |head|, quote, us[1..]);
    }
  }

  /** A quoted value ends where its grammar says. */
  lemma QuotedExactly(s: string, i: nat, quote: char, end: nat)
    requires i <= |s| && quote != '\\'
    ensures QuotedEnd(s, i, quote) == Some(end) <==> ClosesAt(s, i, quote, end)
  {
    hide QuotedEnd, UnitsValid, PrintUnits, At;
    if QuotedEnd(s, i, quote) == Some(end) { var us := Closed(s, i, quote); }
    if ClosesAt(s, i, quote, end) {
      var us :| UnitsValid(quote, us) && end == i + |PrintUnits(us)| + 1 && At(s, i, PrintUnits(us) + [quote]);
      Closes(s, i, quote, us);
    }
  }

  // ---------- an encoded placeholder ----------

  /** The characters are those of `word`, each in lower or in upper case. */
  predicate IsCased(s: string, i: nat, lower: string, upper: string)
    requires |lower| == |upper|
  {
    i + |lower| <= |s| && forall k :: 0 <= k < |lower| ==> s[i + k] in {lower[k], upper[k]}
  }

  lemma PlaceholderExactly(s: string, start: nat)
    ensures StartsEncodedMask(s, start) <==> IsCased(s, start, "%5bredacted", "%5BREDACTED")
    ensures EncodedBracket(s, start) <==> IsCased(s, start, "%5d", "%5D")
  {
    CasedExactly(s, start, "%5bredacted", "%5BREDACTED");
    CasedExactly(s, start, "%5d", "%5D");
  }

  lemma CasedExactly(s: string, i: nat, lower: string, upper: string)
    requires |lower| == |upper|
    requires forall k :: 0 <= k < |lower| ==>
               && LowerChar(upper[k]) == lower[k] == LowerChar(lower[k])
               && (upper[k] == lower[k] ==> !('a' <= lower[k] <= 'z'))
    ensures (i + |lower| <= |s| && Lower(s[i..i + |lower|]) == lower) <==> IsCased(s, i, lower, upper)
  {
    if i + |lower| <= |s| {
      var t := s[i..i + |lower|];
      forall k | 0 <= k < |lower| ensures Lower(t)[k] == lower[k] <==> s[i + k] in {lower[k], upper[k]} {
        assert t[k] == s[i + k];
        OneCased(t[k], lower[k], upper[k]);
      }
    }
  }

  lemma OneCased(c: char, lower: char, upper: char)
    requires LowerChar(upper) == lower == LowerChar(lower) && (upper == lower ==> !('a' <= lower <= 'z'))
    ensures LowerChar(c) == lower <==> c in {lower, upper}
  {}

  // ---------- what a mask replaces ----------

  /** Whitespace stands at `k`, and a field after the run of it. */
  ghost predicate FieldFollows(s: string, k: nat) {
    exists n: nat, e, v ::
      && k < n <= |s| && (forall i :: k <= i < n ==> s[i] in {' ', '\t', '\r', '\n'}) && IsField(s, n, e, v)
  }

  lemma ClearExactly(s: string, k: nat)
    requires k <= |s|
    ensures IsClear(s, k) <==> FieldFollows(s, k)
  {
    if IsClear(s, k) {
      var n := RunEnd(s, k, IsWhite);
      FieldIs(s, n);
    }
    if FieldFollows(s, k) {
      var n: nat, e, v :|
        && k < n <= |s| && (forall i :: k <= i < n ==> s[i] in {' ', '\t', '\r', '\n'}) && IsField(s, n, e, v);
      FieldExactly(s, n, e, v);
      RunEndIs(s, k, IsWhite, n);
    }
  }

  /** The mask goes on from `e` to the first whitespace that a field follows, or to the end of the text. */
  ghost predicate MasksOn(s: string, e: nat, end: nat) {
    e <= end <= |s| && (end < |s| ==> FieldFollows(s, end)) && forall k: nat :: e <= k < end ==> !FieldFollows(s, k)
  }

  lemma ClearsExactly(s: string, e: nat, end: nat)
    ensures NextClear(s, e, end) <==> MasksOn(s, e, end)
  {
    hide IsClear, FieldFollows;
    forall k: nat | k <= |s| ensures IsClear(s, k) <==> FieldFollows(s, k) { ClearExactly(s, k); }
  }

  /** A quoted text, a balanced term of at most 24 levels, or an encoded placeholder with its first closing bracket
      stands from `start` to `e`. */
  ghost predicate IsWhole(s: string, start: nat, e: nat)
    requires start < |s|
  {
    if s[start] in {'"', '\''} then ClosesAt(s, start + 1, s[start], e)
    else if s[start] in {'{', '['} then IsTerm(s, start, e)
    else IsCased(s, start, "%5bredacted", "%5BREDACTED") && FirstBracket(s, start, e)
  }

  ghost predicate FirstBracket(s: string, start: nat, e: nat) {
    && start + 3 <= e && IsCased(s, e - 3, "%5d", "%5D")
    && forall k: nat :: start <= k < e - 3 ==> !IsCased(s, k, "%5d", "%5D")
  }

  lemma WholeExactly(s: string, start: nat, e: nat)
    requires start < |s|
    ensures Completes(s, start, e) <==> IsWhole(s, start, e)
  {
    hide QuotedEnd, ClosesAt, IsTerm, StartsEncodedMask, EncodedBracket, IsCased;
    if s[start] in {'"', '\''} { QuotedExactly(s, start + 1, s[start], e); }
    forall k: nat
      ensures StartsEncodedMask(s, k) <==> IsCased(s, k, "%5bredacted", "%5BREDACTED")
      ensures EncodedBracket(s, k) <==> IsCased(s, k, "%5d", "%5D")
    {
      PlaceholderExactly(s, k);
    }
  }

  /** Nothing is attached to a whole value at `w`: the text ends there or whitespace follows, or, after a key right
      behind a quote, a comma or a closing bracket. */
  predicate StandsAlone(s: string, p: nat, w: nat) {
    || w == |s|
    || (w < |s| && s[w] in {' ', '\t', '\r', '\n'})
    || (0 < p <= |s| && s[p - 1] in {'"', '\''} && w < |s| && s[w] in {',', '}', ']'})
  }

  /** A header whose value is not read as fields: neither its key nor its value is behind a quote. */
  predicate IsRawHeader(s: string, keys: Keys, p: nat, keyEnd: nat, start: nat)
    requires p <= keyEnd <= start < |s|
  {
    (p == 0 || s[p - 1] !in {'"', '\''}) && keys.opaqueHeader(s[p..keyEnd]) && s[start] !in {'"', '\''}
  }

  /** The value from `start` on is replaced up to `end` by `text`. A whole value goes alone, in its own quotes, or with
      what is attached to it; a raw header, and a quote or bracket that is not closed, with the rest of the text; and
      anything else up to the next field. */
  ghost predicate Masked(s: string, keys: Keys, p: nat, keyEnd: nat, start: nat, end: nat, text: string)
    requires p <= keyEnd <= start <= |s|
  {
    if start == |s| || IsRawHeader(s, keys, p, keyEnd, start) then end == |s| && text == "[REDACTED]"
    else if exists w: nat :: IsWhole(s, start, w) then
      && (forall w: nat :: IsWhole(s, start, w) ==> if StandsAlone(s, p, w) then end == w else MasksOn(s, w, end))
      && text == if s[start] in {'"', '\''} then [s[start]] + "[REDACTED]" + [s[start]] else "[REDACTED]"
    else
      && text == "[REDACTED]"
      && if s[start] in {'"', '\'', '{', '['} then end == |s| else MasksOn(s, start, end)
  }

  /** What every mask replaces, and by what, read off the text: a mask stands for the field at `p` exactly when a field
      of the grammar starts there, with a sensitive key and outside the sanitised queries, and its value is masked
      so. */
  lemma MaskExactly(s: string, found: seq<Range>, keys: Keys, p: nat, e: Edit)
    ensures MasksField(s, found, keys, p, e) <==>
              exists keyEnd :: p <= keyEnd <= e.start <= |s| && IsField(s, p, keyEnd, e.start)
                && keys.sensitive(s[p..keyEnd]) && !Covers(found, p)
                && Masked(s, keys, p, keyEnd, e.start, e.end, e.text)
  {
    hide FieldAt, IsField, Covers, ValueEnds, Masked;
    forall keyEnd, v: nat | p <= |s| ensures FieldAt(s, p) == Some(Field(keyEnd, v)) <==> IsField(s, p, keyEnd, v) {
      FieldExactly(s, p, keyEnd, v);
    }
    if p <= |s| && FieldAt(s, p).Some? {
      var f := FieldAt(s, p).value;
      MaskedExactly(s, keys, p, f.keyEnd, f.valueStart, e.end, e.text);
    }
  }

  lemma MaskedExactly(s: string, keys: Keys, p: nat, keyEnd: nat, start: nat, end: nat, text: string)
    requires p <= keyEnd <= start <= |s|
    ensures Masked(s, keys, p, keyEnd, start, end, text) <==>
              if start == |s| then end == |s| && text == MASK
              else exists quote :: ValueEnds(s, start, s[p..keyEnd], QuotedKey(s, p), keys, end, quote)
                                   && text == Requoted(quote)
  {
    hide Completes, IsWhole, NextClear, MasksOn, ValueEnds, Masked;
    if start < |s| {
      var key, quoted := s[p..keyEnd], QuotedKey(s, p);
      forall w: nat ensures Completes(s, start, w) <==> IsWhole(s, start, w) { WholeExactly(s, start, w); }
      forall w: nat ensures NextClear(s, w, end) <==> MasksOn(s, w, end) { ClearsExactly(s, w, end); }
      if RawHeader(s, start, key, quoted, keys) {
        RawMasked(s, keys, p, keyEnd, start, end, text);
      } else if w: nat :| IsWhole(s, start, w) {
        WholeMasked(s, keys, p, keyEnd, start, end, text, w);
      } else {
        RestMasked(s, keys, p, keyEnd, start, end, text);
      }
    } else {
      EndMasked(s, keys, p, keyEnd, end, text);
    }
  }

  lemma EndMasked(s: string, keys: Keys, p: nat, keyEnd: nat, end: nat, text: string)
    requires p <= keyEnd <= |s|
    ensures Masked(s, keys, p, keyEnd, |s|, end, text) <==> end == |s| && text == MASK
  {}

  ghost predicate Ends(s: string, keys: Keys, p: nat, keyEnd: nat, start: nat, end: nat, text: string)
    requires p <= keyEnd <= start < |s|
  {
    exists quote :: ValueEnds(s, start, s[p..keyEnd], QuotedKey(s, p), keys, end, quote) && text == Requoted(quote)
  }

  lemma RawMasked(s: string, keys: Keys, p: nat, keyEnd: nat, start: nat, end: nat, text: string)
    requires p <= keyEnd <= start < |s| && RawHeader(s, start, s[p..keyEnd], QuotedKey(s, p), keys)
    ensures Masked(s, keys, p, keyEnd, start, end, text) <==> Ends(s, keys, p, keyEnd, start, end, text)
  {
    var key, quoted := s[p..keyEnd], QuotedKey(s, p);
    assert ValueEnds(s, start, key, quoted, keys, end, '\0') <==> end == |s|;
    assert Requoted('\0') == "[REDACTED]";
  }

  lemma WholeMasked(s: string, keys: Keys, p: nat, keyEnd: nat, start: nat, end: nat, text: string, w: nat)
    requires p <= keyEnd <= start < |s| && !RawHeader(s, start, s[p..keyEnd], QuotedKey(s, p), keys)
    requires Completes(s, start, w) && forall w: nat :: Completes(s, start, w) <==> IsWhole(s, start, w)
    requires forall w: nat :: NextClear(s, w, end) <==> MasksOn(s, w, end)
    ensures Masked(s, keys, p, keyEnd, start, end, text) <==> Ends(s, keys, p, keyEnd, start, end, text)
  {
    hide Completes, IsWhole, NextClear, MasksOn;
    var key, quoted := s[p..keyEnd], QuotedKey(s, p);
    forall v: nat | Completes(s, start, v) ensures v == w { CompletesUnique(s, start, v, w); }
    CompletesBounds(s, start, w);
    assert StandsAlone(s, p, w) <==> Detached(s, w, quoted);
    var quote := if s[start] in {'"', '\''} then s[start] else '\0';
    assert ValueEnds(s, start, key, quoted, keys, end, quote) <==>
           if Detached(s, w, quoted) then end == w else NextClear(s, w, end);
    assert Requoted(quote) == if quote == '\0' then "[REDACTED]" else [quote] + "[REDACTED]" + [quote];
  }

  lemma RestMasked(s: string, keys: Keys, p: nat, keyEnd: nat, start: nat, end: nat, text: string)
    requires p <= keyEnd <= start < |s| && !RawHeader(s, start, s[p..keyEnd], QuotedKey(s, p), keys)
    requires forall w: nat :: !Completes(s, start, w) && !IsWhole(s, start, w)
    requires NextClear(s, start, end) <==> MasksOn(s, start, end)
    ensures Masked(s, keys, p, keyEnd, start, end, text) <==> Ends(s, keys, p, keyEnd, start, end, text)
  {
    hide Completes, IsWhole, NextClear, MasksOn;
    var key, quoted := s[p..keyEnd], QuotedKey(s, p);
    assert ValueEnds(s, start, key, quoted, keys, end, '\0') <==>
           if s[start] in {'"', '\'', '{', '['} then end == |s| else NextClear(s, start, end);
    assert Requoted('\0') == "[REDACTED]";
  }
}
