/** Masking of formatted card numbers in `text.go`: greedy, longest first, inside each matched digit sequence. */
module Cards {
  import opened Bytes
  import opened Luhn
  import opened Rewriting

  datatype Match = Match(start: nat, end: nat)

  /** What the surroundings decide: the correlation prefix pattern, asked for a start position. */
  type Prefix = nat -> bool

  predicate InSequence(c: char) { IsDigit(c) || c == ' ' || c == '-' }

  /** The text of a match of the card sequence pattern. */
  ghost predicate IsSequence(s: string, m: Match) {
    && m.start + 13 <= m.end <= m.start + 64 && m.end <= |s|
    && IsDigit(s[m.start]) && IsDigit(s[m.end - 1])
    && forall k :: m.start <= k < m.end ==> InSequence(s[k])
  }

  /** Matches as the pattern search gives them: in order and without overlap. */
  ghost predicate IsSearchResult(s: string, ms: seq<Match>) {
    && (forall k :: 0 <= k < |ms| ==> IsSequence(s, ms[k]))
    && (forall j, k :: 0 <= j < k < |ms| ==> ms[j].end <= ms[k].start)
  }

  predicate IsNameChar(c: char) { IsLetter(c) || IsDigit(c) || c == '_' }

  /** `numberBoundary`: the number does not touch a letter, a digit or an underscore. */
  predicate Bounded(s: string, start: nat, end: nat)
    requires start <= end <= |s|
  {
    (start == 0 || !IsNameChar(s[start - 1])) && (end == |s| || !IsNameChar(s[end]))
  }

  /** `correlationNumber`: 16 or 32 plain digits after a correlation key. */
  predicate Correlated(s: string, start: nat, end: nat, prefix: Prefix)
    requires start <= end <= |s|
  {
    (end - start == 16 || end - start == 32) && (forall k :: start <= k < end ==> IsDigit(s[k])) && prefix(start)
  }

  /** The digits of `s[a..b]`. */
  function Digits(s: string, a: nat, b: nat): (d: string)
    requires a <= b <= |s|
    ensures AllDigits(d) && |d| <= b - a
    decreases b
  {
    if a == b then "" else Digits(s, a, b - 1) + if IsDigit(s[b - 1]) then [s[b - 1]] else []
  }

  /** `s[a..b]` is a card number to mask inside the sequence `m`. */
  ghost predicate Qualifies(s: string, m: Match, prefix: Prefix, a: nat, b: nat)
    requires m.end <= |s|
  {
    && m.start <= a < b <= m.end
    && IsDigit(s[a]) && (a == m.start || !IsDigit(s[a - 1]))
    && IsDigit(s[b - 1]) && (b == m.end || !IsDigit(s[b]))
    && 13 <= |Digits(s, a, b)| <= 19 && IsLuhn(Digits(s, a, b))
    && Bounded(s, a, b) && !Correlated(s, a, b, prefix)
  }

  /** The longest card number starting at `a`. */
  ghost predicate Longest(s: string, m: Match, prefix: Prefix, a: nat, b: nat)
    requires m.end <= |s|
  {
    Qualifies(s, m, prefix, a, b) && forall c :: b < c ==> !Qualifies(s, m, prefix, a, c)
  }

  lemma {:induction false} DigitsGrow(s: string, a: nat, b: nat, c: nat)
    requires a <= b <= c <= |s|
    ensures |Digits(s, a, b)| <= |Digits(s, a, c)|
    decreases c
  {
    if b < c { DigitsGrow(s, a, b, c - 1); }
  }

  /** The test made at each digit of the inner loop. */
  method Accepts(s: string, m: Match, prefix: Prefix, start: nat, end: nat, digits: string) returns (ok: bool)
    requires IsSequence(s, m) && m.start <= start <= end < m.end
    requires IsDigit(s[start]) && (start == m.start || !IsDigit(s[start - 1]))
    requires IsDigit(s[end]) && digits == Digits(s, start, end + 1) && |digits| <= 19
    ensures ok == Qualifies(s, m, prefix, start, end + 1)
  {
    ok := false;
    if |digits| >= 13 && (end + 1 == m.end || !IsDigit(s[end + 1])) {
      ok := Luhn.Check(digits);
      ok := ok && Bounded(s, start, end + 1) && !Correlated(s, start, end + 1, prefix);
    }
  }

  /** The inner loop: the end of the longest card number from `start`, or the sequence start when there is none. */
  method LongestCard(s: string, m: Match, prefix: Prefix, start: nat) returns (best: nat)
    requires IsSequence(s, m) && m.start <= start < m.end
    requires IsDigit(s[start]) && (start == m.start || !IsDigit(s[start - 1]))
    ensures best > start ==> Longest(s, m, prefix, start, best)
    ensures best <= start ==> forall b: nat :: !Qualifies(s, m, prefix, start, b)
  {
    hide Digits, Qualifies;
    best := m.start;
    CardEnds(s, m, prefix, start);
    var digits := "";
    var end := start;
    while end < m.end
      invariant start <= end <= m.end && digits == Digits(s, start, end) && |digits| <= 19
      invariant best == m.start || Qualifies(s, m, prefix, start, best)
      invariant forall b: nat :: b <= end && Qualifies(s, m, prefix, start, b) ==> start < b <= best
    {
      var c := s[end];
      assert Digits(s, start, end + 1) == digits + if IsDigit(c) then [c] else [] by { DigitsNext(s, start, end); }
      if IsDigit(c) {
        digits := digits + [c];
        if |digits| > 19 {
          TooManyDigits(s, m, prefix, start, end + 1);
          return;
        }
        var accepted := Accepts(s, m, prefix, start, end, digits);
        if accepted { best := end + 1; }
      } else if c != ' ' && c != '-' {
        break;
      }
      end := end + 1;
    }
  }

  lemma DigitsNext(s: string, a: nat, b: nat)
    requires a <= b < |s|
    ensures Digits(s, a, b + 1) == Digits(s, a, b) + if IsDigit(s[b]) then [s[b]] else []
  {}

  lemma CardEnds(s: string, m: Match, prefix: Prefix, a: nat)
    requires m.end <= |s|
    ensures forall b: nat :: Qualifies(s, m, prefix, a, b) ==> a < b <= m.end && IsDigit(s[b - 1])
    ensures a <= |s| ==> Digits(s, a, a) == ""
  {}

  lemma TooManyDigits(s: string, m: Match, prefix: Prefix, a: nat, end: nat)
    requires m.end <= |s| && a <= end <= |s| && |Digits(s, a, end)| > 19
    ensures forall b: nat :: end <= b ==> !Qualifies(s, m, prefix, a, b)
  {
    forall b: nat | end <= b && Qualifies(s, m, prefix, a, b) ensures false {
      DigitsGrow(s, a, end, b);
    }
  }

  /** The edit masks the longest card number at its start. */
  ghost predicate Masks(s: string, m: Match, prefix: Prefix, e: Edit)
    requires m.end <= |s|
  {
    e.text == MASK && Longest(s, m, prefix, e.start, e.end)
  }

  /** A card number of `m` that starts before `upto` starts inside a masked span. */
  ghost predicate Covered(s: string, m: Match, prefix: Prefix, edits: seq<Edit>, upto: nat)
    requires m.end <= |s|
  {
    forall a: nat, b: nat :: a < upto && Qualifies(s, m, prefix, a, b) ==> Edited(edits, a)
  }

  /** What the redaction promises: every edit masks the longest card number at its start, and every card
      number starts inside an edit. */
  ghost predicate MasksAll(s: string, ms: seq<Match>, prefix: Prefix, edits: seq<Edit>)
    requires IsSearchResult(s, ms)
  {
    && Ordered(edits, |s|)
    && (forall k :: 0 <= k < |edits| ==> exists j :: 0 <= j < |ms| && Masks(s, ms[j], prefix, edits[k]))
    && (forall j :: 0 <= j < |ms| ==> Covered(s, ms[j], prefix, edits, ms[j].end))
  }

  /** `out` is the text with such edits made. */
  ghost predicate Redacted(s: string, ms: seq<Match>, prefix: Prefix, out: string)
    requires IsSearchResult(s, ms)
  {
    exists edits :: MasksAll(s, ms, prefix, edits) && out == Rewrite(s, edits)
  }

  lemma EditedMore(edits: seq<Edit>, e: Edit)
    ensures forall i :: Edited(edits, i) ==> Edited(edits + [e], i)
    ensures forall i :: e.start <= i < e.end ==> Edited(edits + [e], i)
  {
    var more := edits + [e];
    forall i | Edited(edits, i) ensures Edited(more, i) {
      var k :| 0 <= k < |edits| && edits[k].start <= i < edits[k].end;
      assert more[k] == edits[k];
    }
    assert more[|edits|] == e;
  }

  lemma CoveredMore(s: string, m: Match, prefix: Prefix, edits: seq<Edit>, e: Edit)
    requires m.end <= |s| && Covered(s, m, prefix, edits, e.start) && e.start < e.end
    ensures Covered(s, m, prefix, edits + [e], e.end)
  {
    hide Qualifies;
    EditedMore(edits, e);
  }

  lemma CoveredStep(s: string, m: Match, prefix: Prefix, edits: seq<Edit>, start: nat)
    requires m.end <= |s| && Covered(s, m, prefix, edits, start)
    requires forall b: nat :: !Qualifies(s, m, prefix, start, b)
    ensures Covered(s, m, prefix, edits, start + 1)
  {
    hide Qualifies;
  }

  lemma CoveredByMore(s: string, m: Match, prefix: Prefix, edits: seq<Edit>, more: seq<Edit>)
    requires m.end <= |s| && Covered(s, m, prefix, edits, m.end) && edits <= more
    ensures Covered(s, m, prefix, more, m.end)
  {
    hide Qualifies;
    forall i | Edited(edits, i) ensures Edited(more, i) {
      var k :| 0 <= k < |edits| && edits[k].start <= i < edits[k].end;
      assert more[k] == edits[k];
    }
  }

  /** The loop over one sequence: it continues the output `built` and the edits `done`. */
  method MaskSequence(s: string, m: Match, prefix: Prefix, built: string, from: nat, ghost done: seq<Edit>)
      returns (out: string, previous: nat, ghost edits: seq<Edit>)
    requires IsSequence(s, m) && Ordered(done, |s|) && from == LastEnd(done) <= m.start && built == Built(s, done)
    ensures Ordered(edits, |s|) && previous == LastEnd(edits) <= m.end && out == Built(s, edits)
    ensures done <= edits && forall k :: |done| <= k < |edits| ==> Masks(s, m, prefix, edits[k])
    ensures Covered(s, m, prefix, edits, m.end)
  {
    hide Built, Digits, Longest, Ordered, Qualifies;
    out, previous, edits := built, from, done;
    var start := m.start;
    CoveredStart(s, m, prefix, edits);
    while start < m.end
      invariant m.start <= start <= m.end
      invariant Ordered(edits, |s|) && previous == LastEnd(edits) <= start && out == Built(s, edits)
      invariant done <= edits && forall k :: |done| <= k < |edits| ==> Masks(s, m, prefix, edits[k])
      invariant Covered(s, m, prefix, edits, start)
    {
      if !IsDigit(s[start]) || (start > m.start && IsDigit(s[start - 1])) {
        NoCardHere(s, m, prefix, start);
        CoveredStep(s, m, prefix, edits, start);
        start := start + 1;
        continue;
      }
      var best := LongestCard(s, m, prefix, start);
      if best > start {
        ghost var e := Edit(start, best, MASK);
        LongestFits(s, m, prefix, start, best);
        Extend(s, edits, e);
        CoveredMore(s, m, prefix, edits, e);
        out := out + s[previous..start] + MASK;
        previous := best;
        edits := edits + [e];
        start := best - 1;
      } else {
        CoveredStep(s, m, prefix, edits, start);
      }
      start := start + 1;
    }
  }

  lemma CoveredStart(s: string, m: Match, prefix: Prefix, edits: seq<Edit>)
    requires m.end <= |s|
    ensures Covered(s, m, prefix, edits, m.start)
  {}

  lemma NoCardHere(s: string, m: Match, prefix: Prefix, start: nat)
    requires m.start <= start < m.end <= |s|
    requires !IsDigit(s[start]) || (start > m.start && IsDigit(s[start - 1]))
    ensures forall b: nat :: !Qualifies(s, m, prefix, start, b)
  {}

  lemma LongestFits(s: string, m: Match, prefix: Prefix, start: nat, best: nat)
    requires m.end <= |s| && Longest(s, m, prefix, start, best)
    ensures start < best <= m.end && Qualifies(s, m, prefix, start, best)
  {}

  /** `redactFormattedCards`. */
  method RedactFormattedCards(s: string, ms: seq<Match>, prefix: Prefix) returns (out: string)
    requires IsSearchResult(s, ms)
    ensures Redacted(s, ms, prefix, out)
  {
    hide Built, Masks, Covered, Ordered;
    out := "";
    var previous := 0;
    ghost var edits: seq<Edit> := [];
    NoEdits(s);
    for n := 0 to |ms|
      invariant Ordered(edits, |s|) && previous == LastEnd(edits) <= |s| && out == Built(s, edits)
      invariant forall k :: 0 <= k < |edits| ==> exists j :: 0 <= j < n && Masks(s, ms[j], prefix, edits[k])
      invariant forall j :: 0 <= j < n ==> Covered(s, ms[j], prefix, edits, ms[j].end)
      invariant forall j :: n <= j < |ms| ==> previous <= ms[j].start
    {
      ghost var before := edits;
      out, previous, edits := MaskSequence(s, ms[n], prefix, out, previous, edits);
      forall j | 0 <= j < n ensures Covered(s, ms[j], prefix, edits, ms[j].end) {
        CoveredByMore(s, ms[j], prefix, before, edits);
      }
    }
    out := out + s[previous..];
    assert MasksAll(s, ms, prefix, edits) && out == Rewrite(s, edits);
  }

  lemma NoEdits(s: string)
    ensures Ordered([], |s|) && Built(s, []) == ""
  {}

  // ---------- which spans are card numbers ----------

  /** `at` lists the positions of the digits of `s[a..b]`, in order. */
  ghost predicate AreDigits(s: string, a: nat, b: nat, at: seq<nat>)
    requires b <= |s|
  {
    && (forall i :: 0 <= i < |at| ==> a <= at[i] < b && '0' <= s[at[i]] <= '9')
    && (forall i, j :: 0 <= i < j < |at| ==> at[i] < at[j])
    && (forall k: nat :: a <= k < b && '0' <= s[k] <= '9' ==> k in at)
  }

  /** The digits of a span are the characters at these positions. */
  ghost predicate Spells(s: string, d: string, at: seq<nat>) {
    |at| == |d| && forall i :: 0 <= i < |at| ==> at[i] < |s| && d[i] == s[at[i]]
  }

  lemma {:induction false} DigitsAre(s: string, a: nat, b: nat) returns (at: seq<nat>)
    requires a <= b <= |s|
    ensures AreDigits(s, a, b, at) && Spells(s, Digits(s, a, b), at)
    decreases b
  {
    hide Digits, AreDigits, Spells;
    if a == b {
      at := [];
      NoDigits(s, a);
    } else {
      at := DigitsAre(s, a, b - 1);
      MoreDigits(s, a, b - 1, at);
      SpellsMore(s, Digits(s, a, b - 1), at, b - 1);
      DigitsNext(s, a, b - 1);
      if IsDigit(s[b - 1]) {
        at := at + [b - 1];
      } else {
        assert Digits(s, a, b) == Digits(s, a, b - 1);
      }
    }
  }

  lemma NoDigits(s: string, a: nat)
    requires a <= |s|
    ensures AreDigits(s, a, a, []) && Spells(s, Digits(s, a, a), [])
  {}

  lemma MoreDigits(s: string, a: nat, b: nat, at: seq<nat>)
    requires a <= b < |s| && AreDigits(s, a, b, at)
    ensures AreDigits(s, a, b + 1, if IsDigit(s[b]) then at + [b] else at)
  {
    if IsDigit(s[b]) { assert (at + [b])[|at|] == b; }
  }

  lemma SpellsMore(s: string, d: string, at: seq<nat>, b: nat)
    requires b < |s| && Spells(s, d, at)
    ensures Spells(s, d + [s[b]], at + [b])
  {}

  /** A card number runs from a digit to a digit and is not part of a run of digits, has 13 to 19 digits that pass the
      Luhn check, touches no letter, digit or underscore, and is not a correlation number of 16 or 32 plain digits. */
  ghost predicate IsCard(s: string, m: Match, prefix: Prefix, a: nat, b: nat)
    requires m.end <= |s|
  {
    && m.start <= a < b <= m.end && '0' <= s[a] <= '9' && '0' <= s[b - 1] <= '9'
    && (m.start < a ==> !('0' <= s[a - 1] <= '9')) && (b < m.end ==> !('0' <= s[b] <= '9'))
    && (0 < a ==> !(IsLetter(s[a - 1]) || '0' <= s[a - 1] <= '9' || s[a - 1] == '_'))
    && (b < |s| ==> !(IsLetter(s[b]) || '0' <= s[b] <= '9' || s[b] == '_'))
    && !(b - a in {16, 32} && (forall k: nat :: a <= k < b ==> '0' <= s[k] <= '9') && prefix(a))
    && 13 <= |Digits(s, a, b)| <= 19 && IsLuhn(Digits(s, a, b))
  }

  /** What is masked, and all that is masked, are card numbers: the test of the loop is this one. */
  lemma QualifiesExactly(s: string, m: Match, prefix: Prefix, a: nat, b: nat)
    requires m.end <= |s|
    ensures Qualifies(s, m, prefix, a, b) <==> IsCard(s, m, prefix, a, b)
  {
    hide Digits, IsLuhn;
  }

  // ---------- the promise determines the result ----------

  lemma SameMask(s: string, ms: seq<Match>, prefix: Prefix, e: Edit, f: Edit, i: nat, j: nat)
    requires IsSearchResult(s, ms) && i < |ms| && j < |ms|
    requires Masks(s, ms[i], prefix, e) && Masks(s, ms[j], prefix, f) && e.start == f.start
    ensures e == f
  {
    hide Digits, IsLuhn, Bounded, Correlated;
    assert i == j;
  }

  lemma PrefixElement(es: seq<Edit>, fs: seq<Edit>, k: nat, n: nat)
    requires n < k <= |es| && k <= |fs| && es[..k] == fs[..k]
    ensures es[n] == fs[n]
  {
    assert es[..k][n] == fs[..k][n];
  }

  /** The `k`-th edit of `fs` does not start before that of `es`, when the earlier ones agree. */
  lemma NotLater(s: string, ms: seq<Match>, prefix: Prefix, es: seq<Edit>, fs: seq<Edit>, k: nat)
    requires IsSearchResult(s, ms) && MasksAll(s, ms, prefix, es) && MasksAll(s, ms, prefix, fs)
    requires k < |es| && k <= |fs| && es[..k] == fs[..k]
    ensures k < |fs| && fs[k].start <= es[k].start
  {
    hide Qualifies, Longest;
    var a := es[k].start;
    var j :| 0 <= j < |ms| && Masks(s, ms[j], prefix, es[k]);
    LongestFits(s, ms[j], prefix, a, es[k].end);
    assert Covered(s, ms[j], prefix, fs, ms[j].end);
    var n :| 0 <= n < |fs| && fs[n].start <= a < fs[n].end;
    if n < k {
      PrefixElement(es, fs, k, n);
      assert false;
    }
  }

  /** Two lists of edits that keep the promise are equal: greedy masking is its only solution. */
  lemma {:induction false} MaskingUnique(s: string, ms: seq<Match>, prefix: Prefix, es: seq<Edit>, fs: seq<Edit>,
          k: nat)
    requires IsSearchResult(s, ms) && MasksAll(s, ms, prefix, es) && MasksAll(s, ms, prefix, fs)
    requires k <= |es| && k <= |fs| && es[..k] == fs[..k]
    ensures es == fs
    decreases |es| - k
  {
    hide Masks, Covered, Ordered;
    if k < |es| {
      NotLater(s, ms, prefix, es, fs, k);
      NotLater(s, ms, prefix, fs, es, k);
      var i :| 0 <= i < |ms| && Masks(s, ms[i], prefix, es[k]);
      var j :| 0 <= j < |ms| && Masks(s, ms[j], prefix, fs[k]);
      SameMask(s, ms, prefix, es[k], fs[k], i, j);
      assert es[..k + 1] == es[..k] + [es[k]] && fs[..k + 1] == fs[..k] + [fs[k]];
      MaskingUnique(s, ms, prefix, es, fs, k + 1);
    } else if k < |fs| {
      NotLater(s, ms, prefix, fs, es, k);
    } else {
      assert es == es[..k] && fs == fs[..k];
    }
  }

  /** So the promise has one result for each text. */
  lemma RedactionUnique(s: string, ms: seq<Match>, prefix: Prefix, out: string, out': string)
    requires IsSearchResult(s, ms) && Redacted(s, ms, prefix, out) && Redacted(s, ms, prefix, out')
    ensures out == out'
  {
    hide Covered, Masks, Rewrite, Built;
    var es :| MasksAll(s, ms, prefix, es) && out == Rewrite(s, es);
    var fs :| MasksAll(s, ms, prefix, fs) && out' == Rewrite(s, fs);
    MaskingUnique(s, ms, prefix, es, fs, 0);
  }
}
