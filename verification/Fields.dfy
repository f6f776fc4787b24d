/** The `key=value` fields of `text.go`: where a field stands, and where a sensitive value ends. */
module Fields {
  import opened Bytes
  import opened Compound

  predicate IsBlank(c: char) { c == '\t' || c == ' ' }

  predicate IsWhite(c: char) { c == ' ' || c == '\t' || c == '\r' || c == '\n' }

  predicate IsKeyChar(c: char) { IsIdentContinue(c) || c == '.' || c == '-' }

  predicate IsAssign(c: char) { c == ':' || c == '=' }

  // ---------- the key-value pattern ----------

  datatype Field = Field(keyEnd: nat, valueStart: nat)

  /** End of the separator at `e`: an optional quote, blanks, one of `:` and `=`, blanks. */
  function SeparatorEnd(s: string, e: nat): (r: Option<nat>)
    requires e <= |s|
    ensures r.Some? ==> e < r.value <= |s|
  {
    var q := if e < |s| && IsQuote(s[e]) then e + 1 else e;
    var w := RunEnd(s, q, IsBlank);
    if w < |s| && IsAssign(s[w]) then Some(RunEnd(s, w + 1, IsBlank)) else None
  }

  /** The match of the pattern that starts at `p`: a key of at most 96 characters and its separator. */
  function FieldAt(s: string, p: nat): (r: Option<Field>)
    requires p <= |s|
    ensures r.Some? ==> p < r.value.keyEnd < r.value.valueStart <= |s|
  {
    if p < |s| && IsIdentStart(s[p]) then
      var e := RunEnd(s, p, IsKeyChar);
      if e - p > 96 then None
      else match SeparatorEnd(s, e)
        case None => None
        case Some(v) => Some(Field(e, v))
    else None
  }

  /** The leftmost match at or after `from`, or the end of the text. */
  method FindField(s: string, from: nat) returns (p: nat)
    requires from <= |s|
    ensures from <= p <= |s| && (p < |s| ==> FieldAt(s, p).Some?)
    ensures forall k :: from <= k < p ==> FieldAt(s, k).None?
  {
    p := from;
    while p < |s| && FieldAt(s, p).None?
      invariant from <= p <= |s| && forall k :: from <= k < p ==> FieldAt(s, k).None?
    {
      p := p + 1;
    }
  }

  lemma SeparatorHasNoKey(s: string, e: nat, k: nat)
    requires e <= |s| && SeparatorEnd(s, e).Some? && e <= k < SeparatorEnd(s, e).value
    ensures !IsIdentStart(s[k])
  {}

  /** A field that starts inside the key of another has that field's separator; none starts inside a separator. */
  lemma SameRun(s: string, p: nat, q: nat)
    requires p <= |s| && FieldAt(s, p).Some? && p <= q < FieldAt(s, p).value.valueStart
    requires FieldAt(s, q).Some?
    ensures FieldAt(s, q).value.valueStart == FieldAt(s, p).value.valueStart
  {
    var f := FieldAt(s, p).value;
    if q < f.keyEnd {
      RunEndIs(s, q, IsKeyChar, f.keyEnd);
    } else {
      SeparatorHasNoKey(s, f.keyEnd, q);
    }
  }

  // ---------- where a value ends ----------

  /** What is decided by a key's name. */
  datatype Keys = Keys(sensitive: string -> bool, opaqueHeader: string -> bool)

  /** Position after the quoted value whose content continues at `i`. */
  function QuotedEnd(s: string, i: nat, quote: char): (r: Option<nat>)
    requires i <= |s|
    ensures r.Some? ==> i < r.value <= |s|
    decreases |s| - i
  {
    if i == |s| then None
    else if s[i] == '\\' then (if i + 1 == |s| then None else QuotedEnd(s, i + 2, quote))
    else if s[i] == quote then Some(i + 1)
    else QuotedEnd(s, i + 1, quote)
  }

  /** `quotedSensitiveEnd`. */
  method QuotedSensitiveEnd(s: string, start: nat) returns (end: nat, ok: bool)
    requires start < |s| && IsQuote(s[start])
    ensures QuotedEnd(s, start + 1, s[start]) == if ok then Some(end) else None
    ensures !ok ==> end == |s|
  {
    var quote := s[start];
    var i := start + 1;
    while i < |s|
      invariant start < i <= |s| && QuotedEnd(s, start + 1, quote) == QuotedEnd(s, i, quote)
    {
      if s[i] == '\\' {
        if i + 1 >= |s| { return |s|, false; }
        i := i + 2;
        continue;
      }
      if s[i] == quote { return i + 1, true; }
      i := i + 1;
    }
    return |s|, false;
  }

  /** The whitespace run at `k` is followed by a field. */
  predicate IsClear(s: string, k: nat)
    requires k <= |s|
  {
    k < |s| && IsWhite(s[k]) && FieldAt(s, RunEnd(s, k, IsWhite)).Some?
  }

  /** `nextClearField`: the first whitespace from `start` whose run a field follows, or the end of the text. */
  method NextClearField(s: string, start: nat) returns (r: nat)
    requires start <= |s|
    ensures start <= r <= |s| && (r < |s| ==> IsClear(s, r))
    ensures forall k :: start <= k < r ==> !IsClear(s, k)
  {
    var end := start;
    while end < |s|
      invariant start <= end <= |s|
      invariant forall k :: start <= k < end ==> !IsClear(s, k)
    {
      if IsWhite(s[end]) {
        var next := end;
        while next < |s| && IsWhite(s[next])
          invariant end <= next <= |s| && forall k :: end <= k < next ==> IsWhite(s[k])
        {
          next := next + 1;
        }
        forall k | end <= k < next ensures RunEnd(s, k, IsWhite) == next {
          RunEndIs(s, k, IsWhite, next);
        }
        if FieldAt(s, next).Some? { return end; }
        end := next - 1;
      }
      end := end + 1;
    }
    return |s|;
  }

  const ENCODED_MASK := "%5bredacted"

  /** An encoded placeholder left by the URL pass starts at `start`. */
  predicate StartsEncodedMask(s: string, start: nat) {
    start + |ENCODED_MASK| <= |s| && Lower(s[start..start + |ENCODED_MASK|]) == ENCODED_MASK
  }

  predicate EncodedBracket(s: string, k: nat) { k + 3 <= |s| && Lower(s[k..k + 3]) == "%5d" }

  /** Position after the first encoded closing bracket from `start` on. */
  method EncodedEnd(s: string, start: nat) returns (end: nat, ok: bool)
    requires start <= |s|
    ensures ok ==> start + 3 <= end <= |s| && EncodedBracket(s, end - 3)
    ensures ok ==> forall k :: start <= k < end - 3 ==> !EncodedBracket(s, k)
    ensures !ok ==> forall k :: start <= k ==> !EncodedBracket(s, k)
  {
    var k := start;
    while k + 3 <= |s|
      invariant start <= k && forall j :: start <= j < k ==> !EncodedBracket(s, j)
    {
      if EncodedBracket(s, k) { return k + 3, true; }
      k := k + 1;
    }
    return 0, false;
  }

  /** `e` ends the quoted, bracketed or encoded value at `start`. */
  ghost predicate Completes(s: string, start: nat, e: nat)
    requires start < |s|
  {
    if IsQuote(s[start]) then QuotedEnd(s, start + 1, s[start]) == Some(e)
    else if IsOpen(s[start]) then IsTerm(s, start, e)
    else StartsEncodedMask(s, start) && start + 3 <= e && EncodedBracket(s, e - 3)
         && forall k :: start <= k < e - 3 ==> !EncodedBracket(s, k)
  }

  /** A complete value may end at `e` only where nothing is attached to it. */
  predicate Detached(s: string, e: nat, quotedKey: bool)
    requires e <= |s|
  {
    e == |s| || IsWhite(s[e]) || (quotedKey && (s[e] == ',' || s[e] == '}' || s[e] == ']'))
  }

  /** `r` is the next clear field from `e` on. */
  ghost predicate NextClear(s: string, e: nat, r: nat) {
    e <= r <= |s| && (r < |s| ==> IsClear(s, r)) && forall k :: e <= k < r ==> !IsClear(s, k)
  }

  predicate RawHeader(s: string, start: nat, key: string, quotedKey: bool, keys: Keys)
    requires start < |s|
  {
    !quotedKey && keys.opaqueHeader(key) && !IsQuote(s[start])
  }

  /** Where a sensitive value ends, and the quote that is written around its mask (`'\0'` for none):
      a raw header and a broken quote or bracket go to the end of the text; a complete value stands alone
      or is consumed, with what is attached to it, up to the next clear field. */
  ghost predicate ValueEnds(s: string, start: nat, key: string, quotedKey: bool, keys: Keys, end: nat, quote: char)
    requires start < |s|
  {
    if RawHeader(s, start, key, quotedKey, keys) then end == |s| && quote == '\0'
    else if (IsQuote(s[start]) || IsOpen(s[start])) && (forall e: nat :: !Completes(s, start, e)) then
      end == |s| && quote == '\0'
    else
      && quote == (if IsQuote(s[start]) then s[start] else '\0')
      && (forall e: nat :: Completes(s, start, e) && e <= |s| ==>
            if Detached(s, e, quotedKey) then end == e else NextClear(s, e, end))
      && ((forall e: nat :: !Completes(s, start, e)) ==> NextClear(s, start, end))
  }

  lemma CompletesUnique(s: string, start: nat, e: nat, e': nat)
    requires start < |s| && Completes(s, start, e) && Completes(s, start, e')
    ensures e == e'
  {
    hide QuotedEnd, StartsEncodedMask, EncodedBracket;
    if IsOpen(s[start]) && !IsQuote(s[start]) { TermExact(s, start); }
  }

  /** `sensitiveValueEnd`. */
  method SensitiveValueEnd(s: string, start: nat, key: string, quotedKey: bool, keys: Keys)
      returns (end: nat, quote: char)
    requires start < |s|
    ensures ValueEnds(s, start, key, quotedKey, keys, end, quote)
  {
    hide IsTerm, QuotedEnd, StartsEncodedMask, EncodedBracket, IsClear;
    if !quotedKey && keys.opaqueHeader(key) && s[start] != '"' && s[start] != '\'' {
      return |s|, '\0';
    }
    end, quote := start, '\0';
    var completed := false;
    if s[start] == '"' || s[start] == '\'' {
      quote := s[start];
      end, completed := QuotedSensitiveEnd(s, start);
      if !completed { return |s|, '\0'; }
    } else if s[start] == '{' || s[start] == '[' {
      end, completed := CompoundSensitiveEnd(s, start);
      if !completed { return |s|, '\0'; }
    } else if StartsEncodedMask(s, start) {
      end, completed := EncodedEnd(s, start);
      if !completed { end := start; }
    }
    if completed {
      assert Completes(s, start, end);
      forall e: nat | Completes(s, start, e) ensures e == end { CompletesUnique(s, start, e, end); }
      if end == |s| || IsWhite(s[end]) { return; }
      if quotedKey && (s[end] == ',' || s[end] == '}' || s[end] == ']') { return; }
    } else {
      assert forall e: nat :: !Completes(s, start, e);
    }
    end := NextClearField(s, end);
  }

  lemma CompletesBounds(s: string, start: nat, e: nat)
    requires start < |s| && Completes(s, start, e)
    ensures start < e <= |s|
  {
    if IsOpen(s[start]) && !IsQuote(s[start]) { TermExact(s, start); }
  }

  /** A masked value never leaves a suffix behind: it ends where the text ends, at whitespace, or, under a
      quoted key, at a comma or closing bracket. */
  lemma NoSuffixSurvives(s: string, start: nat, key: string, quotedKey: bool, keys: Keys, end: nat, quote: char)
    requires start < |s| && ValueEnds(s, start, key, quotedKey, keys, end, quote)
    ensures start <= end <= |s| && Detached(s, end, quotedKey)
  {
    hide QuotedEnd, EncodedBracket, IsTerm;
    if e: nat :| Completes(s, start, e) {
      CompletesBounds(s, start, e);
    }
  }

  lemma NextClearUnique(s: string, e: nat, r: nat, r': nat)
    requires NextClear(s, e, r) && NextClear(s, e, r')
    ensures r == r'
  {
    hide IsClear;
  }

  /** A value has one end and one mask. */
  lemma ValueEndsUnique(s: string, start: nat, key: string, quotedKey: bool, keys: Keys,
                        end: nat, quote: char, end': nat, quote': char)
    requires start < |s|
    requires ValueEnds(s, start, key, quotedKey, keys, end, quote)
    requires ValueEnds(s, start, key, quotedKey, keys, end', quote')
    ensures end == end' && quote == quote'
  {
    hide Completes, NextClear, Detached;
    if e: nat :| Completes(s, start, e) {
      CompletesBounds(s, start, e);
      if !Detached(s, e, quotedKey) && NextClear(s, e, end) && NextClear(s, e, end') {
        NextClearUnique(s, e, end, end');
      }
    } else if NextClear(s, start, end) && NextClear(s, start, end') {
      NextClearUnique(s, start, end, end');
    }
  }
}
