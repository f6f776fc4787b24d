/** What every kind of input becomes, read off the input: texts, texts under SQL keys, other scalars, and containers
    entry by entry. */
module SanitizingClasses {
  import opened Bytes
  import opened FreshKeys
  import opened JsonDepth
  import opened Sanitizing
  import opened SanitizingKeys
  import opened SanitizingOutputs

  // ---------- texts ----------

  /** The text that is looked at: the input if it looks like JSON, and otherwise what its layers decode to. */
  function Decoded(e: Env, s: string): Option<string> { if e.looksLikeJson(s) then Some(s) else e.decodeLayers(s) }

  /** No mark, not too long, and UTF-8. */
  predicate Readable(c: Config, s: string) { s !in MARKS && |s| <= c.maxStringBytes && ValidUtf8(s) }

  /** `out` and `rest` are what becomes of the text `s` and of the budget. */
  ghost predicate TextBecomes(e: Env, c: Config, s: string, depth: nat, left: int, out: string, rest: int) {
    && (s in MARKS ==> out == s && rest == left)
    && (s !in MARKS && |s| > c.maxStringBytes ==> out == "[REDACTED:limit]" && rest == left)
    && (s !in MARKS && |s| <= c.maxStringBytes && !ValidUtf8(s) ==> out == "[REDACTED:encoding]" && rest == left)
    && (Readable(c, s) ==> DecodedBecomes(e, c, Decoded(e, s), depth, left, out, rest))
  }

  ghost predicate DecodedBecomes(e: Env, c: Config, t: Option<string>, depth: nat, left: int, out: string, rest: int) {
    && (t.None? || !ValidUtf8(t.value) ==> out == "[REDACTED:encoding]" && rest == left)
    && (t.Some? && ValidUtf8(t.value) && |t.value| > c.maxStringBytes ==> out == "[REDACTED:limit]" && rest == left)
    && (t.Some? && ValidUtf8(t.value) && |t.value| <= c.maxStringBytes && t.value in MARKS ==>
          out == t.value && rest == left)
    && (t.Some? && Readable(c, t.value) && !e.looksLikeJson(t.value) ==> out == e.redactText(t.value) && rest == left)
    && (t.Some? && Readable(c, t.value) && e.looksLikeJson(t.value) ==>
          JsonBecomes(e, c, t.value, depth, left, out, rest))
  }

  /** JSON is cleaned as a value, one level deeper, and written again when that is possible and short enough. */
  ghost predicate JsonBecomes(e: Env, c: Config, t: string, depth: nat, left: int, out: string, rest: int) {
    if !DepthAllowed(t, depth, c.maxDepth) then out == "[REDACTED:limit]" && rest == left
    else if e.parse(t).None? then out == "[REDACTED:json]" && rest == left
    else
      var clean := NativeAt(e, c, Every, e.parse(t).value, depth + 1, "", left);
      && rest == clean.1
      && (e.marshal(clean.0).Some? && |e.marshal(clean.0).value| <= c.maxStringBytes ==>
            out == e.marshal(clean.0).value)
      && (e.marshal(clean.0).None? || |e.marshal(clean.0).value| > c.maxStringBytes ==> out == "[REDACTED:limit]")
  }

  lemma TextClasses(e: Env, c: Config, s: string, depth: nat, left: int)
    requires depth <= c.maxDepth
    ensures var r := TextAt(e, c, Every, s, depth, left); TextBecomes(e, c, s, depth, left, r.0, r.1)
  {
    hide DepthAllowed, ValidUtf8, NativeAt, IsMarker, MARKS;
    MarkersAreMarks(s);
    if Decoded(e, s).Some? { MarkersAreMarks(Decoded(e, s).value); }
  }

  /** What becomes of a text under an SQL key: the redacted shape of the query it decodes to, or a mark. */
  ghost predicate SqlBecomes(e: Env, c: Config, s: string, out: string) {
    && (s in MARKS ==> out == s)
    && (s !in MARKS && (|s| > c.maxStringBytes || !ValidUtf8(s)) ==> out == "[REDACTED:limit]")
    && (Readable(c, s) && e.decodeLayers(s).None? ==> out == "[REDACTED:encoding]")
    && (Readable(c, s) && e.decodeLayers(s).Some? ==>
          var shape := SqlShape.Sanitize(e.decodeLayers(s).value);
          if shape.None? then out == "[REDACTED:sql]" else out == e.redactText(shape.value))
  }

  lemma SqlClasses(e: Env, c: Config, s: string)
    ensures SqlBecomes(e, c, s, Sql(e, c, s))
  {
    hide ValidUtf8, IsMarker, MARKS, SqlShape.Sanitize;
    MarkersAreMarks(s);
  }

  // ---------- containers, entry by entry ----------

  /** The key under which an entry is stored, with the index before and after it, given the keys in use: a clean key as
      it is, an unclean one by the index, and the next unused replacement key where that one is taken. */
  ghost predicate StoredAs(e: Env, c: Config, key: string, used: set<string>, index: nat, out: string, next: nat,
                           skip: nat)
  {
    var wanted := if IsClean(e, c, key) then key else Name(index);
    if wanted !in used then out == wanted && next == index + 1
    else exists m: nat :: m > index && Name(m) !in used && (forall i: nat :: index < i < m ==> Name(i) in used)
                          && out == Name(m) && next == m + skip
  }

  /** The entry's value is masked with its key. */
  predicate MaskedWithKey(e: Env, c: Config, key: string, index: nat) { !IsClean(e, c, key) && key != Name(index) }

  /** Entry `j` of a map and of its output, with index and budget before and after it. */
  ghost predicate MapStep(e: Env, c: Config, v: Value, out: seq<Entry<Value>>, j: nat, depth: nat,
                          index: nat, next: nat, left: int, rest: int)
    requires v.VMap? && j < |v.entries| && j < |out|
  {
    var key := v.entries[j].key;
    && StoredAs(e, c, key, Keys(out[..j]), index, out[j].key, next, 0)
    && if MaskedWithKey(e, c, key, index) then out[j].value == VStr("[REDACTED]") && rest == left
       else (out[j].value, rest) == ValueAt(e, c, v.entries[j].value, depth + 1, key, left)
  }

  /** The turn of entry `j`, when index and budget are listed from entry `from` on. */
  ghost predicate MapTurn(e: Env, c: Config, v: Value, out: seq<Entry<Value>>, depth: nat, indices: seq<nat>,
                          budgets: seq<int>, from: nat, j: nat)
    requires v.VMap? && from <= j < |out| == |v.entries| && |indices| == |budgets| == |out| - from + 1
  {
    MapStep(e, c, v, out, j, depth, indices[j - from], indices[j - from + 1], budgets[j - from], budgets[j - from + 1])
  }

  ghost predicate NativeStep(e: Env, c: Config, v: Native, out: seq<Entry<Native>>, j: nat, depth: nat,
                             index: nat, next: nat, left: int, rest: int)
    requires v.NObject? && j < |v.entries| && j < |out|
  {
    var key := v.entries[j].key;
    && StoredAs(e, c, key, Keys(out[..j]), index, out[j].key, next, 1)
    && if MaskedWithKey(e, c, key, index) then out[j].value == NString("[REDACTED]") && rest == left
       else (out[j].value, rest) == NativeAt(e, c, Every, v.entries[j].value, depth + 1, key, left)
  }

  /** The turn of entry `j`, when index and budget are listed from entry `from` on. */
  ghost predicate NativeTurn(e: Env, c: Config, v: Native, out: seq<Entry<Native>>, depth: nat, indices: seq<nat>,
                             budgets: seq<int>, from: nat, j: nat)
    requires v.NObject? && from <= j < |out| == |v.entries| && |indices| == |budgets| == |out| - from + 1
  {
    NativeStep(e, c, v, out, j, depth, indices[j - from], indices[j - from + 1], budgets[j - from],
               budgets[j - from + 1])
  }

  /** The output of a map: every entry in its turn, from index 0 on. */
  ghost predicate MapBecomes(e: Env, c: Config, v: Value, depth: nat, left: int, out: seq<Entry<Value>>, rest: int)
    requires v.VMap?
  {
    && |out| == |v.entries|
    && exists indices: seq<nat>, budgets: seq<int> ::
         && |indices| == |budgets| == |out| + 1 && indices[0] == 0 && budgets[0] == left && budgets[|out|] == rest
         && forall j: nat :: j < |out| ==>
              MapTurn(e, c, v, out, depth, indices, budgets, 0, j)
  }

  ghost predicate ObjectBecomes(e: Env, c: Config, v: Native, depth: nat, left: int, out: seq<Entry<Native>>, rest: int)
    requires v.NObject?
  {
    && |out| == |v.entries|
    && exists indices: seq<nat>, budgets: seq<int> ::
         && |indices| == |budgets| == |out| + 1 && indices[0] == 0 && budgets[0] == left && budgets[|out|] == rest
         && forall j: nat :: j < |out| ==>
              NativeTurn(e, c, v, out, depth, indices, budgets, 0, j)
  }

  ghost predicate SliceTurn(e: Env, c: Config, v: Value, out: seq<Value>, depth: nat, budgets: seq<int>, from: nat,
                            j: nat)
    requires v.VSlice? && from <= j < |out| == |v.items| && |budgets| == |out| - from + 1
  {
    (out[j], budgets[j - from + 1]) == ValueAt(e, c, v.items[j], depth + 1, "", budgets[j - from])
  }

  ghost predicate SliceBecomes(e: Env, c: Config, v: Value, depth: nat, left: int, out: seq<Value>, rest: int)
    requires v.VSlice?
  {
    && |out| == |v.items|
    && exists budgets: seq<int> ::
         && |budgets| == |out| + 1 && budgets[0] == left && budgets[|out|] == rest
         && forall j: nat :: j < |out| ==> SliceTurn(e, c, v, out, depth, budgets, 0, j)
  }

  ghost predicate ArrayTurn(e: Env, c: Config, v: Native, out: seq<Native>, depth: nat, budgets: seq<int>, from: nat,
                            j: nat)
    requires v.NArray? && from <= j < |out| == |v.items| && |budgets| == |out| - from + 1
  {
    (out[j], budgets[j - from + 1]) == NativeAt(e, c, Every, v.items[j], depth + 1, "", budgets[j - from])
  }

  ghost predicate ArrayBecomes(e: Env, c: Config, v: Native, depth: nat, left: int, out: seq<Native>, rest: int)
    requires v.NArray?
  {
    && |out| == |v.items|
    && exists budgets: seq<int> ::
         && |budgets| == |out| + 1 && budgets[0] == left && budgets[|out|] == rest
         && forall j: nat :: j < |out| ==> ArrayTurn(e, c, v, out, depth, budgets, 0, j)
  }

  lemma KeyStored(e: Env, c: Config, key: string, index: nat, used: set<string>)
    ensures var k := MapKey(e, c, key, index, used); StoredAs(e, c, key, used, index, k.0, k.1, 0)
    ensures var k := NativeKey(e, c, key, index, used); StoredAs(e, c, key, used, index, k.0, k.1, 1)
    ensures CleanKey(e, c, key, index) != key <==> MaskedWithKey(e, c, key, index)
  {
    hide Name;
    RedactedExactly(e, c, key, index);
    FreshIsNext(used, index);
    hide Fresh;
  }

  lemma FreshIsNext(used: set<string>, index: nat)
    ensures var m := Fresh(used, index + 1);
            m > index && Name(m) !in used && forall i: nat :: index < i < m ==> Name(i) in used
  {}

  /** The entries from `i` on, with what the keys and the budget are before and after each. */
  lemma {:induction false} MapTrace(e: Env, c: Config, v: Value, i: nat, index: nat, depth: nat,
                                    done: seq<Entry<Value>>, left: int) returns (indices: seq<nat>, budgets: seq<int>)
    requires v.VMap? && i <= |v.entries| && |done| == i
    ensures var r := MapInto(e, c, v, i, index, depth, done, left);
            && |r.0| == |v.entries| && done <= r.0 && |indices| == |budgets| == |r.0| - i + 1
            && indices[0] == index && budgets[0] == left && budgets[|r.0| - i] == r.1
            && forall j: nat :: i <= j < |r.0| ==>
                 MapTurn(e, c, v, r.0, depth, indices, budgets, i, j)
    decreases |v.entries| - i
  {
    hide ValueAt, CleanKey, MapKey, MapStep;
    if i == |v.entries| {
      indices, budgets := [index], [left];
    } else {
      var key := v.entries[i].key;
      var k := MapKey(e, c, key, index, Keys(done));
      var r := if CleanKey(e, c, key, index) != key then (VStr(MASK), left)
               else ValueAt(e, c, v.entries[i].value, depth + 1, key, left);
      var more := done + [Entry(k.0, r.0)];
      var laterIndices, laterBudgets := MapTrace(e, c, v, i + 1, k.1, depth, more, r.1);
      indices, budgets := [index] + laterIndices, [left] + laterBudgets;
      var out := MapInto(e, c, v, i, index, depth, done, left).0;
      MapStepIs(e, c, v, out, i, depth, index, left, done);
      forall j: nat | i + 1 <= j < |out|
        ensures MapTurn(e, c, v, out, depth, indices, budgets, i, j)
      {
        assert MapTurn(e, c, v, out, depth, laterIndices, laterBudgets, i + 1, j);
      }
    }
  }

  lemma MapStepIs(e: Env, c: Config, v: Value, out: seq<Entry<Value>>, i: nat, depth: nat, index: nat, left: int,
                  done: seq<Entry<Value>>)
    requires v.VMap? && i < |v.entries| && i < |out| && |done| == i && done <= out
    requires var key := v.entries[i].key;
             var r := if CleanKey(e, c, key, index) != key then (VStr(MASK), left)
                      else ValueAt(e, c, v.entries[i].value, depth + 1, key, left);
             out[i] == Entry(MapKey(e, c, key, index, Keys(done)).0, r.0)
    ensures var key := v.entries[i].key;
            var r := if CleanKey(e, c, key, index) != key then (VStr(MASK), left)
                     else ValueAt(e, c, v.entries[i].value, depth + 1, key, left);
            MapStep(e, c, v, out, i, depth, index, MapKey(e, c, key, index, Keys(done)).1, left, r.1)
  {
    hide ValueAt, CleanKey, MapKey, StoredAs, MaskedWithKey;
    assert out[..i] == done;
    KeyStored(e, c, v.entries[i].key, index, Keys(done));
  }

  lemma MapBecomesSo(e: Env, c: Config, v: Value, depth: nat, left: int)
    requires v.VMap?
    ensures var r := MapInto(e, c, v, 0, 0, depth, [], left); MapBecomes(e, c, v, depth, left, r.0, r.1)
  {
    hide MapInto, MapTurn;
    var indices, budgets := MapTrace(e, c, v, 0, 0, depth, [], left);
  }

  lemma {:induction false} NativeTrace(e: Env, c: Config, v: Native, i: nat, index: nat, depth: nat,
                                       done: seq<Entry<Native>>, left: int)
    returns (indices: seq<nat>, budgets: seq<int>)
    requires v.NObject? && i <= |v.entries| && |done| == i
    ensures var r := NativeEntries(e, c, Every, v, i, index, depth, done, left);
            && |r.0| == |v.entries| && done <= r.0 && |indices| == |budgets| == |r.0| - i + 1
            && indices[0] == index && budgets[0] == left && budgets[|r.0| - i] == r.1
            && forall j: nat :: i <= j < |r.0| ==>
                 NativeTurn(e, c, v, r.0, depth, indices, budgets, i, j)
    decreases |v.entries| - i
  {
    hide NativeAt, CleanKey, NativeKey, NativeStep;
    if i == |v.entries| {
      indices, budgets := [index], [left];
    } else {
      var key := v.entries[i].key;
      var k := NativeKey(e, c, key, index, Keys(done));
      var r := if CleanKey(e, c, key, index) != key then (NString(MASK), left)
               else NativeAt(e, c, Every, v.entries[i].value, depth + 1, key, left);
      var more := done + [Entry(k.0, r.0)];
      var laterIndices, laterBudgets := NativeTrace(e, c, v, i + 1, k.1, depth, more, r.1);
      indices, budgets := [index] + laterIndices, [left] + laterBudgets;
      var out := NativeEntries(e, c, Every, v, i, index, depth, done, left).0;
      NativeStepIs(e, c, v, out, i, depth, index, left, done);
      forall j: nat | i + 1 <= j < |out|
        ensures NativeTurn(e, c, v, out, depth, indices, budgets, i, j)
      {
        assert NativeTurn(e, c, v, out, depth, laterIndices, laterBudgets, i + 1, j);
      }
    }
  }

  lemma NativeStepIs(e: Env, c: Config, v: Native, out: seq<Entry<Native>>, i: nat, depth: nat, index: nat, left: int,
                     done: seq<Entry<Native>>)
    requires v.NObject? && i < |v.entries| && i < |out| && |done| == i && done <= out
    requires var key := v.entries[i].key;
             var r := if CleanKey(e, c, key, index) != key then (NString(MASK), left)
                      else NativeAt(e, c, Every, v.entries[i].value, depth + 1, key, left);
             out[i] == Entry(NativeKey(e, c, key, index, Keys(done)).0, r.0)
    ensures var key := v.entries[i].key;
            var r := if CleanKey(e, c, key, index) != key then (NString(MASK), left)
                     else NativeAt(e, c, Every, v.entries[i].value, depth + 1, key, left);
            NativeStep(e, c, v, out, i, depth, index, NativeKey(e, c, key, index, Keys(done)).1, left, r.1)
  {
    hide NativeAt, CleanKey, NativeKey, StoredAs, MaskedWithKey;
    assert out[..i] == done;
    KeyStored(e, c, v.entries[i].key, index, Keys(done));
  }

  lemma ObjectBecomesSo(e: Env, c: Config, v: Native, depth: nat, left: int)
    requires v.NObject?
    ensures var r := NativeEntries(e, c, Every, v, 0, 0, depth, [], left); ObjectBecomes(e, c, v, depth, left, r.0, r.1)
  {
    hide NativeEntries, NativeTurn;
    var indices, budgets := NativeTrace(e, c, v, 0, 0, depth, [], left);
  }

  lemma {:induction false} SliceTrace(e: Env, c: Config, v: Value, i: nat, depth: nat, done: seq<Value>, left: int)
    returns (budgets: seq<int>)
    requires v.VSlice? && i <= |v.items| && |done| == i
    ensures var r := SliceInto(e, c, v, i, depth, done, left);
            && |r.0| == |v.items| && done <= r.0 && |budgets| == |r.0| - i + 1
            && budgets[0] == left && budgets[|r.0| - i] == r.1
            && forall j: nat :: i <= j < |r.0| ==> SliceTurn(e, c, v, r.0, depth, budgets, i, j)
    decreases |v.items| - i
  {
    hide ValueAt;
    if i == |v.items| {
      budgets := [left];
    } else {
      var r := ValueAt(e, c, v.items[i], depth + 1, "", left);
      var later := SliceTrace(e, c, v, i + 1, depth, done + [r.0], r.1);
      budgets := [left] + later;
      var out := SliceInto(e, c, v, i, depth, done, left).0;
      assert out[i] == r.0;
      forall j: nat | i + 1 <= j < |out| ensures SliceTurn(e, c, v, out, depth, budgets, i, j) {
        assert SliceTurn(e, c, v, out, depth, later, i + 1, j);
      }
    }
  }

  lemma {:induction false} ArrayTrace(e: Env, c: Config, v: Native, i: nat, depth: nat, done: seq<Native>, left: int)
    returns (budgets: seq<int>)
    requires v.NArray? && i <= |v.items| && |done| == i
    ensures var r := NativeItems(e, c, Every, v, i, depth, done, left);
            && |r.0| == |v.items| && done <= r.0 && |budgets| == |r.0| - i + 1
            && budgets[0] == left && budgets[|r.0| - i] == r.1
            && forall j: nat :: i <= j < |r.0| ==> ArrayTurn(e, c, v, r.0, depth, budgets, i, j)
    decreases |v.items| - i
  {
    hide NativeAt;
    if i == |v.items| {
      budgets := [left];
    } else {
      var r := NativeAt(e, c, Every, v.items[i], depth + 1, "", left);
      var later := ArrayTrace(e, c, v, i + 1, depth, done + [r.0], r.1);
      budgets := [left] + later;
      var out := NativeItems(e, c, Every, v, i, depth, done, left).0;
      assert out[i] == r.0;
      forall j: nat | i + 1 <= j < |out| ensures ArrayTurn(e, c, v, out, depth, budgets, i, j) {
        assert ArrayTurn(e, c, v, out, depth, later, i + 1, j);
      }
    }
  }

  // ---------- every kind of value ----------

  /** A number that redaction touches, in one of its texts, becomes the redacted text. */
  predicate NumberBecomes(e: Env, text: string, out: Native) {
    if e.redactText(text) != text then out == NString(e.redactText(text))
    else if e.expandNumber(text).Some? && e.redactText(e.expandNumber(text).value) != e.expandNumber(text).value
    then out == NString(e.redactText(e.expandNumber(text).value))
    else out == NNumber(text)
  }

  /** What becomes of a telemetry value that no key and no limit above it masks. */
  ghost predicate OpenValueBecomes(e: Env, c: Config, v: Value, depth: nat, left: int, out: Value, rest: int) {
    match v
    case VEmpty => out == v && rest == left
    case VBool(_) => out == v && rest == left
    case VBytes => out == VStr("[REDACTED:bytes]") && rest == left
    case VInt(n) =>
      var raw := e.formatInt(n);
      rest == left && out == if e.redactText(raw) == raw then v else VStr(e.redactText(raw))
    case VDouble(bits) =>
      var raw := e.formatDouble(bits);
      rest == left && out == if e.redactText(raw) == raw then v else VStr(e.redactText(raw))
    case VStr(s) => out.VStr? && TextBecomes(e, c, s, depth, left, out.s, rest)
    case VMap(entries) =>
      if |entries| > c.maxItems || |entries| > left then out == VStr("[REDACTED:limit]") && rest == left
      else out.VMap? && MapBecomes(e, c, v, depth, left, out.entries, rest)
    case VSlice(items) =>
      if |items| > c.maxItems || |items| > left then out == VStr("[REDACTED:limit]") && rest == left
      else out.VSlice? && SliceBecomes(e, c, v, depth, left, out.items, rest)
  }

  ghost predicate OpenNativeBecomes(e: Env, c: Config, v: Native, depth: nat, left: int, out: Native, rest: int) {
    match v
    case NNull => out == v && rest == left
    case NBool(_) => out == v && rest == left
    case NNumber(text) => NumberBecomes(e, text, out) && rest == left
    case NString(s) => out.NString? && TextBecomes(e, c, s, depth, left, out.s, rest)
    case NObject(entries) =>
      if |entries| > c.maxItems || |entries| > left then out == NString("[REDACTED:limit]") && rest == left
      else out.NObject? && ObjectBecomes(e, c, v, depth, left, out.entries, rest)
    case NArray(items) =>
      if |items| > c.maxItems || |items| > left then out == NString("[REDACTED:limit]") && rest == left
      else out.NArray? && ArrayBecomes(e, c, v, depth, left, out.items, rest)
  }

  /** What becomes of a telemetry value under `key`: the mask under a sensitive key, the limit mark beyond the depth
      limit or the budget, the redacted shape of a query under an SQL key; and otherwise by its kind, for one unit. */
  lemma ValueClasses(e: Env, c: Config, v: Value, depth: nat, key: string, left: int)
    ensures var r := ValueAt(e, c, v, depth, key, left);
            if e.sensitiveKey(key) then r == (VStr("[REDACTED]"), left)
            else if depth > c.maxDepth || left <= 0 then r == (VStr("[REDACTED:limit]"), left)
            else if e.sqlKey(key) then
              && r.1 == left - 1 && r.0.VStr?
              && if v.VStr? then SqlBecomes(e, c, v.s, r.0.s) else r.0.s == "[REDACTED:sql]"
            else OpenValueBecomes(e, c, v, depth, left - 1, r.0, r.1)
  {
    hide TextAt, MapInto, SliceInto, Sql, TextBecomes, SqlBecomes, MapBecomes, SliceBecomes;
    if depth <= c.maxDepth {
      match v {
        case VStr(s) =>
          TextClasses(e, c, s, depth, left - 1);
          SqlClasses(e, c, s);
        case VMap(_) => MapBecomesSo(e, c, v, depth, left - 1);
        case VSlice(_) => SliceBecomesSo(e, c, v, depth, left - 1);
        case _ =>
      }
    }
  }

  lemma SliceBecomesSo(e: Env, c: Config, v: Value, depth: nat, left: int)
    requires v.VSlice?
    ensures var r := SliceInto(e, c, v, 0, depth, [], left); SliceBecomes(e, c, v, depth, left, r.0, r.1)
  {
    hide SliceInto, SliceTurn;
    var budgets := SliceTrace(e, c, v, 0, depth, [], left);
  }

  /** The same for decoded JSON. */
  lemma NativeClasses(e: Env, c: Config, v: Native, depth: nat, key: string, left: int)
    ensures var r := NativeAt(e, c, Every, v, depth, key, left);
            if e.sensitiveKey(key) then r == (NString("[REDACTED]"), left)
            else if depth > c.maxDepth || left <= 0 then r == (NString("[REDACTED:limit]"), left)
            else if e.sqlKey(key) then
              && r.1 == left - 1 && r.0.NString?
              && if v.NString? then SqlBecomes(e, c, v.s, r.0.s) else r.0.s == "[REDACTED:sql]"
            else OpenNativeBecomes(e, c, v, depth, left - 1, r.0, r.1)
  {
    hide TextAt, NativeEntries, NativeItems, Sql, TextBecomes, SqlBecomes, ObjectBecomes, ArrayBecomes;
    if depth <= c.maxDepth {
      match v {
        case NString(s) =>
          TextClasses(e, c, s, depth, left - 1);
          SqlClasses(e, c, s);
        case NObject(_) => ObjectBecomesSo(e, c, v, depth, left - 1);
        case NArray(_) => ArrayBecomesSo(e, c, v, depth, left - 1);
        case _ =>
      }
    }
  }

  lemma ArrayBecomesSo(e: Env, c: Config, v: Native, depth: nat, left: int)
    requires v.NArray?
    ensures var r := NativeItems(e, c, Every, v, 0, depth, [], left); ArrayBecomes(e, c, v, depth, left, r.0, r.1)
  {
    hide NativeItems, ArrayTurn;
    var budgets := ArrayTrace(e, c, v, 0, depth, [], left);
  }

  /** And for a whole attribute map. */
  lemma AttributesClasses(e: Env, c: Config, input: seq<Entry<Value>>, left: int)
    ensures var r := Attributes(e, c, input, left);
            if |input| > c.maxItems then r == ([Entry("elven.redaction", VStr("[REDACTED:limit]"))], left)
            else MapBecomes(e, c, VMap(input), 0, left, r.0, r.1)
  {
    hide MapInto, MapBecomes;
    MapBecomesSo(e, c, VMap(input), 0, left);
  }
}
