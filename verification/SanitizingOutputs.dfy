/** What leaves the sanitizer: at every level only marks, redacted texts, and the writing of values made of these. */
module SanitizingOutputs {
  import opened Bytes
  import opened FreshKeys
  import opened JsonDepth
  import opened Sanitizing

  const MARKS: set<string> :=
    {"[REDACTED]", "[REDACTED:limit]", "[REDACTED:json]", "[REDACTED:sql]", "[REDACTED:bytes]", "[REDACTED:encoding]"}

  // ---------- what may leave ----------

  ghost predicate IsRedacted(e: Env, s: string) { exists x: string :: s == e.redactText(x) }

  /** A text that may leave: a mark, a redacted text, or the JSON of a value that may leave, at most `n` levels of JSON
      in strings deep. */
  ghost predicate TextLeaves(e: Env, s: string, n: nat)
    decreases n, 0
  {
    || s in MARKS || IsRedacted(e, s)
    || (n > 0 && exists v: Native :: e.marshal(v) == Some(s) && NativeLeaves(e, v, n - 1))
  }

  /** A key that may leave: redaction does not touch it, or it is a replacement key. */
  ghost predicate KeyLeaves(e: Env, key: string) { e.redactText(key) == key || exists j: nat :: key == Name(j) }

  /** A number that may leave as it is: redaction touches neither its text nor its expanded form. */
  predicate NumberLeaves(e: Env, text: string) {
    e.redactText(text) == text
    && (e.expandNumber(text).Some? ==> e.redactText(e.expandNumber(text).value) == e.expandNumber(text).value)
  }

  ghost predicate NativeLeaves(e: Env, v: Native, n: nat)
    decreases n, 1, v
  {
    match v
    case NNull => true
    case NBool(_) => true
    case NNumber(text) => NumberLeaves(e, text)
    case NString(s) => TextLeaves(e, s, n)
    case NObject(entries) =>
      forall k :: 0 <= k < |entries| ==> KeyLeaves(e, entries[k].key) && NativeLeaves(e, entries[k].value, n)
    case NArray(items) => forall k :: 0 <= k < |items| ==> NativeLeaves(e, items[k], n)
  }

  ghost predicate ValueLeaves(e: Env, v: Value, n: nat)
    decreases v
  {
    match v
    case VEmpty => true
    case VBool(_) => true
    case VInt(i) => e.redactText(e.formatInt(i)) == e.formatInt(i)
    case VDouble(bits) => e.redactText(e.formatDouble(bits)) == e.formatDouble(bits)
    case VBytes => false
    case VStr(s) => TextLeaves(e, s, n)
    case VMap(entries) => EntriesLeave(e, entries, n)
    case VSlice(items) => forall k :: 0 <= k < |items| ==> ValueLeaves(e, items[k], n)
  }

  ghost predicate EntriesLeave(e: Env, entries: seq<Entry<Value>>, n: nat)
    decreases entries
  {
    forall k :: 0 <= k < |entries| ==> KeyLeaves(e, entries[k].key) && ValueLeaves(e, entries[k].value, n)
  }

  // ---------- nothing else does ----------

  lemma MarkersAreMarks(s: string)
    ensures IsMarker(s) <==> s in MARKS
  {}

  lemma MarksLeave(e: Env, n: nat)
    ensures TextLeaves(e, MASK, n) && TextLeaves(e, LIMIT, n) && TextLeaves(e, JSON_MARK, n)
    ensures TextLeaves(e, SQL_MARK, n) && TextLeaves(e, BYTES_MARK, n) && TextLeaves(e, ENCODING_MARK, n)
  {}

  lemma {:induction false} MoreLevels(e: Env, s: string, n: nat, m: nat)
    requires TextLeaves(e, s, n) && n <= m
    ensures TextLeaves(e, s, m)
    decreases n, 0
  {
    if s !in MARKS && !IsRedacted(e, s) {
      var v: Native :| e.marshal(v) == Some(s) && NativeLeaves(e, v, n - 1);
      MoreNativeLevels(e, v, n - 1, m - 1);
    }
  }

  lemma {:induction false} MoreNativeLevels(e: Env, v: Native, n: nat, m: nat)
    requires NativeLeaves(e, v, n) && n <= m
    ensures NativeLeaves(e, v, m)
    decreases n, 1, v
  {
    match v {
      case NString(s) => MoreLevels(e, s, n, m);
      case NObject(entries) =>
        forall k | 0 <= k < |entries| ensures NativeLeaves(e, entries[k].value, m) {
          MoreNativeLevels(e, entries[k].value, n, m);
        }
      case NArray(items) =>
        forall k | 0 <= k < |items| ensures NativeLeaves(e, items[k], m) { MoreNativeLevels(e, items[k], n, m); }
      case _ =>
    }
  }

  /** What `text` returns when it hands on no value. */
  lemma PlainLeaves(e: Env, c: Config, test: DepthTest, input: string, depth: nat, left: int, n: nat)
    requires Handed(e, c, input, depth).None?
    ensures TextLeaves(e, TextAt(e, c, test, input, depth, left).0, n)
  {
    hide DepthAllowed, ValidUtf8, NativeAt, IsMarker, TextLeaves, IsRedacted;
    MarksLeave(e, n);
    RedactedLeaves(e, n);
    MarkersAreMarks(input);
    var decoded := if e.looksLikeJson(input) then Some(input) else e.decodeLayers(input);
    MarkLeaves(e, input, n);
    if decoded.Some? {
      MarkersAreMarks(decoded.value);
      MarkLeaves(e, decoded.value, n);
    }
  }

  lemma MarkLeaves(e: Env, s: string, n: nat)
    ensures s in MARKS ==> TextLeaves(e, s, n)
  {}

  lemma RedactedLeaves(e: Env, n: nat)
    ensures forall x: string :: TextLeaves(e, e.redactText(x), n)
  {
    forall x: string ensures TextLeaves(e, e.redactText(x), n) { assert IsRedacted(e, e.redactText(x)); }
  }

  lemma {:induction false} TextOnlyLeaves(e: Env, c: Config, test: DepthTest, input: string, depth: nat, left: int)
    ensures TextLeaves(e, TextAt(e, c, test, input, depth, left).0, Room(c, depth))
    decreases Room(c, depth), 0
  {
    hide TextAt, NativeAt, Handed, NativeLeaves;
    TextHands(e, c, test, input, depth, left);
    if Handed(e, c, input, depth).Some? {
      var v := Handed(e, c, input, depth).value;
      NativeOnlyLeaves(e, c, test, v, depth + 1, "", left);
      WrittenLeaves(e, c, NativeAt(e, c, test, v, depth + 1, "", left).0, Room(c, depth + 1), Room(c, depth));
    } else {
      PlainLeaves(e, c, test, input, depth, left, Room(c, depth));
    }
  }

  lemma WrittenLeaves(e: Env, c: Config, v: Native, n: nat, m: nat)
    requires NativeLeaves(e, v, n) && n < m
    ensures TextLeaves(e, Written(e, c, v), m)
  {
    hide NativeLeaves;
    MoreNativeLevels(e, v, n, m - 1);
  }

  lemma SqlLeaves(e: Env, c: Config, input: string, n: nat)
    ensures TextLeaves(e, Sql(e, c, input), n)
  {
    hide ValidUtf8, TextLeaves, IsMarker, SqlShape.Sanitize;
    MarksLeave(e, n);
    RedactedLeaves(e, n);
    MarkersAreMarks(input);
    MarkLeaves(e, input, n);
  }

  lemma NumberOnlyLeaves(e: Env, text: string, n: nat)
    ensures NativeLeaves(e, Number(e, text), n)
  {
    RedactedLeaves(e, n);
  }

  /** A key of the output may leave. */
  lemma KeysLeave(e: Env, c: Config, key: string, index: nat, used: set<string>)
    ensures KeyLeaves(e, NativeKey(e, c, key, index, used).0) && KeyLeaves(e, MapKey(e, c, key, index, used).0)
  {
    hide Fresh, Name;
  }

  lemma {:induction false} NativeOnlyLeaves(e: Env, c: Config, test: DepthTest, v: Native, depth: nat, key: string,
                                            left: int)
    ensures NativeLeaves(e, NativeAt(e, c, test, v, depth, key, left).0, Room(c, depth))
    decreases Room(c, depth), 1, v
  {
    hide TextAt, NativeEntries, NativeItems, Sql, Number, TextLeaves;
    MarksLeave(e, Room(c, depth));
    match v {
      case NString(s) =>
        TextOnlyLeaves(e, c, test, s, depth, left - 1);
        SqlLeaves(e, c, s, Room(c, depth));
      case NNumber(text) => NumberOnlyLeaves(e, text, Room(c, depth));
      case NObject(_) => EntriesOnlyLeave(e, c, test, v, 0, 0, depth, [], left - 1, Room(c, depth));
      case NArray(_) => ItemsOnlyLeave(e, c, test, v, 0, depth, [], left - 1, Room(c, depth));
      case _ =>
    }
  }

  lemma {:induction false} EntriesOnlyLeave(e: Env, c: Config, test: DepthTest, v: Native, i: nat, index: nat,
                                            depth: nat, done: seq<Entry<Native>>, left: int, n: nat)
    requires v.NObject? && i <= |v.entries| && NativeLeaves(e, NObject(done), n) && n == Room(c, depth)
    ensures NativeLeaves(e, NObject(NativeEntries(e, c, test, v, i, index, depth, done, left).0), n)
    decreases Room(c, depth), 1, v, |v.entries| - i
  {
    hide NativeAt, CleanKey, NativeKey, KeyLeaves, TextLeaves;
    if i < |v.entries| {
      var key := v.entries[i].key;
      var k := NativeKey(e, c, key, index, Keys(done));
      var r := if CleanKey(e, c, key, index) != key then (NString(MASK), left)
               else NativeAt(e, c, test, v.entries[i].value, depth + 1, key, left);
      NativeOnlyLeaves(e, c, test, v.entries[i].value, depth + 1, key, left);
      MoreNativeLevels(e, NativeAt(e, c, test, v.entries[i].value, depth + 1, key, left).0, Room(c, depth + 1), n);
      MarksLeave(e, n);
      KeysLeave(e, c, key, index, Keys(done));
      EntriesOnlyLeave(e, c, test, v, i + 1, k.1, depth, done + [Entry(k.0, r.0)], r.1, n);
    }
  }

  lemma {:induction false} ItemsOnlyLeave(e: Env, c: Config, test: DepthTest, v: Native, i: nat, depth: nat,
                                          done: seq<Native>, left: int, n: nat)
    requires v.NArray? && i <= |v.items| && NativeLeaves(e, NArray(done), n) && n == Room(c, depth)
    ensures NativeLeaves(e, NArray(NativeItems(e, c, test, v, i, depth, done, left).0), n)
    decreases Room(c, depth), 1, v, |v.items| - i
  {
    hide NativeAt;
    if i < |v.items| {
      var r := NativeAt(e, c, test, v.items[i], depth + 1, "", left);
      NativeOnlyLeaves(e, c, test, v.items[i], depth + 1, "", left);
      MoreNativeLevels(e, r.0, Room(c, depth + 1), n);
      ItemsOnlyLeave(e, c, test, v, i + 1, depth, done + [r.0], r.1, n);
    }
  }

  /** The levels of JSON in strings that a value can hold. */
  function JsonLevels(c: Config): nat { c.maxDepth + 1 }

  /** Nothing else leaves in a telemetry value, at any level. */
  lemma {:induction false} ValueOnlyLeaves(e: Env, c: Config, v: Value, depth: nat, key: string, left: int)
    ensures ValueLeaves(e, ValueAt(e, c, v, depth, key, left).0, JsonLevels(c))
    decreases Room(c, depth), v
  {
    hide TextAt, MapInto, SliceInto, Sql, TextLeaves;
    MarksLeave(e, JsonLevels(c));
    RedactedLeaves(e, JsonLevels(c));
    match v {
      case VStr(s) =>
        TextOnlyLeaves(e, c, Every, s, depth, left - 1);
        MoreLevels(e, TextAt(e, c, Every, s, depth, left - 1).0, Room(c, depth), JsonLevels(c));
        SqlLeaves(e, c, s, JsonLevels(c));
      case VMap(_) => if depth <= c.maxDepth { MapOnlyLeaves(e, c, v, 0, 0, depth, [], left - 1); }
      case VSlice(_) => if depth <= c.maxDepth { SliceOnlyLeaves(e, c, v, 0, depth, [], left - 1); }
      case _ =>
    }
  }

  lemma {:induction false} MapOnlyLeaves(e: Env, c: Config, v: Value, i: nat, index: nat, depth: nat,
                                         done: seq<Entry<Value>>, left: int)
    requires v.VMap? && i <= |v.entries| && EntriesLeave(e, done, JsonLevels(c))
    ensures EntriesLeave(e, MapInto(e, c, v, i, index, depth, done, left).0, JsonLevels(c))
    decreases Room(c, depth), v, |v.entries| - i
  {
    hide ValueAt, CleanKey, MapKey, KeyLeaves, TextLeaves;
    if i < |v.entries| {
      var key := v.entries[i].key;
      var k := MapKey(e, c, key, index, Keys(done));
      var r := if CleanKey(e, c, key, index) != key then (VStr(MASK), left)
               else ValueAt(e, c, v.entries[i].value, depth + 1, key, left);
      ValueOnlyLeaves(e, c, v.entries[i].value, depth + 1, key, left);
      MarksLeave(e, JsonLevels(c));
      KeysLeave(e, c, key, index, Keys(done));
      MapOnlyLeaves(e, c, v, i + 1, k.1, depth, done + [Entry(k.0, r.0)], r.1);
    }
  }

  lemma {:induction false} SliceOnlyLeaves(e: Env, c: Config, v: Value, i: nat, depth: nat, done: seq<Value>, left: int)
    requires v.VSlice? && i <= |v.items| && ValueLeaves(e, VSlice(done), JsonLevels(c))
    ensures ValueLeaves(e, VSlice(SliceInto(e, c, v, i, depth, done, left).0), JsonLevels(c))
    decreases Room(c, depth), v, |v.items| - i
  {
    hide ValueAt;
    if i < |v.items| {
      var r := ValueAt(e, c, v.items[i], depth + 1, "", left);
      ValueOnlyLeaves(e, c, v.items[i], depth + 1, "", left);
      SliceOnlyLeaves(e, c, v, i + 1, depth, done + [r.0], r.1);
    }
  }

  /** Nor in a whole attribute map; one that is too large becomes a single mark. */
  lemma AttributesOnlyLeave(e: Env, c: Config, input: seq<Entry<Value>>, left: int)
    ensures var out := Attributes(e, c, input, left).0;
            EntriesLeave(e, out, JsonLevels(c)) || out == [Entry("elven.redaction", VStr("[REDACTED:limit]"))]
  {
    hide MapInto;
    if |input| <= c.maxItems { MapOnlyLeaves(e, c, VMap(input), 0, 0, 0, [], left); }
  }
}
