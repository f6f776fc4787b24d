/** What the recursive sanitizer of `sanitizer.go` computes, as functions that pass the budget along. */
module Sanitizing {
  import opened Bytes
  import opened FreshKeys
  import opened JsonDepth
  import SqlShape

  const MASK := "[REDACTED]"
  const LIMIT := "[REDACTED:limit]"
  const JSON_MARK := "[REDACTED:json]"
  const SQL_MARK := "[REDACTED:sql]"
  const BYTES_MARK := "[REDACTED:bytes]"
  const ENCODING_MARK := "[REDACTED:encoding]"

  predicate IsMarker(v: string) {
    v == MASK || v == LIMIT || v == JSON_MARK || v == SQL_MARK || v == BYTES_MARK || v == ENCODING_MARK
  }

  datatype Config = Config(maxDepth: nat, maxStringBytes: nat, maxItems: nat)

  datatype Entry<+V> = Entry(key: string, value: V)

  /** A decoded JSON value; an object's entries stand in the order of iteration. */
  datatype Native =
    | NNull
    | NBool(b: bool)
    | NString(s: string)
    | NNumber(text: string)
    | NObject(entries: seq<Entry<Native>>)
    | NArray(items: seq<Native>)

  /** A telemetry attribute value. */
  datatype Value =
    | VEmpty
    | VStr(s: string)
    | VInt(n: int)
    | VDouble(bits: int)
    | VBool(b: bool)
    | VBytes
    | VMap(entries: seq<Entry<Value>>)
    | VSlice(items: seq<Value>)

  /** The text rules and codecs the sanitizer calls. */
  datatype Env = Env(
    sensitiveKey: string -> bool,
    sqlKey: string -> bool,
    looksLikeJson: string -> bool,
    decodeLayers: string -> Option<string>,
    redactText: string -> string,
    parse: string -> Option<Native>,
    marshal: Native -> Option<string>,
    formatInt: int -> string,
    formatDouble: int -> string,
    expandNumber: string -> Option<string>)

  function Keys<V>(entries: seq<Entry<V>>): set<string> { set k | 0 <= k < |entries| :: entries[k].key }

  /** Levels left below `depth`. */
  function Room(c: Config, depth: nat): nat { if depth > c.maxDepth then 0 else c.maxDepth + 1 - depth }

  /** `key`: a key that is too long, not text, or would itself be redacted is replaced. */
  function CleanKey(e: Env, c: Config, key: string, index: nat): string {
    if |key| > c.maxStringBytes || !ValidUtf8(key) || e.redactText(key) != key then Name(index) else key
  }

  /** `sql`. */
  function Sql(e: Env, c: Config, input: string): string {
    if IsMarker(input) then input
    else if |input| > c.maxStringBytes || !ValidUtf8(input) then LIMIT
    else match e.decodeLayers(input)
      case None => ENCODING_MARK
      case Some(decoded) =>
        match SqlShape.Sanitize(decoded)
        case None => SQL_MARK
        case Some(shape) => e.redactText(shape)
  }

  function Number(e: Env, text: string): Native {
    if e.redactText(text) != text then NString(e.redactText(text))
    else match e.expandNumber(text)
      case Some(decimal) => if e.redactText(decimal) != decimal then NString(e.redactText(decimal)) else NNumber(text)
      case None => NNumber(text)
  }

  predicate IsContainer(v: Native) { v.NObject? || v.NArray? }

  /** The values to which `native` applies the depth limit: every one in the source. The other two are for
      comparison: only scalars, or none. */
  datatype DepthTest = Every | ScalarsOnly | Never

  predicate TooDeep(c: Config, test: DepthTest, v: Native, depth: nat) {
    depth > c.maxDepth && (test.Every? || (test.ScalarsOnly? && !IsContainer(v)))
  }

  /** `text` and `native`. The second result is the budget left. */
  function TextAt(e: Env, c: Config, test: DepthTest, input: string, depth: nat, left: int): (string, int)
    decreases Room(c, depth), 0
  {
    if IsMarker(input) then (input, left)
    else if depth > c.maxDepth || |input| > c.maxStringBytes then (LIMIT, left)
    else if !ValidUtf8(input) then (ENCODING_MARK, left)
    else
      var decoded := if e.looksLikeJson(input) then Some(input) else e.decodeLayers(input);
      if decoded.None? || !ValidUtf8(decoded.value) then (ENCODING_MARK, left)
      else if |decoded.value| > c.maxStringBytes then (LIMIT, left)
      else if IsMarker(decoded.value) then (decoded.value, left)
      else if !e.looksLikeJson(decoded.value) then (e.redactText(decoded.value), left)
      else if !DepthAllowed(decoded.value, depth, c.maxDepth) then (LIMIT, left)
      else match e.parse(decoded.value)
        case None => (JSON_MARK, left)
        case Some(v) =>
          var r := NativeAt(e, c, test, v, depth + 1, "", left);
          match e.marshal(r.0)
          case None => (LIMIT, r.1)
          case Some(encoded) => (if |encoded| > c.maxStringBytes then LIMIT else encoded, r.1)
  }

  /** The value that `text` hands to `native`, if it goes that far. */
  function Handed(e: Env, c: Config, input: string, depth: nat): (r: Option<Native>)
    ensures r.Some? ==> depth <= c.maxDepth
  {
    var decoded := if e.looksLikeJson(input) then Some(input) else e.decodeLayers(input);
    if !IsMarker(input) && depth <= c.maxDepth && |input| <= c.maxStringBytes && ValidUtf8(input)
       && decoded.Some? && ValidUtf8(decoded.value) && |decoded.value| <= c.maxStringBytes && !IsMarker(decoded.value)
       && e.looksLikeJson(decoded.value) && DepthAllowed(decoded.value, depth, c.maxDepth)
    then e.parse(decoded.value) else None
  }

  /** A cleaned value as JSON text again. */
  function Written(e: Env, c: Config, v: Native): string {
    match e.marshal(v)
    case None => LIMIT
    case Some(encoded) => if |encoded| > c.maxStringBytes then LIMIT else encoded
  }

  /** `text` depends on `native` and on the budget only through the value it hands on. */
  lemma TextHands(e: Env, c: Config, test: DepthTest, input: string, depth: nat, left: int)
    ensures match Handed(e, c, input, depth)
            case None => TextAt(e, c, test, input, depth, left) == (TextAt(e, c, Never, input, depth, 0).0, left)
            case Some(v) =>
              var r := NativeAt(e, c, test, v, depth + 1, "", left);
              TextAt(e, c, test, input, depth, left) == (Written(e, c, r.0), r.1)
  {
    hide DepthAllowed, ValidUtf8, NativeAt, IsMarker;
  }

  function NativeAt(e: Env, c: Config, test: DepthTest, v: Native, depth: nat, key: string, left: int): (Native, int)
    decreases Room(c, depth), 1, v
  {
    if e.sensitiveKey(key) then (NString(MASK), left)
    else if TooDeep(c, test, v, depth) || left <= 0 then (NString(LIMIT), left)
    else if e.sqlKey(key) then (NString(if v.NString? then Sql(e, c, v.s) else SQL_MARK), left - 1)
    else match v
      case NNull => (v, left - 1)
      case NBool(_) => (v, left - 1)
      case NString(s) => var r := TextAt(e, c, test, s, depth, left - 1); (NString(r.0), r.1)
      case NNumber(text) => (Number(e, text), left - 1)
      case NObject(entries) =>
        if |entries| > c.maxItems || |entries| > left - 1 then (NString(LIMIT), left - 1)
        else var r := NativeEntries(e, c, test, v, 0, 0, depth, [], left - 1); (NObject(r.0), r.1)
      case NArray(items) =>
        if |items| > c.maxItems || |items| > left - 1 then (NString(LIMIT), left - 1)
        else var r := NativeItems(e, c, test, v, 0, depth, [], left - 1); (NArray(r.0), r.1)
  }

  /** The key under which an entry is stored, and the next index, given the keys already in use. */
  function NativeKey(e: Env, c: Config, key: string, index: nat, used: set<string>): (string, nat) {
    var clean := CleanKey(e, c, key, index);
    if clean in used then var j := Fresh(used, index + 1); (Name(j), j + 1) else (clean, index + 1)
  }

  function NativeEntries(e: Env, c: Config, test: DepthTest, v: Native, i: nat, index: nat, depth: nat,
                         done: seq<Entry<Native>>, left: int): (seq<Entry<Native>>, int)
    requires v.NObject? && i <= |v.entries|
    decreases Room(c, depth), 1, v, |v.entries| - i
  {
    if i == |v.entries| then (done, left)
    else
      var key := v.entries[i].key;
      var k := NativeKey(e, c, key, index, Keys(done));
      var r := if CleanKey(e, c, key, index) != key then (NString(MASK), left)
               else NativeAt(e, c, test, v.entries[i].value, depth + 1, key, left);
      NativeEntries(e, c, test, v, i + 1, k.1, depth, done + [Entry(k.0, r.0)], r.1)
  }

  function NativeItems(e: Env, c: Config, test: DepthTest, v: Native, i: nat, depth: nat, done: seq<Native>, left: int)
      : (seq<Native>, int)
    requires v.NArray? && i <= |v.items|
    decreases Room(c, depth), 1, v, |v.items| - i
  {
    if i == |v.items| then (done, left)
    else
      var r := NativeAt(e, c, test, v.items[i], depth + 1, "", left);
      NativeItems(e, c, test, v, i + 1, depth, done + [r.0], r.1)
  }

  /** `value`. */
  function ValueAt(e: Env, c: Config, v: Value, depth: nat, key: string, left: int): (Value, int)
    decreases Room(c, depth), v
  {
    if e.sensitiveKey(key) then (VStr(MASK), left)
    else if depth > c.maxDepth || left <= 0 then (VStr(LIMIT), left)
    else if e.sqlKey(key) then (VStr(if v.VStr? then Sql(e, c, v.s) else SQL_MARK), left - 1)
    else match v
      case VEmpty => (v, left - 1)
      case VStr(s) => var r := TextAt(e, c, Every, s, depth, left - 1); (VStr(r.0), r.1)
      case VInt(n) =>
        var raw := e.formatInt(n);
        (if e.redactText(raw) != raw then VStr(e.redactText(raw)) else v, left - 1)
      case VDouble(bits) =>
        var raw := e.formatDouble(bits);
        (if e.redactText(raw) != raw then VStr(e.redactText(raw)) else v, left - 1)
      case VBool(_) => (v, left - 1)
      case VBytes => (VStr(BYTES_MARK), left - 1)
      case VMap(entries) =>
        if |entries| > c.maxItems || |entries| > left - 1 then (VStr(LIMIT), left - 1)
        else var r := MapInto(e, c, v, 0, 0, depth, [], left - 1); (VMap(r.0), r.1)
      case VSlice(items) =>
        if |items| > c.maxItems || |items| > left - 1 then (VStr(LIMIT), left - 1)
        else var r := SliceInto(e, c, v, 0, depth, [], left - 1); (VSlice(r.0), r.1)
  }

  function MapKey(e: Env, c: Config, key: string, index: nat, used: set<string>): (string, nat) {
    var clean := CleanKey(e, c, key, index);
    if clean in used then var j := Fresh(used, index + 1); (Name(j), j) else (clean, index + 1)
  }

  /** `mapInto`. */
  function MapInto(e: Env, c: Config, v: Value, i: nat, index: nat, depth: nat, done: seq<Entry<Value>>, left: int)
      : (seq<Entry<Value>>, int)
    requires v.VMap? && i <= |v.entries|
    decreases Room(c, depth), v, |v.entries| - i
  {
    if i == |v.entries| then (done, left)
    else
      var key := v.entries[i].key;
      var k := MapKey(e, c, key, index, Keys(done));
      var r := if CleanKey(e, c, key, index) != key then (VStr(MASK), left)
               else ValueAt(e, c, v.entries[i].value, depth + 1, key, left);
      MapInto(e, c, v, i + 1, k.1, depth, done + [Entry(k.0, r.0)], r.1)
  }

  function SliceInto(e: Env, c: Config, v: Value, i: nat, depth: nat, done: seq<Value>, left: int): (seq<Value>, int)
    requires v.VSlice? && i <= |v.items|
    decreases Room(c, depth), v, |v.items| - i
  {
    if i == |v.items| then (done, left)
    else
      var r := ValueAt(e, c, v.items[i], depth + 1, "", left);
      SliceInto(e, c, v, i + 1, depth, done + [r.0], r.1)
  }

  /** `attributes`. */
  function Attributes(e: Env, c: Config, input: seq<Entry<Value>>, left: int): (seq<Entry<Value>>, int) {
    if |input| > c.maxItems then ([Entry("elven.redaction", VStr(LIMIT))], left)
    else MapInto(e, c, VMap(input), 0, 0, 0, [], left)
  }
}
