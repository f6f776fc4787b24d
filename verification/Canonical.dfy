/** The canonical JSON text of `images-attestations.py`. */
module Canonical {
  import opened KeyOrder
  import opened Numbers

  /** A parsed document; a text is a sequence of code points, an object a map. */
  datatype Json =
    | Null
    | Bool(b: bool)
    | Str(text: Text)
    | Num(d: Decimal)
    | List(items: seq<Json>)
    | Object(members: map<Text, Json>)

  // ---------- strings ----------

  predicate IsSurrogate(c: int) { 0xD800 <= c < 0xE000 }

  predicate IsScalar(c: int) { 0 <= c < 0x11_0000 && !IsSurrogate(c) }

  /** Encodable in UTF-8: every code point is a Unicode scalar value. */
  predicate IsText(t: Text) { forall i :: 0 <= i < |t| ==> IsScalar(t[i]) }

  function HexChar(n: int): char
    requires 0 <= n < 16
  {
    if n < 10 then ('0' as int + n) as char else ('a' as int + (n - 10)) as char
  }

  function Hex4(n: int): (h: string)
    requires 0 <= n < 0x1_0000
    ensures |h| == 4
  {
    [HexChar(n / 0x1000), HexChar(n / 0x100 % 16), HexChar(n / 0x10 % 16), HexChar(n % 16)]
  }

  /** One code point as `json.dumps` writes it in ASCII. */
  function Escape(c: int): (e: string)
    requires IsScalar(c)
    ensures e != ""
  {
    if c == 0x22 then "\\\""
    else if c == 0x5C then "\\\\"
    else if c == 0x0A then "\\n"
    else if c == 0x0D then "\\r"
    else if c == 0x09 then "\\t"
    else if c == 0x0C then "\\f"
    else if c == 0x08 then "\\b"
    else if 0x20 <= c <= 0x7E then [c as char]
    else if c < 0x1_0000 then "\\u" + Hex4(c)
    else "\\u" + Hex4(0xD800 + (c - 0x1_0000) / 0x400) + "\\u" + Hex4(0xDC00 + (c - 0x1_0000) % 0x400)
  }

  function EscapeAll(t: Text): string
    requires IsText(t)
  {
    if t == [] then "" else Escape(t[0]) + EscapeAll(t[1..])
  }

  function Quote(t: Text): string
    requires IsText(t)
  {
    "\"" + (EscapeAll(t) + "\"")
  }

  // ---------- documents ----------

  /** Every text in `v` is encodable. */
  predicate IsEncodable(v: Json) {
    match v
    case Str(t) => IsText(t)
    case List(items) => forall i :: 0 <= i < |items| ==> IsEncodable(items[i])
    case Object(m) => forall k :: k in m ==> IsText(k) && IsEncodable(m[k])
    case _ => true
  }

  /** The text of a document, limits aside. */
  ghost function Enc(v: Json): string
    requires IsEncodable(v)
    decreases v
  {
    match v
    case Null => "null"
    case Bool(b) => if b then "true" else "false"
    case Str(t) => Quote(t)
    case Num(d) => Render(d)
    case List(_) => "[" + (EncItems(v, 0) + "]")
    case Object(m) => "{" + (EncMembers(v, Sorted(m.Keys), 0) + "}")
  }

  function Separator(k: nat): string { if k == 0 then "" else "," }

  ghost function EncItems(v: Json, k: nat): string
    requires v.List? && IsEncodable(v) && k <= |v.items|
    decreases v, |v.items| - k
  {
    if k == |v.items| then "" else Separator(k) + (Enc(v.items[k]) + EncItems(v, k + 1))
  }

  ghost function EncMembers(v: Json, keys: seq<Text>, k: nat): string
    requires v.Object? && IsEncodable(v) && k <= |keys| && forall i :: 0 <= i < |keys| ==> keys[i] in v.members
    decreases v, |keys| - k
  {
    if k == |keys| then ""
    else Separator(k) + (Quote(keys[k]) + (":" + (Enc(v.members[keys[k]]) + EncMembers(v, keys, k + 1))))
  }

  /** Equality as JSON: objects as maps, numbers by exact value. */
  predicate Same(v: Json, w: Json) {
    match (v, w)
    case (Null, Null) => true
    case (Bool(a), Bool(b)) => a == b
    case (Str(a), Str(b)) => a == b
    case (Num(a), Num(b)) => SameNumber(a, b)
    case (List(a), List(b)) => |a| == |b| && forall i :: 0 <= i < |a| ==> Same(a[i], b[i])
    case (Object(a), Object(b)) => a.Keys == b.Keys && forall k :: k in a ==> Same(a[k], b[k])
    case _ => false
  }
}
