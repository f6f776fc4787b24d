/** JSON documents, pointers (RFC 6901) and the `add` operation (section 4.1 of RFC 6902). */
module JsonPatch {
  import opened Bytes
  import opened Decimals

  datatype Json =
    | Null
    | Bool(truth: bool)
    | Num(text: string)
    | Str(text: string)
    | Arr(items: seq<Json>)
    | Obj(fields: map<string, Json>)

  /** Every operation of the injector is an `add`. */
  datatype Add = Add(path: string, value: Json)

  // ---------- pointers ----------

  /** `strings.ReplaceAll` of a single byte. */
  function ReplaceByte(s: string, c: char, text: string): string {
    if s == "" then "" else (if s[0] == c then text else [s[0]]) + ReplaceByte(s[1..], c, text)
  }

  /** `pointerEscape`. */
  function PointerEscape(s: string): string { ReplaceByte(ReplaceByte(s, '~', "~0"), '/', "~1") }

  /** Every `~` is followed by 0 or 1 (section 3 of RFC 6901). */
  predicate WellEscaped(t: string) {
    forall i :: 0 <= i < |t| && t[i] == '~' ==> i + 1 < |t| && (t[i + 1] == '0' || t[i + 1] == '1')
  }

  /** Every `~` followed by `digit` becomes `c`. */
  function ReplacePair(t: string, digit: char, c: char): string {
    if |t| >= 2 && t[0] == '~' && t[1] == digit then [c] + ReplacePair(t[2..], digit, c)
    else if t == "" then "" else [t[0]] + ReplacePair(t[1..], digit, c)
  }

  /** Section 4 of RFC 6901: first `~1`, then `~0`. */
  function Unescape(t: string): string { ReplacePair(ReplacePair(t, '1', '/'), '0', '~') }

  function Split(s: string, c: char): (r: seq<string>)
    ensures r != []
    decreases |s|
  {
    var k := Cut(s, c);
    if k == |s| then [s] else [s[..k]] + Split(s[k + 1..], c)
  }

  function Unescaped(tokens: seq<string>): seq<string> {
    if tokens == [] then [] else [Unescape(tokens[0])] + Unescaped(tokens[1..])
  }

  function Pointer(path: string): Option<seq<string>> {
    if path == "" then Some([])
    else if path[0] != '/' then None
    else
      var tokens := Split(path[1..], '/');
      if forall i :: 0 <= i < |tokens| ==> WellEscaped(tokens[i]) then Some(Unescaped(tokens)) else None
  }

  /** The pointer that walks through `tokens`. */
  function PointerText(tokens: seq<string>): string {
    if tokens == [] then "" else "/" + (PointerEscape(tokens[0]) + PointerText(tokens[1..]))
  }

  function Escaped(tokens: seq<string>): seq<string> {
    if tokens == [] then [] else [PointerEscape(tokens[0])] + Escaped(tokens[1..])
  }

  // ---------- add ----------

  /** An array index: no sign and no leading zero. */
  predicate IsIndex(t: string) {
    t != "" && AllDigits(t) && (|t| == 1 || t[0] != '0')
  }

  function AddAt(doc: Json, tokens: seq<string>, value: Json): Option<Json>
    decreases |tokens|
  {
    if tokens == [] then Some(value)
    else
      var t := tokens[0];
      match doc
      case Obj(fields) =>
        if |tokens| == 1 then Some(Obj(fields[t := value]))
        else if t !in fields then None
        else
          var inner := AddAt(fields[t], tokens[1..], value);
          if inner.None? then None else Some(Obj(fields[t := inner.value]))
      case Arr(items) =>
        if |tokens| == 1 && t == "-" then Some(Arr(items + [value]))
        else if !IsIndex(t) then None
        else if |tokens| == 1 then
          if Val(t) <= |items| then Some(Arr(items[..Val(t)] + [value] + items[Val(t)..])) else None
        else if Val(t) < |items| then
          var inner := AddAt(items[Val(t)], tokens[1..], value);
          if inner.None? then None else Some(Arr(items[Val(t) := inner.value]))
        else None
      case _ => None
  }

  function Apply(doc: Json, op: Add): Option<Json> {
    var tokens := Pointer(op.path);
    if tokens.None? then None else AddAt(doc, tokens.value, op.value)
  }

  function ApplyAll(doc: Json, ops: seq<Add>): Option<Json>
    decreases |ops|
  {
    if ops == [] then Some(doc)
    else
      var next := Apply(doc, ops[0]);
      if next.None? then None else ApplyAll(next.value, ops[1..])
  }

  // ---------- escaping ----------

  /** `pointerEscape` byte by byte. */
  function Escape(s: string): string {
    if s == "" then ""
    else (if s[0] == '~' then "~0" else if s[0] == '/' then "~1" else [s[0]]) + Escape(s[1..])
  }

  lemma {:induction false} ReplaceConcat(a: string, b: string, c: char, text: string)
    ensures ReplaceByte(a + b, c, text) == ReplaceByte(a, c, text) + ReplaceByte(b, c, text)
  {
    if a == "" {
      assert a + b == b;
    } else {
      assert (a + b)[1..] == a[1..] + b;
      ReplaceConcat(a[1..], b, c, text);
    }
  }

  lemma {:induction false} EscapeBytewise(s: string)
    ensures PointerEscape(s) == Escape(s)
  {
    if s != "" {
      var first := if s[0] == '~' then "~0" else [s[0]];
      ReplaceConcat(first, ReplaceByte(s[1..], '~', "~0"), '/', "~1");
      assert first[1..] == "" || first[1..] == "0";
      assert ReplaceByte("0", '/', "~1") == "0" by { assert "0"[1..] == ""; }
      EscapeBytewise(s[1..]);
    }
  }

  /** An escaped token has no separator, and only proper escapes. */
  lemma {:induction false} EscapeClean(s: string)
    ensures WellEscaped(Escape(s)) && forall i :: 0 <= i < |Escape(s)| ==> Escape(s)[i] != '/'
  {
    if s != "" { EscapeClean(s[1..]); }
  }

  lemma {:induction false} UnescapeFirst(s: string)
    ensures ReplacePair(Escape(s), '1', '/') == ReplaceByte(s, '~', "~0")
  {
    if s != "" {
      var e := Escape(s);
      UnescapeFirst(s[1..]);
      if s[0] == '~' {
        assert e[1..] == "0" + Escape(s[1..]) && e[1..][1..] == Escape(s[1..]);
      } else if s[0] == '/' {
        assert e[2..] == Escape(s[1..]);
      } else {
        assert e[1..] == Escape(s[1..]);
      }
    }
  }

  lemma {:induction false} UnescapeSecond(s: string)
    ensures ReplacePair(ReplaceByte(s, '~', "~0"), '0', '~') == s
  {
    if s != "" {
      var e := ReplaceByte(s, '~', "~0");
      UnescapeSecond(s[1..]);
      if s[0] == '~' {
        assert e[2..] == ReplaceByte(s[1..], '~', "~0");
      } else {
        assert e[1..] == ReplaceByte(s[1..], '~', "~0");
      }
    }
  }

  /** Escaping is undone by reading the pointer. */
  lemma EscapeRoundTrip(s: string)
    ensures Unescape(PointerEscape(s)) == s
  {
    EscapeBytewise(s);
    UnescapeFirst(s);
    UnescapeSecond(s);
  }

  lemma {:induction false} SplitText(head: string, tokens: seq<string>)
    requires forall i :: 0 <= i < |head| ==> head[i] != '/'
    ensures Split(head + PointerText(tokens), '/') == [head] + Escaped(tokens)
    decreases |tokens|
  {
    CutAt(head, '/', "");
    if tokens == [] {
      assert head + PointerText(tokens) == head;
    } else {
      var e := PointerEscape(tokens[0]);
      var rest := e + PointerText(tokens[1..]);
      CutAt(head, '/', rest);
      assert head + PointerText(tokens) == head + ['/'] + rest;
      assert (head + ['/'] + rest)[..|head|] == head && (head + ['/'] + rest)[|head| + 1..] == rest;
      EscapeBytewise(tokens[0]);
      EscapeClean(tokens[0]);
      SplitText(e, tokens[1..]);
    }
  }

  lemma {:induction false} UnescapedEscaped(tokens: seq<string>)
    ensures Unescaped(Escaped(tokens)) == tokens
    ensures forall i :: 0 <= i < |Escaped(tokens)| ==> WellEscaped(Escaped(tokens)[i])
  {
    if tokens != [] {
      EscapeRoundTrip(tokens[0]);
      EscapeBytewise(tokens[0]);
      EscapeClean(tokens[0]);
      UnescapedEscaped(tokens[1..]);
      assert Escaped(tokens)[1..] == Escaped(tokens[1..]);
    }
  }

  /** Any list of keys, whatever bytes are in them, is read back from its pointer. */
  lemma PointerRoundTrip(tokens: seq<string>)
    ensures Pointer(PointerText(tokens)) == Some(tokens)
  {
    if tokens != [] {
      var e := PointerEscape(tokens[0]);
      EscapeBytewise(tokens[0]);
      EscapeClean(tokens[0]);
      SplitText(e, tokens[1..]);
      assert PointerText(tokens)[1..] == e + PointerText(tokens[1..]);
      assert [e] + Escaped(tokens[1..]) == Escaped(tokens);
      UnescapedEscaped(tokens);
    }
  }

  /** Tokens without `~` and `/` stand for themselves. */
  lemma {:induction false} EscapePlain(s: string)
    requires forall i :: 0 <= i < |s| ==> s[i] != '~' && s[i] != '/'
    ensures PointerEscape(s) == s
  {
    EscapeBytewise(s);
    if s != "" {
      EscapePlain(s[1..]);
      EscapeBytewise(s[1..]);
    }
  }

  // ---------- indices ----------

  lemma {:induction false} LeadingDigit(m: nat)
    requires m > 0
    ensures Dec(m)[0] != '0'
  {
    if m >= 10 {
      LeadingDigit(m / 10);
      assert Digits(m, NumDigits(m)) == Digits(m / 10, NumDigits(m / 10)) + [DigitChar(m % 10)];
    }
  }

  lemma DecIsIndex(m: nat)
    ensures IsIndex(Dec(m)) && Val(Dec(m)) == m
  {
    ValDec(m);
    if m > 0 { LeadingDigit(m); }
  }

  /** Adding at an index puts the value there and moves the later items up by one; adding at the end appends it. */
  lemma AddInserts(items: seq<Json>, k: nat, value: Json) returns (out: seq<Json>)
    requires k <= |items|
    ensures AddAt(Arr(items), [Dec(k)], value) == Some(Arr(out)) && |out| == |items| + 1 && out[k] == value
    ensures forall j :: 0 <= j < |items| ==> out[if j < k then j else j + 1] == items[j]
    ensures AddAt(Arr(items), ["-"], value) == AddAt(Arr(items), [Dec(|items|)], value)
  {
    hide AddAt;
    AddAtIndex(items, k, value);
    AddAtIndex(items, |items|, value);
    AddAtEnd(items, value);
    out := items[..k] + [value] + items[k..];
    assert items[..|items|] + [value] + items[|items|..] == items + [value];
  }

  lemma AddAtIndex(items: seq<Json>, k: nat, value: Json)
    requires k <= |items|
    ensures AddAt(Arr(items), [Dec(k)], value) == Some(Arr(items[..k] + [value] + items[k..]))
  {
    DecIsIndex(k);
    hide Dec, IsIndex, Val;
    assert Dec(k) != "-" by { assert IsIndex(Dec(k)); DashIsNoIndex(); }
  }

  lemma DashIsNoIndex()
    ensures !IsIndex("-")
  {
    assert !IsDigit("-"[0]);
  }

  lemma AddAtEnd(items: seq<Json>, value: Json)
    ensures AddAt(Arr(items), ["-"], value) == Some(Arr(items + [value]))
  {
    hide Dec, IsIndex, Val;
  }

  lemma {:induction false} ApplyConcat(doc: Json, a: seq<Add>, b: seq<Add>)
    requires ApplyAll(doc, a).Some?
    ensures ApplyAll(doc, a + b) == ApplyAll(ApplyAll(doc, a).value, b)
    decreases |a|
  {
    hide Apply;
    if a == [] {
      assert a + b == b;
    } else {
      assert (a + b)[1..] == a[1..] + b;
      ApplyConcat(Apply(doc, a[0]).value, a[1..], b);
    }
  }
}
