/** The canonical text is unambiguous: two documents have the same text exactly when they are equal as JSON. */
module CanonicalUnique {
  import opened Bytes
  import opened Decimals
  import opened KeyOrder
  import opened Numbers
  import opened NumberText
  import opened Canonical

  /** Where a value may end. */
  predicate Stop(s: string, j: nat) {
    j >= |s| || s[j] == ',' || s[j] == ']' || s[j] == '}' || s[j] == ':'
  }

  // ---------- strings ----------

  function UnHexChar(c: char): int {
    if IsDigit(c) then c as int - '0' as int else c as int - 'a' as int + 10
  }

  function UnHex(s: string, i: nat): int
    requires i + 4 <= |s|
  {
    0x1000 * UnHexChar(s[i]) + 0x100 * UnHexChar(s[i + 1]) + 0x10 * UnHexChar(s[i + 2]) + UnHexChar(s[i + 3])
  }

  lemma HexCharValue(n: int)
    requires 0 <= n < 16
    ensures UnHexChar(HexChar(n)) == n && HexChar(n) != '\\' && HexChar(n) != '"'
  {}

  lemma HexParts(n: int)
    requires 0 <= n < 0x1_0000
    ensures 0x1000 * (n / 0x1000) + 0x100 * (n / 0x100 % 16) + 0x10 * (n / 0x10 % 16) + n % 16 == n
  {
    assert n / 0x10 / 0x10 == n / 0x100 && n / 0x100 / 0x10 == n / 0x1000;
  }

  lemma HexValue(s: string, i: nat, n: int)
    requires 0 <= n < 0x1_0000 && At(s, i, Hex4(n))
    ensures UnHex(s, i) == n
  {
    hide HexChar, UnHexChar;
    var h := Hex4(n);
    AtChar(s, i, h, 0);
    AtChar(s, i, h, 1);
    AtChar(s, i, h, 2);
    AtChar(s, i, h, 3);
    HexCharValue(n / 0x1000);
    HexCharValue(n / 0x100 % 16);
    HexCharValue(n / 0x10 % 16);
    HexCharValue(n % 16);
    HexParts(n);
  }

  /** The code point that the escape at `i` stands for. */
  function Unescape(s: string, i: nat): int
    requires i < |s|
  {
    if s[i] != '\\' then s[i] as int
    else if i + 1 >= |s| then 0
    else if s[i + 1] == '"' then 0x22
    else if s[i + 1] == '\\' then 0x5C
    else if s[i + 1] == 'n' then 0x0A
    else if s[i + 1] == 'r' then 0x0D
    else if s[i + 1] == 't' then 0x09
    else if s[i + 1] == 'f' then 0x0C
    else if s[i + 1] == 'b' then 0x08
    else if i + 6 > |s| then 0
    else
      var h := UnHex(s, i + 2);
      if IsSurrogate(h) && i + 12 <= |s| then 0x1_0000 + 0x400 * (h - 0xD800) + (UnHex(s, i + 8) - 0xDC00) else h
  }

  lemma UnescapeLong(s: string, i: nat, c: int)
    requires IsScalar(c) && c >= 0x1_0000 && At(s, i, Escape(c))
    ensures Unescape(s, i) == c
  {
    hide Hex4, UnHex, At;
    var high, low := 0xD800 + (c - 0x1_0000) / 0x400, 0xDC00 + (c - 0x1_0000) % 0x400;
    var e := "\\u" + Hex4(high) + "\\u" + Hex4(low);
    assert e == Escape(c);
    AtChar(s, i, e, 0);
    AtChar(s, i, e, 1);
    AtSplit(s, i, "\\u" + Hex4(high) + "\\u", Hex4(low));
    AtSplit(s, i, "\\u" + Hex4(high), "\\u");
    AtSplit(s, i, "\\u", Hex4(high));
    HexValue(s, i + 2, high);
    HexValue(s, i + 8, low);
  }

  lemma UnescapeShort(s: string, i: nat, c: int)
    requires IsScalar(c) && c < 0x1_0000 && At(s, i, Escape(c))
    ensures Unescape(s, i) == c
  {
    hide Hex4, UnHex;
    var e := Escape(c);
    AtChar(s, i, e, 0);
    if |e| > 1 {
      AtChar(s, i, e, 1);
      if e[1] == 'u' {
        AtSplit(s, i, "\\u", Hex4(c));
        HexValue(s, i + 2, c);
      }
    }
  }

  /** An escape determines its code point and never begins like a closing quote. */
  lemma EscapeUnique(s: string, i: nat, a: int, b: int)
    requires IsScalar(a) && IsScalar(b) && At(s, i, Escape(a)) && At(s, i, Escape(b))
    ensures a == b
  {
    hide Escape;
    if a < 0x1_0000 { UnescapeShort(s, i, a); } else { UnescapeLong(s, i, a); }
    if b < 0x1_0000 { UnescapeShort(s, i, b); } else { UnescapeLong(s, i, b); }
  }

  lemma EscapeNotQuote(c: int)
    requires IsScalar(c)
    ensures Escape(c)[0] != '"'
  {}

  lemma {:induction false} BodyUnique(s: string, i: nat, a: Text, b: Text)
    requires IsText(a) && IsText(b) && At(s, i, EscapeAll(a) + "\"") && At(s, i, EscapeAll(b) + "\"")
    ensures a == b
    decreases |a|
  {
    hide Escape;
    AtChar(s, i, EscapeAll(a) + "\"", 0);
    AtChar(s, i, EscapeAll(b) + "\"", 0);
    if a != [] { EscapeNotQuote(a[0]); BodyStep(s, i, a); }
    if b != [] { EscapeNotQuote(b[0]); BodyStep(s, i, b); }
    if a != [] && b != [] {
      EscapeUnique(s, i, a[0], b[0]);
      BodyUnique(s, i + |Escape(a[0])|, a[1..], b[1..]);
      assert a == [a[0]] + a[1..] && b == [b[0]] + b[1..];
    }
  }

  lemma BodyStep(s: string, i: nat, a: Text)
    requires IsText(a) && a != [] && At(s, i, EscapeAll(a) + "\"")
    ensures At(s, i, Escape(a[0])) && At(s, i + |Escape(a[0])|, EscapeAll(a[1..]) + "\"")
  {
    hide Escape;
    assert EscapeAll(a) + "\"" == Escape(a[0]) + (EscapeAll(a[1..]) + "\"");
    AtSplit(s, i, Escape(a[0]), EscapeAll(a[1..]) + "\"");
  }

  lemma QuoteUnique(s: string, i: nat, a: Text, b: Text)
    requires IsText(a) && IsText(b) && At(s, i, Quote(a)) && At(s, i, Quote(b))
    ensures a == b
  {
    hide EscapeAll;
    AtSplit(s, i, "\"", EscapeAll(a) + "\"");
    AtSplit(s, i, "\"", EscapeAll(b) + "\"");
    BodyUnique(s, i + 1, a, b);
  }

  // ---------- numbers ----------

  function Sign(n: Normal): string { if n.neg then "-" else "" }

  lemma SignedText(s: string, i: nat, n: Normal)
    requires At(s, i, NormalText(n))
    ensures At(s, i + |Sign(n)|, Unsigned(n)) && |NormalText(n)| == |Sign(n)| + |Unsigned(n)|
    ensures s[i] == '-' <==> n.neg
  {
    hide Dec, Dotted;
    UnsignedChars(n);
    assert NormalText(n) == Sign(n) + Unsigned(n);
    AtSplit(s, i, Sign(n), Unsigned(n));
    AtChar(s, i, NormalText(n), 0);
  }

  lemma NumberUnique(s: string, i: nat, a: Normal, b: Normal)
    requires At(s, i, NormalText(a)) && Stop(s, i + |NormalText(a)|)
    requires At(s, i, NormalText(b)) && Stop(s, i + |NormalText(b)|)
    ensures a == b
  {
    hide NormalText, Unsigned, At, Stop;
    SignedText(s, i, a);
    SignedText(s, i, b);
    UnsignedChars(a);
    UnsignedChars(b);
    TokenUnique(s, i + |Sign(a)|, Unsigned(a), Unsigned(b));
    UnsignedInjective(a, b);
  }

  /** Two number tokens at one place, each followed by a stop, are equal. */
  lemma TokenUnique(s: string, i: nat, x: string, y: string)
    requires At(s, i, x) && At(s, i, y) && Stop(s, i + |x|) && Stop(s, i + |y|)
    requires forall k :: 0 <= k < |x| ==> IsNumberChar(x[k])
    requires forall k :: 0 <= k < |y| ==> IsNumberChar(y[k])
    ensures x == y
  {
    if |x| < |y| { AtChar(s, i, y, |x|); }
    if |y| < |x| { AtChar(s, i, x, |y|); }
  }

  // ---------- documents ----------

  /** The first character tells the kind of a value. */
  function KindOf(c: char): int {
    if c == 'n' then 0 else if c == 't' then 1 else if c == 'f' then 2 else if c == '"' then 3
    else if c == '[' then 5 else if c == '{' then 6 else if c == ']' || c == '}' || c == ',' || c == ':' then 7 else 4
  }

  function Kind(v: Json): int {
    match v
    case Null => 0
    case Bool(b) => if b then 1 else 2
    case Str(_) => 3
    case Num(_) => 4
    case List(_) => 5
    case Object(_) => 6
  }

  lemma RenderFirst(d: Decimal)
    ensures Render(d) != "" && KindOf(Render(d)[0]) == 4
  {
    hide Render, Unsigned, Dotted, Dec;
    RenderNormal(d);
    UnsignedChars(Normalize(d));
    assert NormalText(Normalize(d)) == Sign(Normalize(d)) + Unsigned(Normalize(d)) by { SignedIs(Normalize(d)); }
  }

  lemma SignedIs(n: Normal)
    ensures NormalText(n) == Sign(n) + Unsigned(n)
  {}

  lemma FirstChar(v: Json)
    requires IsEncodable(v)
    ensures Enc(v) != "" && KindOf(Enc(v)[0]) == Kind(v)
  {
    hide EncItems, EncMembers, Render, EscapeAll, KindOf, IsEncodable;
    KindLiterals();
    match v {
      case Null => assert Enc(v)[0] == 'n';
      case Bool(b) => assert Enc(v)[0] == if b then 't' else 'f';
      case Str(t) => assert Enc(v)[0] == '"';
      case Num(d) => RenderFirst(d);
      case List(_) => assert Enc(v)[0] == '[';
      case Object(_) => assert Enc(v)[0] == '{';
    }
  }

  lemma KindLiterals()
    ensures KindOf('n') == 0 && KindOf('t') == 1 && KindOf('f') == 2 && KindOf('"') == 3
    ensures KindOf('[') == 5 && KindOf('{') == 6 && KindOf(']') == 7 && KindOf('}') == 7 && KindOf(',') == 7
  {}

  lemma KindAt(s: string, i: nat, v: Json)
    requires IsEncodable(v) && At(s, i, Enc(v))
    ensures i < |s| && KindOf(s[i]) == Kind(v)
  {
    hide Enc;
    FirstChar(v);
    AtChar(s, i, Enc(v), 0);
  }

  lemma {:induction false} Unique(s: string, i: nat, v: Json, w: Json)
    requires IsEncodable(v) && IsEncodable(w)
    requires At(s, i, Enc(v)) && Stop(s, i + |Enc(v)|) && At(s, i, Enc(w)) && Stop(s, i + |Enc(w)|)
    ensures Same(v, w) && |Enc(v)| == |Enc(w)|
    decreases v
  {
    hide EncItems, EncMembers, Render, Quote, SameNumber, KindOf, NormalText, Normalize, At, Stop;
    KindAt(s, i, v);
    KindAt(s, i, w);
    match v {
      case Null =>
      case Bool(_) =>
      case Str(t) => QuoteUnique(s, i, t, w.text);
      case Num(d) =>
        RenderNormal(d);
        RenderNormal(w.d);
        NumberUnique(s, i, Normalize(d), Normalize(w.d));
        SameNumberNormal(d, w.d);
      case List(_) =>
        AtSplit(s, i, "[", EncItems(v, 0) + "]");
        AtSplit(s, i, "[", EncItems(w, 0) + "]");
        ItemsUnique(s, i + 1, v, w, 0);
      case Object(m) =>
        var p, q := Sorted(m.Keys), Sorted(w.members.Keys);
        AtSplit(s, i, "{", EncMembers(v, p, 0) + "}");
        AtSplit(s, i, "{", EncMembers(w, q, 0) + "}");
        MembersUnique(s, i + 1, v, p, w, q, 0);
        SameMembers(v, p, w, q);
    }
  }

  lemma EncodableItems(v: Json)
    requires v.List? && IsEncodable(v)
    ensures forall k :: 0 <= k < |v.items| ==> IsEncodable(v.items[k])
  {}

  lemma EncodableMembers(v: Json)
    requires v.Object? && IsEncodable(v)
    ensures forall k :: k in v.members ==> IsText(k) && IsEncodable(v.members[k])
  {}

  lemma {:induction false} ItemsUnique(s: string, i: nat, v: Json, w: Json, k: nat)
    requires v.List? && w.List? && IsEncodable(v) && IsEncodable(w) && k <= |v.items| && k <= |w.items|
    requires At(s, i, EncItems(v, k) + "]") && At(s, i, EncItems(w, k) + "]")
    ensures |v.items| == |w.items| && |EncItems(v, k)| == |EncItems(w, k)|
    ensures forall j :: k <= j < |v.items| ==> Same(v.items[j], w.items[j])
    decreases v, |v.items| - k
  {
    hide Enc, Same, At, Stop, IsEncodable;
    EncodableItems(v);
    EncodableItems(w);
    ItemsHead(s, i, v, k);
    ItemsHead(s, i, w, k);
    if k < |v.items| && k < |w.items| {
      var j := i + |Separator(k)|;
      Unique(s, j, v.items[k], w.items[k]);
      ItemsUnique(s, j + |Enc(v.items[k])|, v, w, k + 1);
    }
  }

  lemma ItemsStep(v: Json, k: nat)
    requires v.List? && IsEncodable(v) && k < |v.items|
    ensures EncItems(v, k) + "]" == Separator(k) + (Enc(v.items[k]) + (EncItems(v, k + 1) + "]"))
    ensures |EncItems(v, k)| == |Separator(k)| + |Enc(v.items[k])| + |EncItems(v, k + 1)|
  {
    hide Enc;
    Regroup(Separator(k), Enc(v.items[k]), EncItems(v, k + 1), "]");
  }

  lemma Regroup(a: string, b: string, c: string, d: string)
    ensures a + (b + c) + d == a + (b + (c + d))
  {}

  /** The rest of a list starts with its end or with what separates it from the last item. */
  lemma RestStops(v: Json, k: nat)
    requires v.List? && IsEncodable(v) && 0 < k <= |v.items|
    ensures var rest := EncItems(v, k) + "]"; rest[0] == ']' || rest[0] == ','
  {
    hide Enc;
  }

  /** What stands at the head of a list's rest: its end, or an item followed by a stop. */
  lemma ItemsHead(s: string, i: nat, v: Json, k: nat)
    requires v.List? && IsEncodable(v) && k <= |v.items| && At(s, i, EncItems(v, k) + "]")
    ensures i < |s| && (k == |v.items| <==> s[i] == ']')
    ensures k < |v.items| ==>
              var j := i + |Separator(k)|;
              var e := j + |Enc(v.items[k])|;
              && At(s, j, Enc(v.items[k])) && At(s, e, EncItems(v, k + 1) + "]") && Stop(s, e)
              && |EncItems(v, k)| == |Separator(k)| + |Enc(v.items[k])| + |EncItems(v, k + 1)|
  {
    hide Enc, IsEncodable, At, KindOf;
    if k == |v.items| {
      assert EncItems(v, k) + "]" == "]";
      AtChar(s, i, "]", 0);
      AtInside(s, i, "]");
    } else {
      hide EncItems;
      EncodableItems(v);
      ItemsStep(v, k);
      var rest := EncItems(v, k + 1) + "]";
      AtSplit(s, i, Separator(k), Enc(v.items[k]) + rest);
      var j := i + |Separator(k)|;
      AtSplit(s, j, Enc(v.items[k]), rest);
      KindAt(s, j, v.items[k]);
      KindLiterals();
      if k > 0 { AtChar(s, i, Separator(k), 0); }
      RestStops(v, k + 1);
      AtChar(s, j + |Enc(v.items[k])|, rest, 0);
    }
  }

  ghost predicate KeysOf(v: Json, keys: seq<Text>) {
    v.Object? && forall i :: 0 <= i < |keys| ==> keys[i] in v.members
  }

  lemma {:induction false} MembersUnique(s: string, i: nat, v: Json, p: seq<Text>, w: Json, q: seq<Text>, k: nat)
    requires KeysOf(v, p) && KeysOf(w, q) && IsEncodable(v) && IsEncodable(w) && k <= |p| && k <= |q|
    requires At(s, i, EncMembers(v, p, k) + "}") && At(s, i, EncMembers(w, q, k) + "}")
    ensures |p| == |q| && |EncMembers(v, p, k)| == |EncMembers(w, q, k)|
    ensures forall j :: k <= j < |p| ==> p[j] == q[j] && Same(v.members[p[j]], w.members[q[j]])
    decreases v, |p| - k
  {
    hide Enc, Same, Quote, At, Stop, IsEncodable;
    EncodableMembers(v);
    EncodableMembers(w);
    MembersHead(s, i, v, p, k);
    MembersHead(s, i, w, q, k);
    if k < |p| && k < |q| {
      var j := i + |Separator(k)|;
      QuoteUnique(s, j, p[k], q[k]);
      var e := j + |Quote(p[k])| + 1;
      Unique(s, e, v.members[p[k]], w.members[q[k]]);
      MembersUnique(s, e + |Enc(v.members[p[k]])|, v, p, w, q, k + 1);
    }
  }

  lemma MembersStep(v: Json, p: seq<Text>, k: nat)
    requires KeysOf(v, p) && IsEncodable(v) && k < |p|
    ensures var quoted, value, rest := Quote(p[k]), Enc(v.members[p[k]]), EncMembers(v, p, k + 1);
            && EncMembers(v, p, k) + "}" == Separator(k) + (quoted + (":" + (value + (rest + "}"))))
            && |EncMembers(v, p, k)| == |Separator(k)| + |quoted| + 1 + |value| + |rest|
  {
    hide Enc, Quote;
    var quoted, value, rest := Quote(p[k]), Enc(v.members[p[k]]), EncMembers(v, p, k + 1);
    Regroup(Separator(k), quoted, ":" + (value + rest), "}");
    Regroup(":", value, rest, "}");
  }

  lemma MembersRestStops(v: Json, p: seq<Text>, k: nat)
    requires KeysOf(v, p) && IsEncodable(v) && 0 < k <= |p|
    ensures var rest := EncMembers(v, p, k) + "}"; rest[0] == '}' || rest[0] == ','
  {
    hide Enc, Quote;
  }

  /** What stands at the head of an object's rest: its end, or a key, a colon and a value followed by a stop. */
  lemma MembersHead(s: string, i: nat, v: Json, p: seq<Text>, k: nat)
    requires KeysOf(v, p) && IsEncodable(v) && k <= |p| && At(s, i, EncMembers(v, p, k) + "}")
    ensures i < |s| && (k == |p| <==> s[i] == '}')
    ensures k < |p| ==>
              var j := i + |Separator(k)|;
              var value := v.members[p[k]];
              var e := j + |Quote(p[k])| + 1 + |Enc(value)|;
              && At(s, j, Quote(p[k])) && At(s, j + |Quote(p[k])| + 1, Enc(value))
              && At(s, e, EncMembers(v, p, k + 1) + "}") && Stop(s, e)
              && |EncMembers(v, p, k)| == |Separator(k)| + |Quote(p[k])| + 1 + |Enc(value)| + |EncMembers(v, p, k + 1)|
  {
    hide Enc, At, EscapeAll;
    if k == |p| {
      assert EncMembers(v, p, k) + "}" == "}";
      AtChar(s, i, "}", 0);
      AtInside(s, i, "}");
    } else {
      hide EncMembers;
      MembersStep(v, p, k);
      MembersSplit(s, i, Separator(k), Quote(p[k]), Enc(v.members[p[k]]), EncMembers(v, p, k + 1) + "}");
      AtChar(s, i + |Separator(k)|, Quote(p[k]), 0);
      AtInside(s, i + |Separator(k)|, Quote(p[k]));
      if k > 0 { AtChar(s, i, Separator(k), 0); }
      MembersRestStops(v, p, k + 1);
      AtChar(s, i + |Separator(k)| + |Quote(p[k])| + 1 + |Enc(v.members[p[k]])|, EncMembers(v, p, k + 1) + "}", 0);
    }
  }

  lemma MembersSplit(s: string, i: nat, sep: string, quoted: string, value: string, rest: string)
    requires At(s, i, sep + (quoted + (":" + (value + rest))))
    ensures At(s, i, sep) && At(s, i + |sep|, quoted)
    ensures At(s, i + |sep| + |quoted| + 1, value) && At(s, i + |sep| + |quoted| + 1 + |value|, rest)
  {
    hide At;
    AtSplit(s, i, sep, quoted + (":" + (value + rest)));
    AtSplit(s, i + |sep|, quoted, ":" + (value + rest));
    AtSplit(s, i + |sep| + |quoted|, ":", value + rest);
    AtSplit(s, i + |sep| + |quoted| + 1, value, rest);
  }

  lemma SameMembers(v: Json, p: seq<Text>, w: Json, q: seq<Text>)
    requires v.Object? && w.Object? && Lists(p, v.members.Keys) && Lists(q, w.members.Keys) && |p| == |q|
    requires forall j :: 0 <= j < |p| ==> p[j] == q[j] && Same(v.members[p[j]], w.members[q[j]])
    ensures Same(v, w)
  {
    forall k | k in v.members ensures k in w.members && Same(v.members[k], w.members[k]) {
      assert k in p;
    }
    forall k | k in w.members ensures k in v.members {
      assert k in q;
    }
  }

  // ---------- equal documents have one text ----------

  lemma {:induction false} SameText(v: Json, w: Json)
    requires IsEncodable(v) && IsEncodable(w) && Same(v, w)
    ensures Enc(v) == Enc(w)
    decreases v
  {
    match v {
      case Num(d) =>
        SameNumberNormal(d, w.d);
        RenderNormal(d);
        RenderNormal(w.d);
      case List(_) => SameItems(v, w, 0);
      case Object(m) => SameMemberTexts(v, w, Sorted(m.Keys), 0);
      case _ =>
    }
  }

  lemma {:induction false} SameItems(v: Json, w: Json, k: nat)
    requires v.List? && w.List? && IsEncodable(v) && IsEncodable(w) && Same(v, w) && k <= |v.items|
    ensures EncItems(v, k) == EncItems(w, k)
    decreases v, |v.items| - k
  {
    hide Enc;
    if k < |v.items| {
      SameText(v.items[k], w.items[k]);
      SameItems(v, w, k + 1);
    }
  }

  lemma {:induction false} SameMemberTexts(v: Json, w: Json, keys: seq<Text>, k: nat)
    requires v.Object? && w.Object? && IsEncodable(v) && IsEncodable(w) && Same(v, w)
    requires k <= |keys| && forall i :: 0 <= i < |keys| ==> keys[i] in v.members
    ensures EncMembers(v, keys, k) == EncMembers(w, keys, k)
    decreases v, |keys| - k
  {
    hide Enc;
    if k < |keys| {
      SameText(v.members[keys[k]], w.members[keys[k]]);
      SameMemberTexts(v, w, keys, k + 1);
    }
  }

  /** Two encodable documents have the same canonical text exactly when they are equal as JSON. */
  lemma EncUnambiguous(v: Json, w: Json)
    requires IsEncodable(v) && IsEncodable(w)
    ensures Enc(v) == Enc(w) <==> Same(v, w)
  {
    hide Enc, Same;
    if Enc(v) == Enc(w) {
      var s := Enc(v);
      assert s[0..0 + |s|] == s;
      Unique(s, 0, v, w);
    }
    if Same(v, w) { SameText(v, w); }
  }
}
