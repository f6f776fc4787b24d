/** The canonical text by a grammar of its own: JSON as in RFC 8259 without a blank outside strings, in ASCII, with the
    shortest escapes, keys in ascending order, and numbers in their shortest plain form. */
module CanonicalGrammar {
  import opened Bytes
  import opened Decimals
  import opened KeyOrder
  import opened Numbers
  import opened NumberText
  import opened Canonical

  // ---------- strings (section 7) ----------

  const HEX: string := "0123456789abcdef"

  /** Four hexadecimal digits in lower case. */
  predicate IsHex4(h: string, n: int) {
    && 0 <= n < 65536 && |h| == 4
    && h[0] == HEX[n / 4096] && h[1] == HEX[n / 256 % 16] && h[2] == HEX[n / 16 % 16] && h[3] == HEX[n % 16]
  }

  /** The characters with an escape of two characters, and the second of these. */
  const SHORT: map<int, char> :=
    map[0x22 := '"', 0x5C := '\\', 0x08 := 'b', 0x0C := 'f', 0x0A := 'n', 0x0D := 'r', 0x09 := 't']

  /** A code point: with its short escape, as the printable ASCII character it is, or by its UTF-16 units. */
  ghost predicate IsChar(c: int, s: string) {
    if c in SHORT then s == ['\\', SHORT[c]]
    else if 0x20 <= c < 0x7F then s == [c as char]
    else if c < 0x1_0000 then |s| == 6 && s[..2] == "\\u" && IsHex4(s[2..], c)
    else
      && |s| == 12 && s[..2] == "\\u" && s[6..8] == "\\u"
      && exists high: int, low: int ::
           && 0xD800 <= high < 0xDC00 && 0xDC00 <= low < 0xE000
           && c == 0x1_0000 + 0x400 * (high - 0xD800) + (low - 0xDC00)
           && IsHex4(s[2..6], high) && IsHex4(s[8..], low)
  }

  ghost predicate IsChars(t: Text, s: string)
    decreases |t|
  {
    if t == [] then s == ""
    else exists n: nat :: n <= |s| && IsChar(t[0], s[..n]) && IsChars(t[1..], s[n..])
  }

  ghost predicate IsString(t: Text, s: string) {
    |s| >= 2 && s[0] == '"' && s[|s| - 1] == '"' && IsChars(t, s[1..|s| - 1])
  }

  // ---------- numbers (section 6) ----------

  datatype Numeral = Numeral(neg: bool, whole: string, fraction: string)

  /** No zero too many in front or at the end, no empty fraction, no minus before a zero. */
  predicate IsShortest(n: Numeral) {
    && n.whole != "" && AllDigits(n.whole) && AllDigits(n.fraction)
    && (n.whole[0] == '0' ==> |n.whole| == 1) && (n.fraction != "" ==> n.fraction[|n.fraction| - 1] != '0')
    && (n.neg ==> Val(n.whole + n.fraction) != 0)
  }

  /** The number that a numeral stands for. */
  function Meaning(n: Numeral): Decimal
    requires AllDigits(n.whole) && AllDigits(n.fraction)
  {
    Decimal(n.neg, Val(n.whole + n.fraction), -|n.fraction|)
  }

  function Spelt(n: Numeral): string {
    (if n.neg then "-" else "") + (n.whole + if n.fraction == "" then "" else "." + n.fraction)
  }

  ghost predicate IsNumber(d: Decimal, s: string) {
    exists n: Numeral :: IsShortest(n) && s == Spelt(n) && SameNumber(d, Meaning(n))
  }

  // ---------- values (sections 3 to 5) ----------

  /** `s` is the document `v`. */
  ghost predicate IsValue(v: Json, s: string)
    decreases v
  {
    match v
    case Null => s == "null"
    case Bool(b) => s == if b then "true" else "false"
    case Str(t) => IsString(t, s)
    case Num(d) => IsNumber(d, s)
    case List(_) => |s| >= 2 && s[0] == '[' && s[|s| - 1] == ']' && IsItems(v, 0, s[1..|s| - 1])
    case Object(m) =>
      && |s| >= 2 && s[0] == '{' && s[|s| - 1] == '}'
      && exists keys: seq<Text> :: Lists(keys, m.Keys) && IsMembers(v, keys, 0, s[1..|s| - 1])
  }

  /** The items from `k` on, a comma between any two. */
  ghost predicate IsItems(v: Json, k: nat, s: string)
    requires v.List? && k <= |v.items|
    decreases v, |v.items| - k
  {
    if k == |v.items| then s == ""
    else if k == |v.items| - 1 then IsValue(v.items[k], s)
    else exists n: nat :: n < |s| && IsValue(v.items[k], s[..n]) && s[n] == ',' && IsItems(v, k + 1, s[n + 1..])
  }

  /** The member of `key`: its string, a colon, its value. */
  ghost predicate IsMember(v: Json, key: Text, s: string)
    requires v.Object? && key in v.members
    decreases v, 0
  {
    exists n: nat :: n < |s| && IsString(key, s[..n]) && s[n] == ':' && IsValue(v.members[key], s[n + 1..])
  }

  /** The members of the keys from `k` on, a comma between any two. */
  ghost predicate IsMembers(v: Json, keys: seq<Text>, k: nat, s: string)
    requires v.Object? && k <= |keys| && forall i :: 0 <= i < |keys| ==> keys[i] in v.members
    decreases v, |keys| - k + 1
  {
    if k == |keys| then s == ""
    else if k == |keys| - 1 then IsMember(v, keys[k], s)
    else exists n: nat ::
        n < |s| && IsMember(v, keys[k], s[..n]) && s[n] == ',' && IsMembers(v, keys, k + 1, s[n + 1..])
  }

  // ---------- strings: one text each ----------

  lemma HexDigit(n: int)
    requires 0 <= n < 16
    ensures HexChar(n) == HEX[n]
  {}

  lemma Hex4Is(h: string, n: int)
    requires 0 <= n < 65536
    ensures IsHex4(h, n) <==> h == Hex4(n)
  {
    HexDigit(n / 4096);
    HexDigit(n / 256 % 16);
    HexDigit(n / 16 % 16);
    HexDigit(n % 16);
    hide HexChar, HEX;
    if IsHex4(h, n) { assert h == [h[0], h[1], h[2], h[3]]; }
  }

  lemma ShortIs(c: int)
    requires IsScalar(c)
    ensures c in SHORT ==> Escape(c) == ['\\', SHORT[c]]
    ensures c !in SHORT ==> Escape(c) == if 0x20 <= c <= 0x7E then [c as char]
                                        else if c < 0x1_0000 then "\\u" + Hex4(c)
                                        else "\\u" + Hex4(0xD800 + (c - 0x1_0000) / 0x400)
                                             + "\\u" + Hex4(0xDC00 + (c - 0x1_0000) % 0x400)
  {
    hide Hex4;
  }

  lemma UnitsUnique(c: int, high: int, low: int)
    requires 0x1_0000 <= c < 0x11_0000 && 0xD800 <= high < 0xDC00 && 0xDC00 <= low < 0xE000
    ensures c == 0x1_0000 + 0x400 * (high - 0xD800) + (low - 0xDC00) <==>
              high == 0xD800 + (c - 0x1_0000) / 0x400 && low == 0xDC00 + (c - 0x1_0000) % 0x400
  {}

  lemma LongIs(c: int, s: string)
    requires IsScalar(c) && c >= 0x1_0000
    ensures IsChar(c, s) <==> s == Escape(c)
  {
    var high, low := 0xD800 + (c - 0x1_0000) / 0x400, 0xDC00 + (c - 0x1_0000) % 0x400;
    ShortIs(c);
    UnitsUnique(c, high, low);
    Hex4Is(Hex4(high), high);
    Hex4Is(Hex4(low), low);
    hide Hex4, Escape, IsHex4, HEX;
    PairParts(Hex4(high), Hex4(low));
    if IsChar(c, s) { LongRead(c, s, high, low); }
  }

  lemma LongRead(c: int, s: string, high: int, low: int)
    requires IsScalar(c) && c >= 0x1_0000 && IsChar(c, s)
    requires high == 0xD800 + (c - 0x1_0000) / 0x400 && low == 0xDC00 + (c - 0x1_0000) % 0x400
    ensures s == "\\u" + Hex4(high) + "\\u" + Hex4(low)
  {
    hide Hex4, IsHex4, HEX;
    var h: int, l: int :| 0xD800 <= h < 0xDC00 && 0xDC00 <= l < 0xE000
                          && c == 0x1_0000 + 0x400 * (h - 0xD800) + (l - 0xDC00)
                          && IsHex4(s[2..6], h) && IsHex4(s[8..], l);
    UnitsUnique(c, h, l);
    Hex4Is(s[2..6], high);
    Hex4Is(s[8..], low);
    PairWhole(s);
  }

  lemma PairParts(h: string, l: string)
    requires |h| == 4 && |l| == 4
    ensures var e := "\\u" + h + "\\u" + l;
            |e| == 12 && e[..2] == "\\u" && e[2..6] == h && e[6..8] == "\\u" && e[8..] == l
  {}

  lemma PairWhole(s: string)
    requires |s| == 12 && s[..2] == "\\u" && s[6..8] == "\\u"
    ensures s == "\\u" + s[2..6] + "\\u" + s[8..]
  {
    assert s == s[..2] + s[2..6] + s[6..8] + s[8..];
  }

  lemma CharIs(c: int, s: string)
    requires IsScalar(c)
    ensures IsChar(c, s) <==> s == Escape(c)
  {
    if c >= 0x1_0000 {
      LongIs(c, s);
    } else {
      ShortIs(c);
      hide Hex4, Escape, IsHex4, HEX;
      if c !in SHORT && !(0x20 <= c < 0x7F) {
        var e := "\\u" + Hex4(c);
        assert e[..2] == "\\u" && e[2..] == Hex4(c);
        Hex4Is(Hex4(c), c);
        if IsChar(c, s) {
          Hex4Is(s[2..], c);
          assert s == s[..2] + s[2..];
        }
      }
    }
  }

  lemma {:induction false} CharsAre(t: Text, s: string)
    requires IsText(t)
    ensures IsChars(t, s) <==> s == EscapeAll(t)
    decreases |t|
  {
    hide Escape, IsChar;
    if t != [] {
      if IsChars(t, s) {
        var n: nat :| n <= |s| && IsChar(t[0], s[..n]) && IsChars(t[1..], s[n..]);
        CharIs(t[0], s[..n]);
        CharsAre(t[1..], s[n..]);
        assert s == s[..n] + s[n..];
      }
      if s == EscapeAll(t) {
        var n := |Escape(t[0])|;
        assert s[..n] == Escape(t[0]) && s[n..] == EscapeAll(t[1..]);
        CharIs(t[0], s[..n]);
        CharsAre(t[1..], s[n..]);
      }
    }
  }

  lemma StringIs(t: Text, s: string)
    requires IsText(t)
    ensures IsString(t, s) <==> s == Quote(t)
  {
    hide EscapeAll, IsChars;
    if |s| >= 2 { CharsAre(t, s[1..|s| - 1]); }
    if IsString(t, s) { assert s == "\"" + (s[1..|s| - 1] + "\""); }
    if s == Quote(t) { assert s[1..|s| - 1] == EscapeAll(t); }
  }

  // ---------- numbers: one text each ----------

  lemma {:induction false} DigitsVal(t: string)
    requires AllDigits(t)
    ensures Val(t) < Pow10(|t|) && Digits(Val(t), |t|) == t
    decreases |t|
  {
    if t != "" {
      var init, d := t[..|t| - 1], DigitOf(t[|t| - 1]);
      DigitsVal(init);
      assert Val(t) / 10 == Val(init) && Val(t) % 10 == d;
      assert DigitChar(d) == t[|t| - 1];
      assert t == init + [t[|t| - 1]];
    }
  }

  lemma {:induction false} FirstDigit(m: nat, n: nat)
    requires 0 < n && m < Pow10(n)
    ensures Digits(m, n)[0] == '0' <==> m < Pow10(n - 1)
    decreases n
  {
    if n > 1 {
      FirstDigit(m / 10, n - 1);
      assert m / 10 < Pow10(n - 2) <==> m < Pow10(n - 1);
    }
  }

  lemma {:induction false} NumDigitsIs(m: nat, n: nat)
    requires 0 < n && m < Pow10(n) && (n > 1 ==> m >= Pow10(n - 1))
    ensures NumDigits(m) == n
    decreases n
  {
    if n > 1 {
      Pow10Grows(1, n - 1);
      assert Pow10(1) == 10 * Pow10(0) == 10;
      assert m / 10 < Pow10(n - 1);
      assert n > 2 ==> m / 10 >= Pow10(n - 2);
      NumDigitsIs(m / 10, n - 1);
    }
  }

  lemma LastDigit(t: string)
    requires AllDigits(t) && t != ""
    ensures Val(t) % 10 == 0 <==> t[|t| - 1] == '0'
  {}

  lemma AppendDigits(x: string, y: string)
    requires AllDigits(x) && AllDigits(y)
    ensures AllDigits(x + y)
  {}

  /** A shortest numeral is the text of a reduced number. */
  lemma ShortestIs(n: Numeral)
    requires IsShortest(n)
    ensures var r := Normal(n.neg, Val(n.whole + n.fraction), |n.fraction|);
            Reduced(r) && Normalize(Meaning(n)) == r && NormalText(r) == Spelt(n)
  {
    var t, k := n.whole + n.fraction, |n.fraction|;
    var m := Val(t);
    AppendDigits(n.whole, n.fraction);
    DigitsVal(t);
    LastDigit(t);
    if k > 0 { assert t[|t| - 1] == n.fraction[k - 1]; }
    if Val(t) == 0 { ZeroMeans(t); }
    var r := Normal(n.neg, m, k);
    assert Reduced(r);
    NormalizeReduced(r);
    WidthIs(t, |n.whole|);
    hide Digits, Val, NumDigits;
    if k == 0 {
      assert t == n.whole;
    } else {
      assert t[..|t| - k] == n.whole && t[|t| - k..] == n.fraction;
    }
  }

  lemma ZeroMeans(t: string)
    requires AllDigits(t) && t != "" && Val(t) == 0
    ensures t[|t| - 1] == '0'
  {}

  lemma NormalizeReduced(r: Normal)
    requires Reduced(r)
    ensures Normalize(Decimal(r.neg, r.m, -(r.places as int))) == r
  {
    assert Pow10(0) == 1;
  }

  /** The digits of a numeral are as many as its number needs. */
  lemma WidthIs(t: string, w: nat)
    requires AllDigits(t) && 0 < w <= |t| && (t[0] == '0' ==> w == 1)
    ensures var m, k := Val(t), |t| - w;
            Digits(m, |t|) == t && |t| == if k == 0 then NumDigits(m) else Width(m, k)
  {
    hide Val, Digits, Pow10, NumDigits, Width;
    DigitsVal(t);
    FirstDigit(Val(t), |t|);
    CountDigits(Val(t), |t|, t[0] == '0', w);
  }

  lemma CountDigits(m: nat, n: nat, zero: bool, w: nat)
    requires 0 < w <= n && m < Pow10(n) && (zero <==> m < Pow10(n - 1)) && (zero ==> w == 1)
    ensures n == if n == w then NumDigits(m) else Width(m, n - w)
  {
    if !zero || n == 1 {
      hide Pow10;
      NumDigitsIs(m, n);
    } else {
      hide Pow10, NumDigits;
      FewDigits(m, n - 1);
    }
  }

  lemma LeadingDigit(m: nat)
    ensures Dec(m)[0] == '0' ==> m == 0
  {
    NumDigitsFits(m);
    FirstDigit(m, NumDigits(m));
  }

  lemma ZeroText()
    ensures Dec(0) == "0"
  {
    assert Digits(0, 1) == Digits(0, 0) + "0";
  }

  lemma WholeDigits(m: nat)
    ensures var x := Dec(m); x != "" && AllDigits(x) && Val(x) == m && (x[0] == '0' ==> |x| == 1)
  {
    ValDec(m);
    LeadingDigit(m);
    ZeroText();
  }

  lemma WholeIs(r: Normal, x: string)
    requires Reduced(r) && r.places == 0 && x == Dec(r.m) && x != "" && AllDigits(x) && Val(x) == r.m
    requires x[0] == '0' ==> |x| == 1
    ensures var n := Numeral(r.neg, x, "");
            IsShortest(n) && Spelt(n) == NormalText(r) && Meaning(n) == Decimal(r.neg, r.m, 0)
  {
    hide Dec, Val;
    assert x + "" == x;
  }

  /** And the text of a reduced number is a shortest numeral. */
  lemma ReducedIs(r: Normal) returns (n: Numeral)
    requires Reduced(r)
    ensures IsShortest(n) && Spelt(n) == NormalText(r) && Meaning(n) == Decimal(r.neg, r.m, -(r.places as int))
  {
    hide *;
    if r.places == 0 {
      n := Numeral(r.neg, Dec(r.m), "");
      WholeDigits(r.m);
      WholeIs(r, Dec(r.m));
    } else {
      n := DottedIs(r);
    }
  }

  lemma DottedIs(r: Normal) returns (n: Numeral)
    requires Reduced(r) && r.places > 0
    ensures IsShortest(n) && Spelt(n) == NormalText(r) && Meaning(n) == Decimal(r.neg, r.m, -(r.places as int))
  {
    hide Digits, Val, Pow10, NumDigits;
    var d := Digits(r.m, Width(r.m, r.places));
    var w := |d| - r.places;
    n := Numeral(r.neg, d[..w], d[w..]);
    WidthVal(r.m, r.places);
    LastDigit(d);
    FrontDigit(r.m, r.places);
    assert n.whole + n.fraction == d && d[0] == n.whole[0] && n.fraction[r.places - 1] == d[|d| - 1];
  }

  lemma FrontDigit(m: nat, k: nat)
    ensures var d := Digits(m, Width(m, k)); d[0] == '0' && m > 0 ==> |d| == k + 1
  {
    var d := Digits(m, Width(m, k));
    NumDigitsFits(m);
    Pow10Grows(NumDigits(m), |d|);
    FirstDigit(m, |d|);
    hide Digits, Val, NumDigits;
  }

  lemma NumberIs(d: Decimal, s: string)
    ensures IsNumber(d, s) <==> s == Render(d)
  {
    hide Render, NormalText, Normalize, Spelt, SameNumber, Meaning, Reduced;
    RenderNormal(d);
    if IsNumber(d, s) {
      var n: Numeral :| IsShortest(n) && s == Spelt(n) && SameNumber(d, Meaning(n));
      ShortestIs(n);
      SameNumberNormal(d, Meaning(n));
    }
    if s == Render(d) {
      NormalizedIsReduced(d);
      var n := ReducedIs(Normalize(d));
      NormalizeReduced(Normalize(d));
      SameNumberNormal(d, Meaning(n));
    }
  }

  lemma NormalizedIsReduced(d: Decimal)
    ensures Reduced(Normalize(d))
  {}

  // ---------- documents: one text each ----------

  /** `s` is a whole text between two brackets. */
  lemma Bracketed(s: string, open: char, body: string, close: char)
    ensures s == [open] + (body + [close]) <==>
              |s| >= 2 && s[0] == open && s[|s| - 1] == close && s[1..|s| - 1] == body
  {
    if |s| >= 2 { assert s == [s[0]] + (s[1..|s| - 1] + [s[|s| - 1]]); }
    if s == [open] + (body + [close]) { assert s[1..|s| - 1] == body; }
  }

  /** `s` is a text, a mark and a rest. */
  lemma Parted(s: string, x: string, mark: char, y: string)
    ensures s == x + ([mark] + y) <==> |x| < |s| && s[..|x|] == x && s[|x|] == mark && s[|x| + 1..] == y
  {
    if |x| < |s| { assert s == s[..|x|] + ([s[|x|]] + s[|x| + 1..]); }
    if s == x + ([mark] + y) { assert s[..|x|] == x && s[|x| + 1..] == y; }
  }

  /** The items from `k` on, without the comma before the first of them. */
  ghost function ItemsText(v: Json, k: nat): string
    requires v.List? && IsEncodable(v) && k < |v.items|
  {
    Enc(v.items[k]) + EncItems(v, k + 1)
  }

  lemma {:induction false} ItemsAre(v: Json, k: nat, s: string)
    requires v.List? && IsEncodable(v) && k < |v.items|
    ensures IsItems(v, k, s) <==> s == ItemsText(v, k)
    decreases v, |v.items| - k
  {
    hide Enc, IsValue;
    assert IsEncodable(v.items[k]);
    if k == |v.items| - 1 {
      ValueIs(v.items[k], s);
      assert EncItems(v, k + 1) == "" && Enc(v.items[k]) + "" == Enc(v.items[k]);
    } else {
      assert IsEncodable(v.items[k + 1]);
      assert EncItems(v, k + 1) == [','] + ItemsText(v, k + 1);
      var x := Enc(v.items[k]);
      Parted(s, x, ',', ItemsText(v, k + 1));
      if IsItems(v, k, s) {
        var n: nat :| n < |s| && IsValue(v.items[k], s[..n]) && s[n] == ',' && IsItems(v, k + 1, s[n + 1..]);
        ValueIs(v.items[k], s[..n]);
        ItemsAre(v, k + 1, s[n + 1..]);
      }
      if s == x + ([','] + ItemsText(v, k + 1)) {
        ValueIs(v.items[k], s[..|x|]);
        ItemsAre(v, k + 1, s[|x| + 1..]);
      }
    }
  }

  ghost function MemberText(v: Json, key: Text): string
    requires v.Object? && IsEncodable(v) && key in v.members
  {
    Quote(key) + ([':'] + Enc(v.members[key]))
  }

  lemma {:induction false} MemberIs(v: Json, key: Text, s: string)
    requires v.Object? && IsEncodable(v) && key in v.members
    ensures IsMember(v, key, s) <==> s == MemberText(v, key)
    decreases v, 0
  {
    assert IsText(key) && IsEncodable(v.members[key]);
    hide Enc, IsValue, Quote, IsString, IsEncodable, IsText;
    var x := Quote(key);
    Parted(s, x, ':', Enc(v.members[key]));
    if IsMember(v, key, s) {
      var n: nat :| n < |s| && IsString(key, s[..n]) && s[n] == ':' && IsValue(v.members[key], s[n + 1..]);
      StringIs(key, s[..n]);
      ValueIs(v.members[key], s[n + 1..]);
    }
    if s == MemberText(v, key) {
      StringIs(key, s[..|x|]);
      ValueIs(v.members[key], s[|x| + 1..]);
    }
  }

  ghost function MembersText(v: Json, keys: seq<Text>, k: nat): string
    requires v.Object? && IsEncodable(v) && k < |keys| && forall i :: 0 <= i < |keys| ==> keys[i] in v.members
  {
    MemberText(v, keys[k]) + EncMembers(v, keys, k + 1)
  }

  lemma NextMembers(v: Json, keys: seq<Text>, k: nat)
    requires v.Object? && IsEncodable(v) && k <= |keys| && forall i :: 0 <= i < |keys| ==> keys[i] in v.members
    ensures EncMembers(v, keys, k) == if k == |keys| then "" else Separator(k) + MembersText(v, keys, k)
  {
    hide Enc, Quote;
    if k < |keys| {
      var q, e, rest := Quote(keys[k]), Enc(v.members[keys[k]]), EncMembers(v, keys, k + 1);
      assert q + ([':'] + e) + rest == q + (":" + (e + rest));
    }
  }

  lemma {:induction false} MembersAre(v: Json, keys: seq<Text>, k: nat, s: string)
    requires v.Object? && IsEncodable(v) && k < |keys| && forall i :: 0 <= i < |keys| ==> keys[i] in v.members
    ensures IsMembers(v, keys, k, s) <==> s == MembersText(v, keys, k)
    decreases v, |keys| - k + 1
  {
    hide Enc, IsValue, Quote, IsString, IsMember, MemberText, EncMembers;
    NextMembers(v, keys, k + 1);
    var x := MemberText(v, keys[k]);
    if k == |keys| - 1 {
      MemberIs(v, keys[k], s);
      assert x + "" == x;
    } else {
      Parted(s, x, ',', MembersText(v, keys, k + 1));
      if IsMembers(v, keys, k, s) {
        var n: nat :| n < |s| && IsMember(v, keys[k], s[..n]) && s[n] == ',' && IsMembers(v, keys, k + 1, s[n + 1..]);
        MemberIs(v, keys[k], s[..n]);
        MembersAre(v, keys, k + 1, s[n + 1..]);
      }
      if s == x + ([','] + MembersText(v, keys, k + 1)) {
        MemberIs(v, keys[k], s[..|x|]);
        MembersAre(v, keys, k + 1, s[|x| + 1..]);
      }
    }
  }

  lemma {:induction false} ListIs(v: Json, s: string)
    requires v.List? && IsEncodable(v)
    ensures IsValue(v, s) <==> s == Enc(v)
    decreases v, |v.items| + 1
  {
    hide EncItems, IsItems;
    Bracketed(s, '[', EncItems(v, 0), ']');
    if |s| >= 2 { InsideList(v, s[1..|s| - 1]); }
  }

  lemma {:induction false} InsideList(v: Json, body: string)
    requires v.List? && IsEncodable(v)
    ensures IsItems(v, 0, body) <==> body == EncItems(v, 0)
    decreases v, |v.items| + 1, 0
  {
    hide Enc;
    if v.items != [] {
      ItemsAre(v, 0, body);
      assert EncItems(v, 0) == "" + ItemsText(v, 0) == ItemsText(v, 0);
    }
  }

  lemma {:induction false} ObjectIs(v: Json, s: string)
    requires v.Object? && IsEncodable(v)
    ensures IsValue(v, s) <==> s == Enc(v)
    decreases v, |Sorted(v.members.Keys)| + 3
  {
    hide EncMembers, IsMembers;
    var keys := Sorted(v.members.Keys);
    Bracketed(s, '{', EncMembers(v, keys, 0), '}');
    if |s| >= 2 { InsideObject(v, keys, s[1..|s| - 1]); }
    if IsValue(v, s) {
      var q: seq<Text> :| Lists(q, v.members.Keys) && IsMembers(v, q, 0, s[1..|s| - 1]);
      ListsUnique(q, keys, v.members.Keys);
    }
  }

  lemma {:induction false} InsideObject(v: Json, keys: seq<Text>, body: string)
    requires v.Object? && IsEncodable(v) && forall i :: 0 <= i < |keys| ==> keys[i] in v.members
    ensures IsMembers(v, keys, 0, body) <==> body == EncMembers(v, keys, 0)
    decreases v, |keys| + 2
  {
    hide Enc, Quote;
    NextMembers(v, keys, 0);
    if keys != [] {
      MembersAre(v, keys, 0, body);
      assert "" + MembersText(v, keys, 0) == MembersText(v, keys, 0);
    }
  }

  /** The canonical text of a document is the one text of the grammar for it. */
  lemma {:induction false} ValueIs(v: Json, s: string)
    requires IsEncodable(v)
    ensures IsValue(v, s) <==> s == Enc(v)
    decreases v, if v.Object? then |Sorted(v.members.Keys)| + 4 else if v.List? then |v.items| + 2 else 0
  {
    match v {
      case Null =>
      case Bool(_) =>
      case Str(t) => StringIs(t, s);
      case Num(d) => NumberIs(d, s);
      case List(_) => ListIs(v, s);
      case Object(_) => ObjectIs(v, s);
    }
  }
}
