/** What the headers decide about the framing of a body, and what a chunk line and a trailer line are refused for. */
module ChunkedFraming {
  import opened Bytes
  import opened Decimals
  import opened Chunked

  predicate Blanks(t: string, i: nat, j: nat) { j <= |t| && forall k :: i <= k < j ==> IsBlank(t[k]) }

  /** `core` stands at `n` in `t`, with nothing but blanks around it. */
  predicate TrimmedAt(t: string, core: string, n: nat) {
    At(t, n, core) && Blanks(t, 0, n) && Blanks(t, n + |core|, |t|)
  }

  /** `core` is `t` without the blanks around it. */
  ghost predicate Trims(t: string, core: string) {
    && (core != "" ==> !IsBlank(core[0]) && !IsBlank(core[|core| - 1])) && exists n: nat :: TrimmedAt(t, core, n)
  }

  lemma {:induction false} StripTrims(t: string) returns (n: nat)
    ensures TrimmedAt(t, Strip(t), n)
    ensures Strip(t) != "" ==> !IsBlank(Strip(t)[0]) && !IsBlank(Strip(t)[|Strip(t)| - 1])
    decreases |t|
  {
    if t != "" && IsBlank(t[0]) {
      n := StripTrims(t[1..]);
      TrimFront(t, Strip(t), n);
      n := n + 1;
    } else if t != "" && IsBlank(t[|t| - 1]) {
      n := StripTrims(t[..|t| - 1]);
      TrimBack(t, Strip(t), n);
    } else {
      n := 0;
      assert t[0..0 + |t|] == t;
    }
  }

  lemma TrimFront(t: string, core: string, n: nat)
    requires t != "" && IsBlank(t[0]) && TrimmedAt(t[1..], core, n)
    ensures TrimmedAt(t, core, n + 1)
  {
    hide IsBlank;
    SliceSlice(t, 1, |t|, n, n + |core|);
    assert t[1..|t|] == t[1..];
    forall k | 0 <= k < n + 1 ensures IsBlank(t[k]) { if k > 0 { assert t[1..][k - 1] == t[k]; } }
    forall k | n + 1 + |core| <= k < |t| ensures IsBlank(t[k]) { assert t[1..][k - 1] == t[k]; }
  }

  lemma TrimBack(t: string, core: string, n: nat)
    requires t != "" && IsBlank(t[|t| - 1]) && TrimmedAt(t[..|t| - 1], core, n)
    ensures TrimmedAt(t, core, n)
  {
    hide IsBlank;
    SliceSlice(t, 0, |t| - 1, n, n + |core|);
    forall k | 0 <= k < n ensures IsBlank(t[k]) { assert t[..|t| - 1][k] == t[k]; }
    forall k | n + |core| <= k < |t| ensures IsBlank(t[k]) { if k < |t| - 1 { assert t[..|t| - 1][k] == t[k]; } }
  }

  lemma StripIs(t: string)
    ensures Trims(t, Strip(t))
  {
    hide Strip, TrimmedAt;
    var n := StripTrims(t);
  }

  lemma TrimsUnique(t: string, x: string, y: string)
    requires Trims(t, x) && Trims(t, y)
    ensures x == y
  {
    hide TrimmedAt, IsBlank;
    var n: nat :| TrimmedAt(t, x, n);
    var m: nat :| TrimmedAt(t, y, m);
    if x != "" { InsideTrim(t, x, n, y, m); }
    if y != "" { InsideTrim(t, y, m, x, n); }
    if x != "" && y != "" { SameTrim(t, x, y, n); }
  }

  lemma SameTrim(t: string, x: string, y: string, n: nat)
    requires TrimmedAt(t, x, n) && TrimmedAt(t, y, n) && |x| == |y|
    ensures x == y
  {}

  /** The first and the last character of a trimmed text lie in every other trim. */
  lemma InsideTrim(t: string, x: string, n: nat, y: string, m: nat)
    requires TrimmedAt(t, x, n) && x != "" && !IsBlank(x[0]) && !IsBlank(x[|x| - 1]) && TrimmedAt(t, y, m)
    ensures m <= n && n + |x| <= m + |y| && (y != "" || |x| == 0)
  {
    hide IsBlank;
    AtChar(t, n, x, 0);
    AtChar(t, n, x, |x| - 1);
  }

  // ---------- the headers ----------

  /** More than one header of either kind, or both kinds, are refused; chunked coding is the only coding; without either
      header there is no body; and a length is plain digits, not too many and not too much. */
  lemma FramingExactly(lengths: seq<string>, transfers: seq<string>, data: string, pos: nat, core: string)
    requires pos <= |data|
    ensures |lengths| > 1 || |transfers| > 1 || (|lengths| == 1 && |transfers| == 1) ==>
              Body(lengths, transfers, data, pos) == Fail(400)
    ensures lengths == [] && transfers == [] ==> Body(lengths, transfers, data, pos) == Got("", pos)
    ensures lengths == [] && |transfers| == 1 && Trims(transfers[0], core) ==>
              Body(lengths, transfers, data, pos)
              == if Upper(core) == "CHUNKED" then Chunks(data, pos, "", 0, 0) else Fail(400)
    ensures transfers == [] && |lengths| == 1 && Trims(lengths[0], core) ==>
              Body(lengths, transfers, data, pos)
              == if core == "" || !AllDigits(core) then Fail(400)
                 else if |core| > 20 || Val(core) > 8388608 then Fail(413)
                 else if pos + Val(core) <= |data| then Got(data[pos..pos + Val(core)], pos + Val(core))
                 else Fail(400)
  {
    hide Chunks, Val, Strip, Upper, Trims;
    if |transfers| == 1 {
      StripIs(transfers[0]);
      if Trims(transfers[0], core) { TrimsUnique(transfers[0], core, Strip(transfers[0])); }
    }
    if |lengths| == 1 {
      StripIs(lengths[0]);
      if Trims(lengths[0], core) { TrimsUnique(lengths[0], core, Strip(lengths[0])); }
    }
  }

  // ---------- lines ----------

  /** A line is what stands before the first line feed, which follows a carriage return, in at most 1024 bytes. */
  lemma LineExactly(data: string, pos: nat, line: string)
    requires pos <= |data|
    ensures Line(data, pos) == Got(line, pos + |line|) <==>
              && 2 <= |line| <= 1024 && At(data, pos, line) && line[|line| - 2] == '\r' && line[|line| - 1] == '\n'
              && forall i :: 0 <= i < |line| - 1 ==> line[i] != '\n'
    ensures Line(data, pos).Fail? ==> Line(data, pos) == Fail(400)
  {
    var n := RunEnd(data, pos, c => c != '\n');
    if && At(data, pos, line) && 2 <= |line| && line[|line| - 1] == '\n'
       && (forall i :: 0 <= i < |line| - 1 ==> line[i] != '\n')
    {
      assert forall i :: 0 <= i < |line| ==> data[pos + i] == data[pos..pos + |line|][i] == line[i];
      forall k | pos <= k < pos + |line| - 1 ensures data[k] != '\n' { assert line[k - pos] != '\n'; }
      RunEndIs(data, pos, c => c != '\n', pos + |line| - 1);
      assert data[n - 1] == line[|line| - 2];
    }
    if Line(data, pos) == Got(line, pos + |line|) {
      assert forall i :: 0 <= i < |line| ==> line[i] == data[pos + i];
    }
  }

  /** Why a chunk line is refused: 413 when the framing or the announced size is too much, 400 when it is no chunk
      line. */
  lemma AnnouncementExactly(line: string, have: nat, framing: nat, size: string, rest: string)
    requires |line| >= 2 && have <= MAX_BODY && line[..|line| - 2] == size + rest
    requires (forall i :: 0 <= i < |size| ==> size[i] != ';') && (rest == "" || rest[0] == ';')
    ensures var isSize := size != "" && AllHex(size);
            var isExtension := forall i :: 1 <= i < |rest| ==> 32 <= rest[i] as int <= 126;
            Announcement(line, have, framing)
            == if framing + |line| + 2 > 65536 then Refused(413)
               else if !isSize || !isExtension then Refused(400)
               else if have + HexVal(size) > 8388608 then Refused(413)
               else Size(HexVal(size))
  {
    hide HexVal, Cut, After, IsExtension;
    CutIs(line[..|line| - 2], size, rest);
    ExtensionIs(rest);
  }

  lemma CutIs(t: string, size: string, rest: string)
    requires t == size + rest && (forall i :: 0 <= i < |size| ==> size[i] != ';') && (rest == "" || rest[0] == ';')
    ensures Cut(t, ';') == |size| && t[..|size|] == size && After(t, |size|) == if rest == "" then "" else rest[1..]
  {
    if rest == "" {
      assert t == size;
      CutAt(size, ';', "");
    } else {
      assert t == size + [';'] + rest[1..];
      CutAt(size, ';', rest[1..]);
    }
  }

  lemma ExtensionIs(rest: string)
    ensures IsExtension(if rest == "" then "" else rest[1..]) <==>
              forall i :: 1 <= i < |rest| ==> 32 <= rest[i] as int <= 126
  {
    if rest != "" && IsExtension(rest[1..]) {
      forall i | 1 <= i < |rest| ensures 32 <= rest[i] as int <= 126 { assert rest[1..][i - 1] == rest[i]; }
    }
  }

  /** Why a trailer line is refused: 413 beyond 16384 bytes or 32 lines, 400 when it is no trailer. */
  lemma JudgeExactly(line: string, used: nat, number: nat)
    requires |line| >= 2
    ensures Judge(line, used, number)
         == if used + |line| > 16384 then Deny(413)
            else if line == ['\r', '\n'] then End
            else if number >= 32 then Deny(413)
            else if IsTrailer(line[..|line| - 2]) then Skip
            else Deny(400)
  {}

  // ---------- sizes and trailers ----------

  function Pow16(n: nat): nat { if n == 0 then 1 else 16 * Pow16(n - 1) }

  /** One hexadecimal digit stands for its place among the sixteen, in either case. */
  lemma HexOne(c: char)
    requires AllHex([c])
    ensures HexVal([c]) < 16 && c in {"0123456789abcdef"[HexVal([c])], "0123456789ABCDEF"[HexVal([c])]}
  {
    assert HexVal([c]) == HexDigit(c) by { assert [c][..0] == ""; }
  }

  /** And digits stand for more the further left they are: with `HexOne` this determines what a size means. */
  lemma {:induction false} HexConcat(a: string, b: string)
    requires AllHex(a) && AllHex(b)
    ensures AllHex(a + b) && HexVal("") == 0 && HexVal(a + b) == HexVal(a) * Pow16(|b|) + HexVal(b)
    decreases |b|
  {
    if b == "" {
      assert a + b == a;
    } else {
      var init := b[..|b| - 1];
      assert (a + b)[..|a + b| - 1] == a + init && (a + b)[|a + b| - 1] == b[|b| - 1];
      HexConcat(a, init);
      Shifted(HexVal(a), Pow16(|init|));
      hide HexDigit;
    }
  }

  lemma Shifted(v: nat, p: nat)
    ensures 16 * (v * p) == v * (16 * p)
  {}

  const TOKEN_SIGNS: set<char> := {'!', '#', '$', '%', '&', '\'', '*', '+', '.', '^', '_', '`', '|', '~', '-'}

  predicate IsToken(c: char) { 'a' <= c <= 'z' || 'A' <= c <= 'Z' || '0' <= c <= '9' || c in TOKEN_SIGNS }

  /** The name of a trailer: a token that does not frame a message. */
  predicate IsName(t: string) {
    && t != "" && Lower(t) !in {"content-length", "transfer-encoding"}
    && forall i :: 0 <= i < |t| ==> IsToken(t[i])
  }

  /** A trailer is a name, a colon, and a value without control characters except tabs. */
  lemma TrailerExactly(t: string, name: string, rest: string)
    requires t == name + rest && (forall i :: 0 <= i < |name| ==> name[i] != ':') && (rest == "" || rest[0] == ':')
    ensures IsTrailer(t) <==>
              && IsName(name) && rest != ""
              && forall i :: 1 <= i < |rest| ==> rest[i] == '\t' || (rest[i] as int >= 32 && rest[i] as int != 127)
  {
    hide Cut, IsName, IsTrailerName;
    NameExactly(name);
    if rest == "" {
      assert t == name;
      CutAt(name, ':', "");
    } else {
      assert t == name + [':'] + rest[1..];
      CutAt(name, ':', rest[1..]);
      assert t[..|name|] == name && t[|name| + 1..] == rest[1..];
      ValueExactly(rest);
    }
  }

  lemma ValueExactly(rest: string)
    requires rest != ""
    ensures IsTrailerValue(rest[1..]) <==>
              forall i :: 1 <= i < |rest| ==> rest[i] == '\t' || (rest[i] as int >= 32 && rest[i] as int != 127)
  {
    if IsTrailerValue(rest[1..]) {
      forall i | 1 <= i < |rest| ensures rest[i] == '\t' || (rest[i] as int >= 32 && rest[i] as int != 127) {
        assert rest[1..][i - 1] == rest[i];
      }
    }
  }

  lemma NameExactly(t: string)
    ensures IsTrailerName(t) <==> IsName(t)
  {
    NameFolds(t);
    forall i | 0 <= i < |t| ensures IsTokenChar(t[i]) <==> IsToken(t[i]) { TokenExactly(t[i]); }
    hide Upper, Lower, IsTokenChar, IsToken;
  }

  lemma TokenExactly(c: char)
    ensures IsTokenChar(c) <==> IsToken(c)
  {}

  lemma NameFolds(t: string)
    ensures Lower(t) in {"content-length", "transfer-encoding"} <==>
              Upper(t) == "CONTENT-LENGTH" || Upper(t) == "TRANSFER-ENCODING"
  {
    CaseFolds(t, "CONTENT-LENGTH", "content-length");
    CaseFolds(t, "TRANSFER-ENCODING", "transfer-encoding");
  }

  predicate Folds(upper: char, lower: char) { UpperChar(lower) == upper && LowerChar(upper) == lower }

  lemma CaseFolds(t: string, upper: string, lower: string)
    requires |upper| == |lower| && forall i :: 0 <= i < |upper| ==> Folds(upper[i], lower[i])
    ensures Upper(t) == upper <==> Lower(t) == lower
  {
    var u, l := Upper(t), Lower(t);
    hide UpperChar, LowerChar, Upper, Lower, Folds;
    if |t| == |upper| {
      forall i | 0 <= i < |t| ensures u[i] == upper[i] <==> l[i] == lower[i] { OneFolds(t[i], upper[i], lower[i]); }
    }
  }

  lemma OneFolds(c: char, upper: char, lower: char)
    requires Folds(upper, lower)
    ensures UpperChar(c) == upper <==> LowerChar(c) == lower
  {}
}
