/** What a literal holds does not matter: replacing one span of an accepted query by another of its kind. */
module SqlLiterals {
  import opened Bytes
  import opened SqlLexicon
  import opened SqlLocality
  import opened SqlShape
  import opened SqlGrammar
  import opened SqlSpans

  /** `s'` is `s` with the characters from `a` to `b` replaced by `q`. */
  ghost predicate Spliced(s: string, a: nat, b: nat, q: string, s': string) {
    && a < b <= |s| && q != "" && |s'| == a + |q| + (|s| - b)
    && s'[..a] == s[..a] && s'[a..a + |q|] == q && s'[a + |q|..] == s[b..]
  }

  /** Total length of the first `k` spans. */
  function Offset(ls: seq<Lexeme>, k: nat): nat
    requires k <= |ls|
  {
    if k == 0 then 0 else |ls[0].source| + Offset(ls[1..], k - 1)
  }

  // ---------- after the replaced span ----------

  /** From `m` in `s` and `m'` in `s'` the same text follows; one character further on the context is the same too. */
  ghost predicate SameRest(s: string, m: nat, s': string, m': nat) {
    && m <= |s| && m' <= |s'| && |s| - m == |s'| - m'
    && (forall k :: m <= k < |s| ==> s[k] == s'[k - m + m'])
    && (m < |s| ==> ContextAt(s, m + 1) == ContextAt(s', m' + 1))
  }

  lemma SameTail(s: string, m: nat, s': string, m': nat, j: nat, n: nat)
    requires SameRest(s, m, s', m') && m + j + n <= |s|
    ensures s[m + j..] == s'[m' + j..] && s[m + j..m + j + n] == s'[m' + j..m' + j + n]
  {
    var x, y := s[m + j..], s'[m' + j..];
    forall k | 0 <= k < |x| ensures x[k] == y[k] { assert s[m + j + k] == s'[m + j + k - m + m']; }
    assert x == y;
    assert s[m + j..m + j + n] == x[..n] && s'[m' + j..m' + j + n] == y[..n];
  }

  lemma SameContextAfter(s: string, m: nat, s': string, m': nat, j: nat)
    requires SameRest(s, m, s', m') && 0 < j && m + j <= |s|
    ensures ContextAt(s, m + j) == ContextAt(s', m' + j)
  {
    if j > 1 { assert s[m + j - 1] == s'[m + j - 1 - m + m'] && s[m + j - 2] == s'[m + j - 2 - m + m']; }
  }

  lemma SameStep(s: string, i: nat, s': string, i': nat, step: Step)
    requires i < |s| && i' < |s'|
    requires step == Lex(ContextAt(s, i), s[i..]) && step == Lex(ContextAt(s', i'), s'[i'..])
    requires step.Span? ==> s[i..i + step.len] == s'[i'..i' + step.len]
    requires step.Span? ==> Lexemes(s, i + step.len) == Lexemes(s', i' + step.len)
    ensures Lexemes(s, i) == Lexemes(s', i')
  { hide Lex; }

  lemma {:induction false} SameLexemes(s: string, m: nat, s': string, m': nat, j: nat)
    requires SameRest(s, m, s', m') && m + j <= |s|
    requires j == 0 ==> m == |s| || Lex(ContextAt(s, m), s[m..]) == Lex(ContextAt(s', m'), s[m..])
    ensures Lexemes(s, m + j) == Lexemes(s', m' + j)
    decreases |s| - m - j
  {
    hide Lex, ContextAt;
    assert |s| - m == |s'| - m';
    if m + j < |s| {
      SameTail(s, m, s', m', j, 0);
      if j > 0 { SameContextAfter(s, m, s', m', j); }
      var step := Lex(ContextAt(s, m + j), s[m + j..]);
      if step.Span? {
        SameTail(s, m, s', m', j, step.len);
        SameLexemes(s, m, s', m', j + step.len);
      }
      SameStep(s, m + j, s', m' + j, step);
    }
  }

  // ---------- before the replaced span ----------

  /** `first` before what comes of the rest. */
  function Before(first: seq<Lexeme>, rest: Option<seq<Lexeme>>): Option<seq<Lexeme>> {
    match rest
    case None => None
    case Some(ls) => Some(first + ls)
  }

  lemma SameContext(s: string, s': string, a: nat, i: nat)
    requires i <= a <= |s| && a <= |s'| && s'[..a] == s[..a]
    ensures ContextAt(s', i) == ContextAt(s, i)
  {
    assert forall k :: 0 <= k < a ==> s'[..a][k] == s'[k] && s[..a][k] == s[k];
  }

  lemma LexemesStep(s: string, i: nat, step: Step)
    requires i < |s| && step.Span? && Lex(ContextAt(s, i), s[i..]) == step
    ensures Lexemes(s, i) == Before([Lexeme(step.kind, s[i..i + step.len], step.shown)], Lexemes(s, i + step.len))
  {
    hide Lex;
  }

  /** `q` starts like the text at `a`, or both start a number or a parameter where nothing can run into it. */
  predicate StartsAlike(s: string, a: nat, q: string)
    requires a < |s| && q != ""
  {
    q[0] == s[a] || (IsStarter(q[0]) && IsStarter(s[a]) && !ContextAt(s, a).glued)
  }

  /** The step at `i` does not see the replacement. */
  lemma LexBefore(s: string, a: nat, b: nat, q: string, s': string, i: nat, step: Step)
    requires Spliced(s, a, b, q, s') && StartsAlike(s, a, q) && i < a
    requires step == Lex(ContextAt(s, i), s[i..]) && step.Span? && i + step.len <= a
    ensures s'[i..i + step.len] == s[i..i + step.len] && Lex(ContextAt(s', i), s'[i..]) == step
  {
    hide Lex;
    SameContext(s, s', a, i);
    assert s'[i..a] == s'[..a][i..] && s[i..a] == s[..a][i..];
    assert s'[a] == s'[a..a + |q|][0];
    assert s[i..][a - i - 1] == s[a - 1] && s[i..][a - i] == s[a] && s'[i..][a - i] == q[0];
    if i + step.len < a { assert s'[i..a][step.len] == s[i..a][step.len]; }
    LexAgree(ContextAt(s, i), s[i..], s'[i..], if i + step.len < a then step.len else a - i);
    SliceSlice(s', i, a, 0, step.len);
    SliceSlice(s, i, a, 0, step.len);
  }

  lemma OffsetCons(ls: seq<Lexeme>, k: nat)
    requires 0 < k < |ls|
    ensures Offset(ls, k) == |ls[0].source| + Offset(ls[1..], k - 1) && ls[k] == ls[1..][k - 1]
    ensures ls[1..][k - 1..] == ls[k..]
  {}

  /** All that is known of the span at `k`. */
  ghost predicate SpanAt(s: string, a: nat, l: Lexeme, rest: seq<Lexeme>) {
    var b := a + |l.source|;
    && a < b <= |s| && WellFormed(l) && l.source == s[a..b] && Ends(l, Next(s, b))
    && Lex(ContextAt(s, a), s[a..]) == Span(l.kind, |l.source|, l.shown) && Lexemes(s, b) == Some(rest)
  }

  lemma SpanParts(s: string, a: nat, l: Lexeme, rest: seq<Lexeme>)
    requires SpanAt(s, a, l, rest)
    ensures 0 < |l.source| <= |s| - a && WellFormed(l) && l.source == s[a..a + |l.source|]
    ensures Ends(l, Next(s, a + |l.source|)) && Lexemes(s, a + |l.source|) == Some(rest)
    ensures Lex(ContextAt(s, a), s[a..]) == Span(l.kind, |l.source|, l.shown)
  {
    hide WellFormed, Ends, Lex, Lexemes, ContextAt, Next, Content, IsNumeral, IsDollarQuoted, IsBlockComment;
  }

  lemma FirstOfSpan(s: string, a: nat, l: Lexeme, rest: seq<Lexeme>)
    requires SpanAt(s, a, l, rest)
    ensures a < |s| && l.source != "" && l.source[0] == s[a] && WellFormed(l)
  {
    hide *;
    SpanParts(s, a, l, rest);
    assert s[a..a + |l.source|][0] == s[a];
  }

  lemma FirstSpan(s: string, i: nat) returns (l: Lexeme, rest: seq<Lexeme>)
    requires i < |s| && Lexemes(s, i).Some?
    ensures Lexemes(s, i) == Some([l] + rest) && SpanAt(s, i, l, rest)
    ensures l.source != "" && i + |l.source| <= |s| && Lexemes(s, i + |l.source|) == Some(rest)
    ensures Lex(ContextAt(s, i), s[i..]) == Span(l.kind, |l.source|, l.shown) && l.source == s[i..i + |l.source|]
  {
    hide Lex, Lexemes, WellFormed, Ends, ContextAt, Next;
    l, rest := FirstLexeme(s, i);
  }

  lemma SpansRemain(s: string, i: nat, ls: seq<Lexeme>)
    requires i <= |s| && Lexemes(s, i) == Some(ls) && ls != []
    ensures i < |s|
  {}

  lemma {:induction false} FindSpan(s: string, i: nat, ls: seq<Lexeme>, k: nat)
    requires i <= |s| && Lexemes(s, i) == Some(ls) && k < |ls|
    ensures SpanAt(s, i + Offset(ls, k), ls[k], ls[k + 1..])
    decreases k
  {
    hide Lex, Lexemes, SpanAt, ContextAt;
    SpansRemain(s, i, ls);
    var l, rest := FirstSpan(s, i);
    assert ls[0] == l && ls[1..] == rest;
    if k > 0 {
      OffsetCons(ls, k);
      FindSpan(s, i + |l.source|, rest, k - 1);
      assert rest[k..] == ls[k + 1..];
    }
  }

  lemma BeforeCons(l: Lexeme, ls: seq<Lexeme>, k: nat, tail: Option<seq<Lexeme>>)
    requires 0 < k <= |ls| && ls[0] == l
    ensures Before([l], Before(ls[1..][..k - 1], tail)) == Before(ls[..k], tail)
  {
    assert [l] + ls[1..][..k - 1] == ls[..k];
    if tail.Some? { assert [l] + (ls[1..][..k - 1] + tail.value) == ls[..k] + tail.value; }
  }

  /** The spans before the replaced one are read as they were. */
  lemma {:induction false} PrefixStays(s: string, a: nat, b: nat, q: string, s': string,
                                       i: nat, ls: seq<Lexeme>, k: nat)
    requires Spliced(s, a, b, q, s') && StartsAlike(s, a, q)
    requires i <= a && Lexemes(s, i) == Some(ls) && k < |ls| && a == i + Offset(ls, k)
    ensures Lexemes(s', i) == Before(ls[..k], Lexemes(s', a))
    decreases k
  {
    hide Lex, Lexemes, SpanAt, ContextAt, Spliced;
    SplicedLong(s, a, b, q, s');
    if k == 0 {
      assert Lexemes(s', a).Some? ==> [] + Lexemes(s', a).value == Lexemes(s', a).value;
    } else {
      var l, rest := FirstSpan(s, i);
      OffsetCons(ls, k);
      assert rest == ls[1..];
      PrefixStays(s, a, b, q, s', i + |l.source|, rest, k - 1);
      var step := Span(l.kind, |l.source|, l.shown);
      LexBefore(s, a, b, q, s', i, step);
      LexemesStep(s', i, step);
      BeforeCons(l, ls, k, Lexemes(s', a));
    }
  }

  lemma SplicedLong(s: string, a: nat, b: nat, q: string, s': string)
    requires Spliced(s, a, b, q, s')
    ensures q != "" && a < b <= |s| && a + |q| <= |s'| && |s'| - (a + |q|) == |s| - b && s'[a..a + |q|] == q
    ensures s'[..a] == s[..a]
    ensures s'[a..][..|q|] == q && s'[a + |q|..] == s[b..] && Next(s', a + |q|) == Next(s, b)
  {
    if b < |s| { assert s'[a + |q|..][0] == s[b..][0]; }
  }

  /** The whole effect of replacing the span at `k`, once it is known how the new one is read. */
  lemma SpanReplaced(s: string, a: nat, b: nat, q: string, s': string, ls: seq<Lexeme>, k: nat, l: Lexeme)
    requires Spliced(s, a, b, q, s') && StartsAlike(s, a, q)
    requires Lexemes(s, 0) == Some(ls) && k < |ls| && a == Offset(ls, k)
    requires Lex(ContextAt(s', a), s'[a..]) == Span(l.kind, |q|, l.shown) && l.source == q
    ensures a + |q| <= |s'| && Lexemes(s', 0) == Before(ls[..k] + [l], Lexemes(s', a + |q|))
  {
    hide Lex, Lexemes, Spliced, ContextAt, StartsAlike, Offset, Before;
    SplicedLong(s, a, b, q, s');
    NewSpan(s', a, q, l);
    PrefixStays(s, a, b, q, s', 0, ls, k);
    BeforeBefore(ls[..k], l, Lexemes(s', a + |q|));
  }

  lemma NewSpan(s: string, a: nat, q: string, l: Lexeme)
    requires a < |s| && a + |q| <= |s| && s[a..a + |q|] == q && l.source == q
    requires Lex(ContextAt(s, a), s[a..]) == Span(l.kind, |q|, l.shown)
    ensures Lexemes(s, a) == Before([l], Lexemes(s, a + |q|))
  {
    hide Lex, Lexemes, ContextAt;
    LexemesStep(s, a, Span(l.kind, |q|, l.shown));
  }

  lemma BeforeBefore(first: seq<Lexeme>, l: Lexeme, rest: Option<seq<Lexeme>>)
    ensures Before(first, Before([l], rest)) == Before(first + [l], rest)
  {
    if rest.Some? { assert first + ([l] + rest.value) == first + [l] + rest.value; }
  }

  // ---------- literals ----------

  /** A span whose content is free: quoted, dollar-quoted or a number. */
  predicate IsLiteral(l: Lexeme) { l.kind == Quoted || (l.kind == Hidden && !IsParameter(l.source)) }

  /** `q` can stand as a whole literal at position `a` of `s`: quoted or dollar-quoted as the literal there, or another
      number, which starts with a dot if that one is glued to what stands before it. */
  ghost predicate FitsAt(q: string, s: string, a: nat) {
    && a < |s| && q != "" && StartsAlike(s, a, q)
    && if s[a] == '$' then IsDollarText(q)
       else if IsQuote(s[a]) then IsQuoted(q, s[a] == '\'' && ContextAt(s, a).escaped)
       else IsNumber(q)
  }

  /** The span that a whole literal `q` makes. */
  function LiteralOf(q: string): Lexeme { Lexeme(if q != "" && IsQuote(q[0]) then Quoted else Hidden, q, "?") }

  lemma LiteralStart(l: Lexeme)
    requires IsLiteral(l) && WellFormed(l)
    ensures if IsQuote(l.source[0]) then l.kind == Quoted
            else l.kind == Hidden && if l.source[0] == '$' then IsDollarText(l.source) else IsNumber(l.source)
  {
    hide Content, IsNumeral;
  }

  lemma LexQuote(c: Context, t: string, n: nat)
    requires t != [] && IsQuote(t[0]) && QuoteEnd(t, 1, t[0], t[0] == '\'' && c.escaped) == Some(n)
    ensures Lex(c, t) == Span(Quoted, n, "?")
  {}

  lemma LexNumber(c: Context, t: string, n: nat)
    requires StartsNumber(t) && NumberEnd(t, 0) == Some(n)
    ensures Lex(c, t) == Span(Hidden, n, "?")
  {}

  lemma {:induction false} FindIs(t: string, i: nat, d: string, p: nat)
    requires i <= p && At(t, p, d) && forall k: nat :: i <= k < p ==> !At(t, k, d)
    ensures Find(t, i, d) == Some(p)
    decreases p - i
  {
    if i < p {
      assert !At(t, i, d);
      FindIs(t, i + 1, d, p);
    }
  }

  /** A dollar-quoted text is scanned to its end, whatever follows it. */
  lemma LexDollarQuoted(c: Context, u: string, q: string, n: nat)
    requires !c.glued && |q| <= |u| && u[..|q|] == q && IsDollarQuoted(q, n)
    ensures Lex(c, u) == Span(Hidden, |q|, "?")
  {
    DelimiterRead(u, q, n);
    DelimiterFound(u, q, n);
    hide DelimiterEnd, Find, IsDollarQuoted;
    assert u[0] == u[..|q|][0];
    LexDollarText(c, u, n, |q| - n);
  }

  lemma DelimiterRead(u: string, q: string, n: nat)
    requires |q| <= |u| && u[..|q|] == q && IsDollarQuoted(q, n)
    ensures DelimiterEnd(u, 0) == Some(n) && q[0] == '$'
  {
    assert forall k :: 0 <= k < |q| ==> u[k] == u[..|q|][k] == q[k];
    RunEndIs(u, 1, IsIdentContinue, n - 1);
  }

  lemma DelimiterFound(u: string, q: string, n: nat)
    requires |q| <= |u| && u[..|q|] == q && IsDollarQuoted(q, n)
    ensures n <= |q| - n && Find(u, n, u[..n]) == Some(|q| - n)
  {
    hide Find;
    assert u[..n] == q[..n];
    forall k: nat | n <= k < |q| - n ensures !At(u, k, u[..n]) {
      SliceSlice(u, 0, |q|, k, k + n);
      assert !At(q, k, q[..n]);
    }
    SliceSlice(u, 0, |q|, |q| - n, |q|);
    FindIs(u, n, u[..n], |q| - n);
  }

  lemma LexDollarText(c: Context, u: string, d: nat, p: nat)
    requires u != [] && u[0] == '$' && !c.glued && DelimiterEnd(u, 0) == Some(d) && d <= |u|
    requires Find(u, d, u[..d]) == Some(p)
    ensures Lex(c, u) == Span(Hidden, d + p, "?")
  {
    hide DelimiterEnd, Find;
  }

  /** A new literal is read to its end when the text after it is what stood after the old one. */
  lemma LexLiteral(c: Context, l: Lexeme, q: string, u: string)
    requires IsLiteral(l) && WellFormed(l) && Ends(l, Next(u, |q|)) && q != "" && Alike(q[0], l.source[0])
    requires |q| <= |u| && u[..|q|] == q && (l.source[0] == '$' ==> !c.glued)
    requires if l.source[0] == '$' then IsDollarText(q)
             else if IsQuote(l.source[0]) then IsQuoted(q, l.source[0] == '\'' && c.escaped) else IsNumber(q)
    ensures Lex(c, u) == Span(LiteralOf(q).kind, |q|, "?")
  {
    LiteralStart(l);
    hide Lex, IsDollarQuoted, IsNumeral, Content, WellFormed;
    assert forall k :: 0 <= k < |q| ==> u[k] == u[..|q|][k] == q[k];
    if l.source[0] == '$' {
      hide Ends;
      var n: nat :| IsDollarQuoted(q, n);
      LexDollarQuoted(c, u, q, n);
    } else if IsQuote(l.source[0]) {
      var e := q[0] == '\'' && c.escaped;
      ContentAgree(q, u, 1, |q| - 1, q[0], e);
      QuoteEndComplete(u, 1, |q|, q[0], e);
      LexQuote(c, u, |q|);
    } else {
      NumeralAgree(q, u, |q|);
      NumberExact(u, |q|);
      LexNumber(c, u, |q|);
    }
  }

  /** The context after a span that stands at `a`. */
  lemma SpanContext(s: string, a: nat, q: string)
    requires a + |q| <= |s| && s[a..a + |q|] == q
    requires |q| > 1 || (|q| == 1 && IsDigit(q[0]))
    ensures ContextAt(s, a + |q|) == ContextAt(q, |q|) && s[a + |q| - 1] == q[|q| - 1]
  {
    assert s[a + |q| - 1] == s[a..a + |q|][|q| - 1];
    if |q| > 1 { assert s[a + |q| - 2] == s[a..a + |q|][|q| - 2]; }
  }

  lemma QuotedContext(q: string, e: bool)
    requires IsQuoted(q, e) || IsDollarText(q)
    ensures |q| > 1 && ContextAt(q, |q|) == Context(false, false) && !IsIdentContinue(q[|q| - 1])
  {
    hide Content;
    if IsDollarText(q) {
      var n: nat :| IsDollarQuoted(q, n);
      assert q[|q| - n..][n - 1] == q[..n][n - 1] == '$';
    }
  }

  lemma NumberContext(q: string)
    requires IsNumber(q)
    ensures |q| > 1 || (|q| == 1 && IsDigit(q[0]))
    ensures ContextAt(q, |q|) == Context(true, false)
  {
    if !IsRadix(q, |q|) {
      var i: nat, f: nat :| IsDecimalCut(q, |q|, i, f);
      assert IsDigit(q[|q| - 1]) || q[|q| - 1] == '.';
    }
  }

  /** One character after the span the context is the same again. */
  lemma NextContext(s: string, b: nat, s': string, b': nat)
    requires 0 < b < |s| && 0 < b' < |s'| && s[b] == s'[b']
    requires IsIdentContinue(s[b]) ==> IsIdentContinue(s[b - 1]) == IsIdentContinue(s'[b' - 1])
    ensures ContextAt(s, b + 1) == ContextAt(s', b' + 1)
  {}

  lemma RestIs(s: string, a: nat, b: nat, q: string, s': string)
    requires Spliced(s, a, b, q, s')
    requires b < |s| ==> s[b] == s'[a + |q|] ==> ContextAt(s, b + 1) == ContextAt(s', a + |q| + 1)
    ensures SameRest(s, b, s', a + |q|)
  {
    forall k | b <= k < |s| ensures s[k] == s'[k - b + (a + |q|)] {
      assert s[b..][k - b] == s'[a + |q|..][k - b];
    }
  }

  lemma LiteralContexts(l: Lexeme, q: string, e: bool)
    requires IsLiteral(l) && WellFormed(l) && q != "" && Alike(q[0], l.source[0])
    requires if l.source[0] == '$' then IsDollarText(q)
             else if IsQuote(l.source[0]) then IsQuoted(q, e) else IsNumber(q)
    ensures |q| > 1 || (|q| == 1 && IsDigit(q[0]))
    ensures |l.source| > 1 || (|l.source| == 1 && IsDigit(l.source[0]))
    ensures ContextAt(q, |q|) == ContextAt(l.source, |l.source|)
    ensures || (l.kind == Hidden && IsNumber(l.source))
            || (!IsIdentContinue(q[|q| - 1]) && !IsIdentContinue(l.source[|l.source| - 1]))
  {
    LiteralStart(l);
    hide ContextAt, IsNumber, IsQuoted, IsDollarText;
    if l.source[0] == '$' {
      QuotedContext(q, e);
      QuotedContext(l.source, e);
    } else if IsQuote(l.source[0]) {
      QuotedContext(q, e);
      QuotedContext(l.source, if IsQuoted(l.source, true) then true else false);
    } else {
      NumberContext(q);
      NumberContext(l.source);
    }
  }

  /** After a literal nothing has changed. */
  lemma LiteralRest(s: string, a: nat, b: nat, q: string, s': string, l: Lexeme, rest: seq<Lexeme>)
    requires Spliced(s, a, b, q, s') && SpanAt(s, a, l, rest) && b == a + |l.source|
    requires IsLiteral(l) && FitsAt(q, s, a)
    ensures SameRest(s, b, s', a + |q|) && ContextAt(s, b) == ContextAt(s', a + |q|)
  {
    hide Lex, Lexemes, WellFormed, IsNumber, IsQuoted, IsDollarText, ContextAt;
    assert l.source[0] == s[a];
    LiteralContexts(l, q, s[a] == '\'' && ContextAt(s, a).escaped);
    SpanContext(s, a, l.source);
    SpanContext(s', a, q);
    if b < |s| && s[b] == s'[a + |q|] {
      LiteralStart(l);
      NextContext(s, b, s', a + |q|);
    }
    RestIs(s, a, b, q, s');
  }

  lemma {:induction false} ShownUnchanged(ls: seq<Lexeme>, k: nat, l: Lexeme)
    requires k < |ls| && Silent(l.kind) == Silent(ls[k].kind) && l.shown == ls[k].shown
    ensures Shown(ls[k := l]) == Shown(ls)
  {
    if k > 0 {
      ShownUnchanged(ls[1..], k - 1, l);
      assert ls[k := l][1..] == ls[1..][k - 1 := l];
    } else {
      assert ls[k := l][1..] == ls[1..];
    }
  }

  lemma UpdateParts(ls: seq<Lexeme>, k: nat, l: Lexeme)
    requires k < |ls|
    ensures Before(ls[..k] + [l], Some(ls[k + 1..])) == Some(ls[k := l])
  {
    assert ls[..k] + [l] + ls[k + 1..] == ls[k := l];
  }

  /** The shape of an admissible input depends only on the texts its spans show. */
  lemma ShapeOfShown(s: string, s': string)
    requires Admissible(s) && Admissible(s') && Lexemes(s, 0).Some? && Lexemes(s', 0).Some?
    requires Shown(Lexemes(s, 0).value) == Shown(Lexemes(s', 0).value)
    ensures Sanitize(s) == Sanitize(s')
  {
    hide Lexemes;
  }

  lemma DollarNotGlued(c: Context, t: string)
    requires t != [] && t[0] == '$' && Lex(c, t).Span?
    ensures !c.glued
  {}

  /** The new literal is read whole. */
  lemma LiteralRead(s: string, a: nat, b: nat, q: string, s': string, l: Lexeme, rest: seq<Lexeme>)
    requires Spliced(s, a, b, q, s') && SpanAt(s, a, l, rest) && b == a + |l.source|
    requires IsLiteral(l) && FitsAt(q, s, a)
    ensures Lex(ContextAt(s', a), s'[a..]) == Span(LiteralOf(q).kind, |q|, "?")
  {
    hide Lex, Lexemes, WellFormed, IsNumber, IsQuoted, IsDollarText, ContextAt, IsLiteral, LiteralOf, Ends;
    assert l.source[0] == s[a] && s[a..][0] == s[a];
    if s[a] == '$' { DollarNotGlued(ContextAt(s, a), s[a..]); }
    SplicedLong(s, a, b, q, s');
    SameContext(s, s', a, a);
    LexLiteral(ContextAt(s', a), l, q, s'[a..]);
  }

  /** The new literal is read whole, and the rest as before. */
  lemma LiteralAndRest(s: string, a: nat, b: nat, q: string, s': string, l: Lexeme, rest: seq<Lexeme>)
    requires Spliced(s, a, b, q, s') && SpanAt(s, a, l, rest) && b == a + |l.source|
    requires IsLiteral(l) && FitsAt(q, s, a)
    ensures Lex(ContextAt(s', a), s'[a..]) == Span(LiteralOf(q).kind, |q|, "?")
    ensures a + |q| <= |s'| && Lexemes(s', a + |q|) == Some(rest)
  {
    hide *;
    LexemesAfter(s, a, l, rest);
    LiteralRead(s, a, b, q, s', l, rest);
    LiteralRest(s, a, b, q, s', l, rest);
    RestLength(s, b, s', a + |q|);
    SameLexemes(s, b, s', a + |q|, 0);
  }

  lemma LiteralReplaced(s: string, a: nat, b: nat, q: string, s': string, ls: seq<Lexeme>, k: nat)
    requires Lexemes(s, 0) == Some(ls) && k < |ls| && a == Offset(ls, k) && b == a + |ls[k].source|
    requires Spliced(s, a, b, q, s') && FitsAt(q, s, a) && IsLiteral(ls[k])
    ensures Lexemes(s', 0) == Some(ls[k := LiteralOf(q)])
  {
    assert StartsAlike(s, a, q);
    hide Lex, Lexemes, SpanAt, Spliced, Offset, SameRest, ContextAt, Before, FitsAt, StartsAlike, IsLiteral;
    FindSpan(s, 0, ls, k);
    LiteralAndRest(s, a, b, q, s', ls[k], ls[k + 1..]);
    SpanReplaced(s, a, b, q, s', ls, k, LiteralOf(q));
    UpdateParts(ls, k, LiteralOf(q));
  }

  lemma RestLength(s: string, m: nat, s': string, m': nat)
    requires SameRest(s, m, s', m')
    ensures m <= |s| && m' <= |s'|
  {}

  lemma LexemesAfter(s: string, a: nat, l: Lexeme, rest: seq<Lexeme>)
    requires SpanAt(s, a, l, rest)
    ensures a + |l.source| <= |s| && Lexemes(s, a + |l.source|) == Some(rest)
  {}

  /** Replacing a quoted, dollar-quoted or numeric span of an accepted query by another complete one of its kind leaves
      the shape as it was: nothing a literal holds reaches the output or changes how the rest is read. */
  lemma LiteralsDoNotMatter(s: string, k: nat, q: string, s': string)
    requires Sanitize(s).Some? && Admissible(s')
    requires k < |Lexemes(s, 0).value| && IsLiteral(Lexemes(s, 0).value[k])
    requires var ls := Lexemes(s, 0).value;
             var a := Offset(ls, k);
             FitsAt(q, s, a) && Spliced(s, a, a + |ls[k].source|, q, s')
    ensures Lexemes(s', 0) == Some(Lexemes(s, 0).value[k := LiteralOf(q)])
    ensures Sanitize(s') == Sanitize(s)
  {
    hide Lex, Lexemes, FitsAt, Spliced, Offset, Admissible, Sanitize, Sources, WellFormed, Ends;
    Partition(s);
    var ls := Lexemes(s, 0).value;
    LiteralReplaced(s, Offset(ls, k), Offset(ls, k) + |ls[k].source|, q, s', ls, k);
    ShowsQuestion(ls[k]);
    ShownUnchanged(ls, k, LiteralOf(q));
    ShapeOfShown(s, s');
  }

  lemma ShowsQuestion(l: Lexeme)
    requires WellFormed(l) && (l.kind == Quoted || l.kind == Hidden)
    ensures l.shown == "?"
  {}

  // ---------- numbers that are glued to what stands before them ----------

  /** A span that a digit follows does not end in an identifier character or a dot. */
  lemma EndsUnglued(l: Lexeme, next: char)
    requires WellFormed(l) && Ends(l, Some(next)) && IsDigit(next)
    ensures !Glues(l.source[|l.source| - 1])
  {
    if l.kind == Quoted || (l.kind == Hidden && IsDollarText(l.source)) {
      QuotedContext(l.source, if IsQuoted(l.source, true) then true else false);
    } else if l.kind == Comment && !IsLineComment(l.source) {
      var x: Inside :| l.source == "/*" + Print(x);
      PrintEnds(x);
    }
  }

  lemma {:induction false} PrintEnds(x: Inside)
    ensures |Print(x)| >= 2 && Print(x)[|Print(x)| - 1] == '/'
    decreases x
  {
    match x
    case Nil =>
    case Text(_, rest) => PrintEnds(rest);
    case Nested(_, rest) => PrintEnds(rest);
  }

  lemma {:induction false} OffsetNext(ls: seq<Lexeme>, k: nat)
    requires k < |ls|
    ensures Offset(ls, k + 1) == Offset(ls, k) + |ls[k].source|
    decreases k
  {
    if k > 0 { OffsetNext(ls[1..], k - 1); }
  }

  /** A number that starts with a digit never stands glued. */
  lemma DigitNotGlued(s: string, ls: seq<Lexeme>, k: nat)
    requires Lexemes(s, 0) == Some(ls) && k < |ls| && ls[k].source != "" && IsDigit(ls[k].source[0])
    ensures Offset(ls, k) < |s| && !ContextAt(s, Offset(ls, k)).glued
  {
    hide *;
    FindSpan(s, 0, ls, k);
    var b := Offset(ls, k);
    FirstOfSpan(s, b, ls[k], ls[k + 1..]);
    if k > 0 {
      FindSpan(s, 0, ls, k - 1);
      OffsetNext(ls, k - 1);
      LastUnglued(s, Offset(ls, k - 1), ls[k - 1], ls[k - 1 + 1..]);
    } else {
      NothingGlued(s, ls);
    }
  }

  lemma NothingGlued(s: string, ls: seq<Lexeme>)
    ensures Offset(ls, 0) == 0 && !ContextAt(s, 0).glued
  {}

  lemma LastUnglued(s: string, a: nat, l: Lexeme, rest: seq<Lexeme>)
    requires SpanAt(s, a, l, rest) && a + |l.source| < |s| && IsDigit(s[a + |l.source|])
    ensures !ContextAt(s, a + |l.source|).glued
  {
    hide SpanAt, WellFormed, Ends, Lexemes, Lex;
    SpanParts(s, a, l, rest);
    var b := a + |l.source|;
    EndsUnglued(l, s[b]);
    assert s[a..b][|l.source| - 1] == s[b - 1];
  }

  lemma NumberStarts(q: string)
    requires IsNumber(q)
    ensures q != "" && (IsDigit(q[0]) || q[0] == '.') && !IsParameter(q) && LiteralOf(q) == Lexeme(Hidden, q, "?")
  {}

  /** Another number in the place of one is read as such exactly when it does not put a digit where the old one was
      glued. */
  lemma NumbersReadExactly(s: string, ls: seq<Lexeme>, k: nat, q: string, s': string)
    requires Lexemes(s, 0) == Some(ls) && k < |ls| && ls[k].kind == Hidden && IsNumber(ls[k].source) && IsNumber(q)
    requires Spliced(s, Offset(ls, k), Offset(ls, k) + |ls[k].source|, q, s')
    ensures Lexemes(s', 0) == Some(ls[k := LiteralOf(q)]) <==>
              !(ContextAt(s, Offset(ls, k)).glued && IsDigit(q[0]))
  {
    hide Lex, Lexemes, IsNumeral, WellFormed, Ends, Content;
    var a := Offset(ls, k);
    NumberStarts(q);
    NumberStarts(ls[k].source);
    FindSpan(s, 0, ls, k);
    assert s[a] == ls[k].source[0];
    if IsDigit(s[a]) { DigitNotGlued(s, ls, k); }
    if ContextAt(s, a).glued && IsDigit(q[0]) {
      if Lexemes(s', 0) == Some(ls[k := LiteralOf(q)]) {
        DigitNotGlued(s', ls[k := LiteralOf(q)], k);
        SameOffset(ls, k, LiteralOf(q));
        SameContext(s, s', a, a);
        assert false;
      }
    } else {
      LiteralReplaced(s, a, a + |ls[k].source|, q, s', ls, k);
    }
  }

  lemma {:induction false} SameOffset(ls: seq<Lexeme>, k: nat, l: Lexeme)
    requires k < |ls|
    ensures Offset(ls[k := l], k) == Offset(ls, k)
    decreases k
  {
    if k > 0 {
      assert ls[k := l][1..] == ls[1..][k - 1 := l];
      SameOffset(ls[1..], k - 1, l);
    }
  }
}
