/** The name of a parameter does not matter either, with one exception: a parameter named `e` reads like the prefix of
    an E-string. */
module SqlParameters {
  import opened Bytes
  import opened SqlLexicon
  import opened SqlLocality
  import opened SqlShape
  import opened SqlGrammar
  import opened SqlSpans
  import opened SqlLiterals

  /** The parameter's name is the letter that marks an E-string. */
  predicate NamedAsPrefix(q: string) { q != "" && (q[1..] in ["e", "E"] || q[1..] in ["@e", "@E"]) }

  /** A quote right after `q` would be taken for an E-string. */
  predicate EndsAsPrefix(q: string) { ContextAt(q, |q|).escaped }

  /** The next span is a string in single quotes that is complete only with the escapes of an E-string. */
  ghost predicate NeedsPrefix(rest: seq<Lexeme>) {
    rest != [] && rest[0].kind == Quoted && rest[0].source != "" && rest[0].source[0] == '\''
    && !IsQuoted(rest[0].source, false)
  }

  // ---------- reading the new parameter ----------

  lemma ParameterNotGlued(c: Context, t: string, q: string)
    requires |q| <= |t| && t[..|q|] == q && IsParameter(q) && Lex(c, t) == Span(Hidden, |q|, "?")
    ensures !c.glued
  {
    assert t[0] == q[0];
    LexHiddenKind(c, t);
    hide Lex;
  }

  lemma LexParameterNew(c: Context, q: string, u: string)
    requires IsParameter(q) && |q| <= |u| && u[..|q|] == q && !c.glued
    requires !Continues(Next(u, |q|)) && Next(u, |q|) != Some('$')
    ensures Lex(c, u) == Span(Hidden, |q|, "?")
  {
    assert forall k :: 0 <= k < |q| ==> u[k] == u[..|q|][k] == q[k];
    RunEndIs(u, if q[0] == '@' && q[1] == '@' then 2 else 1, IsIdentContinue, |q|);
  }

  /** The context after a parameter. */
  lemma ParameterContext(s: string, a: nat, q: string)
    requires IsParameter(q) && a + |q| <= |s| && s[a..a + |q|] == q
    ensures ContextAt(s, a + |q|) == Context(true, EndsAsPrefix(q)) && a + |q| > 0
  {
    SpanContext(s, a, q);
  }

  lemma NoDollarAfter(s: string, b: nat)
    requires b <= |s| && ContextAt(s, b).glued && Lexemes(s, b).Some?
    ensures Next(s, b) != Some('$')
  {
    hide Lex;
    if b < |s| && s[b] == '$' { DollarNotGlued(ContextAt(s, b), s[b..]); }
  }

  lemma ParameterEnds(l: Lexeme, next: Option<char>)
    requires WellFormed(l) && l.kind == Hidden && IsParameter(l.source) && Ends(l, next)
    ensures l.shown == "?" && !Continues(next)
  {}

  lemma NotContinued(s: string, b: nat)
    requires b < |s| && !Continues(Next(s, b))
    ensures !IsIdentContinue(s[b])
  {}

  lemma ParameterRead(s: string, a: nat, b: nat, q: string, s': string, l: Lexeme, rest: seq<Lexeme>)
    requires Spliced(s, a, b, q, s') && SpanAt(s, a, l, rest) && b == a + |l.source|
    requires l.kind == Hidden && IsParameter(l.source) && IsParameter(q)
    ensures Lex(ContextAt(s', a), s'[a..]) == Span(Hidden, |q|, "?")
    ensures SameRest(s, b, s', a + |q|)
  {
    hide *;
    SpanParts(s, a, l, rest);
    ParameterEnds(l, Next(s, b));
    TakeOfDrop(s, a, |l.source|);
    ParameterNotGlued(ContextAt(s, a), s[a..], l.source);
    ParameterContext(s, a, l.source);
    NoDollarAfter(s, b);
    SplicedLong(s, a, b, q, s');
    SameContext(s, s', a, a);
    TakeOfDrop(s', a, |q|);
    LexParameterNew(ContextAt(s', a), q, s'[a..]);
    if b < |s| { NotContinued(s, b); }
    if b < |s| && s[b] == s'[a + |q|] { NextContext(s, b, s', a + |q|); }
    RestIs(s, a, b, q, s');
  }

  // ---------- what follows ----------

  /** Outside single quotes nothing depends on an E-string prefix. */
  lemma LexIgnoresPrefix(glued: bool, x: bool, y: bool, t: string)
    requires t != [] && t[0] != '\''
    ensures Lex(Context(glued, x), t) == Lex(Context(glued, y), t)
  {
    hide BlockEnd, QuoteEnd, NumberEnd, LexDollar, LexParameter, LexWord, RunEnd;
  }

  lemma LexSingle(c: Context, t: string)
    requires t != [] && t[0] == '\''
    ensures Lex(c, t) == SpanOf(Quoted, QuoteEnd(t, 1, '\'', c.escaped), "?")
  {
    hide QuoteEnd;
  }

  /** A string that ends without the escapes of an E-string ends there with them. */
  lemma {:induction false} QuoteEndWidens(t: string, i: nat)
    requires i <= |t| && QuoteEnd(t, i, '\'', false).Some?
    ensures QuoteEnd(t, i, '\'', true) == QuoteEnd(t, i, '\'', false)
    decreases |t| - i
  {
    if t[i] == '\\' {
      QuoteEndWidens(t, i + 2);
    } else if t[i] != '\'' {
      QuoteEndWidens(t, i + 1);
    } else if i + 1 < |t| && t[i + 1] == '\'' {
      QuoteEndWidens(t, i + 2);
    }
  }

  /** Without its prefix an E-string is read as before, or not at all. */
  lemma PrefixLost(t: string, n: nat)
    requires t != [] && t[0] == '\'' && n <= |t| && QuoteEnd(t, 1, '\'', true) == Some(n)
    ensures QuoteEnd(t, 1, '\'', false) == if IsQuoted(t[..n], false) then Some(n) else None
  {
    hide QuoteEnd;
    if QuoteEnd(t, 1, '\'', false).Some? {
      QuoteEndWidens(t, 1);
      QuoteEndSound(t, 1, '\'', false);
      ContentAgree(t, t[..n], 1, n - 1, '\'', false);
    } else if IsQuoted(t[..n], false) {
      ContentAgree(t[..n], t, 1, n - 1, '\'', false);
      QuoteEndExact(t, 1, n, '\'', true);
      QuoteEndExact(t, 1, n, '\'', false);
    }
  }

  /** How a string in single quotes is read after the other parameter. */
  lemma SingleAfter(t: string, x: bool, y: bool, n: nat)
    requires t != [] && t[0] == '\'' && Lex(Context(true, x), t) == Span(Quoted, n, "?") && n <= |t|
    ensures Lex(Context(true, y), t) == if x && !y && !IsQuoted(t[..n], false) then Reject else Span(Quoted, n, "?")
  {
    LexSingle(Context(true, x), t);
    LexSingle(Context(true, y), t);
    hide Lex, QuoteEnd;
    if x && !y {
      PrefixLost(t, n);
    } else if y && !x {
      QuoteEndWidens(t, 1);
    }
  }

  lemma RejectedHere(s: string, i: nat)
    requires i < |s| && Lex(ContextAt(s, i), s[i..]).Reject?
    ensures Lexemes(s, i) == None
  {
    hide Lex;
  }

  lemma QuotedAt(s: string, b: nat, l: Lexeme, rest: seq<Lexeme>)
    requires SpanAt(s, b, l, rest) && s[b] == '\''
    ensures l.kind == Quoted && l.shown == "?" && l.source != "" && l.source[0] == '\''
    ensures s[b..][..|l.source|] == l.source
  {
    hide Content, Ends, BlockEnd, NumberEnd, RunEnd, Lexemes;
    LexSingle(ContextAt(s, b), s[b..]);
  }

  /** What comes of the rest: nothing when a string loses the prefix it needs, and what it was otherwise. */
  lemma AfterParameter(s: string, b: nat, s': string, b': nat, x: bool, y: bool, rest: seq<Lexeme>)
    requires SameRest(s, b, s', b') && Lexemes(s, b) == Some(rest)
    requires ContextAt(s, b) == Context(true, x) && ContextAt(s', b') == Context(true, y)
    ensures Lexemes(s', b') == if x && !y && NeedsPrefix(rest) then None else Some(rest)
  {
    hide Lex, ContextAt, IsQuoted;
    var t := s[b..];
    SameTail(s, b, s', b', 0, 0);
    if b < |s| {
      var l, more := FirstSpan(s, b);
      assert rest[0] == l;
      if s[b] != '\'' {
        LexIgnoresPrefix(true, x, y, t);
        NotSingle(s, b, l, more);
        SameLexemes(s, b, s', b', 0);
      } else {
        QuotedAt(s, b, l, more);
        SingleAfter(t, x, y, |l.source|);
        if x && !y && !IsQuoted(l.source, false) {
          RejectedHere(s', b');
        } else {
          SameLexemes(s, b, s', b', 0);
        }
      }
    } else {
      SameLexemes(s, b, s', b', 0);
    }
  }

  lemma NotSingle(s: string, b: nat, l: Lexeme, rest: seq<Lexeme>)
    requires SpanAt(s, b, l, rest) && s[b] != '\''
    ensures l.source != "" && l.source[0] != '\''
  {
    hide *;
    SpanParts(s, b, l, rest);
    assert s[b..b + |l.source|][0] == s[b];
  }

  // ---------- the whole query ----------

  /** The new parameter is read whole; then comes the rest, unless that needs a prefix that is gone. */
  lemma ParameterAndRest(s: string, a: nat, b: nat, q: string, s': string, l: Lexeme, rest: seq<Lexeme>)
    requires Spliced(s, a, b, q, s') && SpanAt(s, a, l, rest) && b == a + |l.source|
    requires l.kind == Hidden && IsParameter(l.source) && IsParameter(q)
    ensures Lex(ContextAt(s', a), s'[a..]) == Span(Hidden, |q|, "?")
    ensures a + |q| <= |s'|
    ensures Lexemes(s', a + |q|) ==
            if EndsAsPrefix(l.source) && !EndsAsPrefix(q) && NeedsPrefix(rest) then None else Some(rest)
  {
    hide *;
    SpanParts(s, a, l, rest);
    SplicedLong(s, a, b, q, s');
    ParameterRead(s, a, b, q, s', l, rest);
    ParameterContext(s, a, l.source);
    ParameterContext(s', a, q);
    AfterParameter(s, b, s', a + |q|, EndsAsPrefix(l.source), EndsAsPrefix(q), rest);
  }

  lemma ParameterReplaced(s: string, a: nat, b: nat, q: string, s': string, ls: seq<Lexeme>, k: nat)
    requires Lexemes(s, 0) == Some(ls) && k < |ls| && a == Offset(ls, k) && b == a + |ls[k].source|
    requires ls[k].kind == Hidden && IsParameter(ls[k].source) && IsParameter(q)
    requires Spliced(s, a, b, q, s')
    ensures Lexemes(s', 0) == if EndsAsPrefix(ls[k].source) && !EndsAsPrefix(q) && NeedsPrefix(ls[k + 1..]) then None
                              else Some(ls[k := LiteralOf(q)])
  {
    var mine := LiteralOf(q);
    ParameterStart(q);
    ParameterStart(ls[k].source);
    hide *;
    FindSpan(s, 0, ls, k);
    ParametersAlike(s, a, ls[k], ls[k + 1..], q);
    ParameterAndRest(s, a, b, q, s', ls[k], ls[k + 1..]);
    SpanReplaced(s, a, b, q, s', ls, k, mine);
    UpdateParts(ls, k, mine);
    NothingBefore(ls[..k] + [mine]);
  }

  lemma ParameterStart(q: string)
    requires IsParameter(q)
    ensures q != "" && IsStarter(q[0]) && LiteralOf(q) == Lexeme(Hidden, q, "?")
  {}

  /** A parameter never stands glued, so that any other can start there. */
  lemma ParametersAlike(s: string, a: nat, l: Lexeme, rest: seq<Lexeme>, q: string)
    requires SpanAt(s, a, l, rest) && l.kind == Hidden && IsParameter(l.source) && IsParameter(q)
    ensures a < |s| && q != "" && StartsAlike(s, a, q)
  {
    hide SpanAt, WellFormed, Ends, Lex, Lexemes, ContextAt;
    SpanParts(s, a, l, rest);
    FirstOfSpan(s, a, l, rest);
    ParameterEnds(l, Next(s, a + |l.source|));
    TakeOfDrop(s, a, |l.source|);
    ParameterNotGlued(ContextAt(s, a), s[a..], l.source);
  }

  lemma NothingBefore(first: seq<Lexeme>)
    ensures Before(first, None) == None
  {}

  lemma NothingLexed(s: string)
    requires Lexemes(s, 0).None?
    ensures Sanitize(s) == None
  {
    hide Lexemes;
  }

  /** Renaming a parameter of an accepted query leaves the shape as it was, unless its name was the single letter of an
      E-string prefix, the new one is not, and a string that only that prefix completes follows at once: then the query
      is refused. */
  lemma ParametersMatterExactly(s: string, k: nat, q: string, s': string)
    requires Sanitize(s).Some? && Admissible(s') && IsParameter(q)
    requires k < |Lexemes(s, 0).value|
    requires var ls := Lexemes(s, 0).value;
             && ls[k].kind == Hidden && IsParameter(ls[k].source)
             && Spliced(s, Offset(ls, k), Offset(ls, k) + |ls[k].source|, q, s')
    ensures var ls := Lexemes(s, 0).value;
            Sanitize(s') == if NamedAsPrefix(ls[k].source) && !NamedAsPrefix(q) && NeedsPrefix(ls[k + 1..]) then None
                            else Sanitize(s)
  {
    hide Lex, Lexemes, Spliced, Offset, Admissible, Sanitize, Sources, WellFormed, Ends, NeedsPrefix, EndsAsPrefix,
         SpanAt, ContextAt, NamedAsPrefix;
    Partition(s);
    PrefixNames(q);
    PrefixNames(Lexemes(s, 0).value[k].source);
    var ls := Lexemes(s, 0).value;
    FindSpan(s, 0, ls, k);
    var a := Offset(ls, k);
    FirstOfSpan(s, a, ls[k], ls[k + 1..]);
    ParameterReplaced(s, a, a + |ls[k].source|, q, s', ls, k);
    if Lexemes(s', 0).None? {
      NothingLexed(s');
    } else {
      ShowsQuestion(ls[k]);
      ShownUnchanged(ls, k, LiteralOf(q));
      ShapeOfShown(s, s');
    }
  }

  /** Only a parameter with such a name ends as a prefix. */
  lemma PrefixNames(q: string)
    requires IsParameter(q)
    ensures EndsAsPrefix(q) <==> NamedAsPrefix(q)
  {
    if q[1..] in ["e", "E", "@e", "@E"] {
      assert forall k :: 1 <= k < |q| ==> q[k] == q[1..][k - 1];
    }
    if EndsAsPrefix(q) {
      var k := if q[0] == '@' && q[1] == '@' then 2 else 1;
      assert |q| == k + 1;
      assert q[1..] == if k == 1 then [q[1]] else [q[1], q[2]];
    }
  }
}
