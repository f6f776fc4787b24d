/** The language of the SQL scanner: which ways of cutting a text into spans are the scanner's, both ways, and with that
    which texts have a shape. */
module SqlLanguage {
  import opened Bytes
  import opened SqlLexicon
  import opened SqlLocality
  import opened SqlShape
  import opened SqlGrammar
  import opened SqlSpans
  import opened SqlLiterals
  import opened SqlParameters
  import opened SqlStatements

  // ---------- spans ----------

  const BLANKS: set<char> := {' ', '\t', '\r', '\n', '\U{0C}'}

  const SIGNS: set<char> :=
    {'(', ')', ';', ',', '.', '*', '=', '<', '>', '+', '-', '/', '%', '!', '|', '&', '^', '~', '?'}

  const QUOTES: set<char> := {'\'', '"', '`', '['}

  const VALUES: set<string> := {"TRUE", "FALSE", "NULL"}

  predicate IsNameStart(c: char) { 'a' <= c <= 'z' || 'A' <= c <= 'Z' || c == '_' }

  predicate IsNamePart(c: char) { IsNameStart(c) || '0' <= c <= '9' }

  /** From `k` on there is a name, or digits. */
  predicate IsTail(q: string, k: nat) { k < |q| && forall j :: k <= j < |q| ==> IsNamePart(q[j]) }

  predicate IsLine(q: string) {
    ((|q| > 0 && q[0] == '#') || (|q| > 1 && q[0] == '-' && q[1] == '-')) && '\n' !in q && '\r' !in q
  }

  /** `$1`, `:name`, `@name` and `@@name`. */
  predicate IsPlaceholder(q: string) {
    q != "" && q[0] in {'$', ':', '@'} && (IsTail(q, 1) || (|q| > 1 && q[0] == '@' && q[1] == '@' && IsTail(q, 2)))
  }

  /** What a span of each kind is made of, and what it shows. */
  ghost predicate IsSpan(l: Lexeme) {
    var q := l.source;
    q != "" &&
    match l.kind
    case Blank => l.shown == "" && |q| == 1 && q[0] in BLANKS
    case Comment => l.shown == "" && (IsLine(q) || IsBlockComment(q))
    case Quoted =>
      && l.shown == "?" && |q| >= 2 && q[0] in QUOTES && q[|q| - 1] == (if q[0] == '[' then ']' else q[0])
      && (Content(q, 1, |q| - 1, q[0], true) || Content(q, 1, |q| - 1, q[0], false))
    case Hidden => l.shown == "?" && (IsPlaceholder(q) || IsNumber(q) || IsDollarText(q))
    case Word => IsNameStart(q[0]) && IsTail(q, 0) && l.shown == if Upper(q) in VALUES then "?" else q
    case Mark => l.shown == q && ((|q| == 1 && q[0] in SIGNS) || q == "::")
  }

  lemma LineExactly(q: string)
    ensures IsLineComment(q) <==> IsLine(q)
  {
    if IsLineComment(q) {
      forall k | 0 <= k < |q| ensures q[k] != '\n' && q[k] != '\r' { assert NotLineBreak(q[k]); }
    }
  }

  lemma PlaceholderExactly(q: string)
    ensures IsParameter(q) <==> IsPlaceholder(q)
  {}

  /** The spans of the scanner are these. */
  lemma SpansExactly(l: Lexeme)
    ensures WellFormed(l) <==> IsSpan(l)
  {
    hide Content, IsBlockComment, IsNumber, IsDollarText, IsLineComment, IsLine, IsParameter, IsPlaceholder, Upper;
    LineExactly(l.source);
    PlaceholderExactly(l.source);
  }

  // ---------- cuts ----------

  /** What stands before `a` continues a name, or is a dot. */
  predicate Glued(s: string, a: nat)
    requires a <= |s|
  {
    a > 0 && (IsLetter(s[a - 1]) || IsDigit(s[a - 1]) || s[a - 1] == '_' || s[a - 1] == '.')
  }

  /** The letter of an E-string stands alone before `a`. */
  predicate Prefixed(s: string, a: nat)
    requires a <= |s|
  {
    a > 0 && (s[a - 1] == 'E' || s[a - 1] == 'e')
    && (a == 1 || !(IsLetter(s[a - 2]) || IsDigit(s[a - 2]) || s[a - 2] == '_'))
  }

  lemma ContextIs(s: string, a: nat)
    requires a <= |s|
    ensures ContextAt(s, a) == Context(Glued(s, a), Prefixed(s, a))
  {}

  /** The span may stand where these two things hold of what is before it, with `next` after it. */
  ghost predicate Stands(l: Lexeme, glued: bool, prefixed: bool, next: Option<char>) {
    && IsSpan(l) && Ends(l, next)
    && (l.kind == Quoted ==> IsQuoted(l.source, l.source[0] == '\'' && prefixed))
    && (l.kind == Hidden && !IsNumber(l.source) ==> !glued)
  }

  ghost predicate StandsAt(s: string, a: nat, l: Lexeme, next: Option<char>) {
    a <= |s| && Stands(l, Glued(s, a), Prefixed(s, a), next)
  }

  /** The text from `i` on is cut into spans each of which may stand where it does. */
  ghost predicate IsCut(s: string, i: nat, ls: seq<Lexeme>) {
    && i <= |s| && Sources(ls) == s[i..]
    && forall k: nat :: k < |ls| ==> StandsAt(s, i + Offset(ls, k), ls[k], After(ls, k))
  }

  // ---------- the scanner finds only such cuts ----------

  lemma StepStands(c: Context, t: string)
    requires t != [] && Lex(c, t).Span?
    ensures var l := Taken(Lex(c, t), t); Stands(l, c.glued, c.escaped, Next(t, |l.source|))
  {
    hide BlockEnd, QuoteEnd, NumberEnd, LexParameter, LexDollar, Find, RunEnd, Upper, Content, Lex, WellFormed, IsSpan,
         Ends, IsNumeral;
    LexSpan(c, t);
    SpansExactly(Taken(Lex(c, t), t));
    if Lex(c, t).kind == Quoted { QuotedSpan(c, t); }
    if Lex(c, t).kind == Hidden { HiddenStands(c, t); }
  }

  lemma HiddenStands(c: Context, t: string)
    requires t != [] && Lex(c, t).Span? && Lex(c, t).kind == Hidden
    ensures c.glued ==> IsNumber(t[..Lex(c, t).len])
  {
    LexHiddenKind(c, t);
    hide Lex, NumberEnd, IsNumber;
    if c.glued { NumberSpan(t); }
  }

  lemma AfterIs(s: string, i: nat, ls: seq<Lexeme>, k: nat)
    requires i <= |s| && Lexemes(s, i) == Some(ls) && k < |ls|
    ensures i + Offset(ls, k) + |ls[k].source| <= |s|
    ensures After(ls, k) == Next(s, i + Offset(ls, k) + |ls[k].source|)
  {
    hide *;
    FindSpan(s, i, ls, k);
    var b := i + Offset(ls, k) + |ls[k].source|;
    SpanParts(s, i + Offset(ls, k), ls[k], ls[k + 1..]);
    OffsetNext(ls, k);
    if k + 1 < |ls| {
      FindSpan(s, i, ls, k + 1);
      assert i + Offset(ls, k + 1) == b;
      FirstOfSpan(s, b, ls[k + 1], ls[k + 1 + 1..]);
    } else {
      assert ls[k + 1..] == [];
      NothingAfter(s, b);
    }
    AfterReads(s, b, ls, k);
  }

  lemma AfterReads(s: string, b: nat, ls: seq<Lexeme>, k: nat)
    requires b <= |s| && k < |ls|
    requires if k + 1 < |ls| then b < |s| && ls[k + 1].source != "" && ls[k + 1].source[0] == s[b] else b == |s|
    ensures After(ls, k) == Next(s, b)
  {}

  lemma NothingAfter(s: string, b: nat)
    requires b <= |s| && Lexemes(s, b) == Some([])
    ensures b == |s|
  {
    hide Lex;
  }

  lemma LexedIsCut(s: string, i: nat, ls: seq<Lexeme>)
    requires i <= |s| && Lexemes(s, i) == Some(ls)
    ensures IsCut(s, i, ls)
  {
    hide Lex, Lexemes, WellFormed, Ends, SpanAt, StandsAt, AllWellFormed, Glued, Prefixed;
    PartitionFrom(s, i);
    forall k: nat | k < |ls| ensures StandsAt(s, i + Offset(ls, k), ls[k], After(ls, k)) {
      FindSpan(s, i, ls, k);
      AfterIs(s, i, ls, k);
      SpanStands(s, i + Offset(ls, k), ls[k], ls[k + 1..]);
    }
  }

  lemma SpanStands(s: string, a: nat, l: Lexeme, rest: seq<Lexeme>)
    requires SpanAt(s, a, l, rest)
    ensures StandsAt(s, a, l, Next(s, a + |l.source|))
  {
    hide SpanAt, Lex, Lexemes, WellFormed, Ends, Glued, Prefixed, ContextAt, Stands;
    SpanParts(s, a, l, rest);
    TakeOfDrop(s, a, |l.source|);
    ContextIs(s, a);
    StepStands(ContextAt(s, a), s[a..]);
  }

  // ---------- and all of them ----------

  lemma LexLineComment(c: Context, u: string, q: string)
    requires |q| <= |u| && u[..|q|] == q && IsLineComment(q) && (Next(u, |q|).None? || !NotLineBreak(u[|q|]))
    ensures Lex(c, u) == Span(Comment, |q|, "")
  {
    assert forall k :: 0 <= k < |q| ==> u[k] == u[..|q|][k] == q[k];
    RunEndIs(u, 0, NotLineBreak, |q|);
  }

  lemma LexBlockComment(c: Context, u: string, q: string)
    requires |q| <= |u| && u[..|q|] == q && IsBlockComment(q)
    ensures Lex(c, u) == Span(Comment, |q|, "")
  {
    hide BlockEnd, Print, Deepest, IsPlain;
    var x: Inside :| q == "/*" + Print(x);
    assert u[0] == u[..|q|][0] == '/' && u[1] == u[..|q|][1] == '*';
    assert u[0..2] == "/*";
    CommentExact(u, |q|);
  }

  lemma LexWordRead(c: Context, u: string, q: string)
    requires |q| <= |u| && u[..|q|] == q && IsWord(q) && !Continues(Next(u, |q|))
    ensures Lex(c, u) == Span(Word, |q|, if IsLiteralWord(q) then "?" else q)
  {
    hide Upper;
    assert forall k :: 0 <= k < |q| ==> u[k] == u[..|q|][k] == q[k];
    RunEndIs(u, 0, IsIdentContinue, |q|);
  }

  lemma LexMarkRead(c: Context, u: string, l: Lexeme)
    requires |l.source| <= |u| && u[..|l.source|] == l.source && l.kind == Mark && WellFormed(l)
    requires Ends(l, Next(u, |l.source|))
    ensures Lex(c, u) == Span(Mark, |l.source|, l.shown)
  {
    hide BlockEnd, QuoteEnd, NumberEnd, LexDollar, LexParameter, LexWord, RunEnd;
    assert forall k :: 0 <= k < |l.source| ==> u[k] == u[..|l.source|][k] == l.source[k];
    if l.source != "::" { assert u[..1] == [u[0]] && l.source == [l.source[0]]; }
  }

  lemma LexQuotedRead(c: Context, u: string, q: string)
    requires |q| <= |u| && u[..|q|] == q && q != "" && IsQuoted(q, q[0] == '\'' && c.escaped)
    requires Next(u, |q|) != Some(Closing(q[0]))
    ensures Lex(c, u) == Span(Quoted, |q|, "?")
  {
    hide Lex;
    assert forall k :: 0 <= k < |q| ==> u[k] == u[..|q|][k] == q[k];
    var e := q[0] == '\'' && c.escaped;
    ContentAgree(q, u, 1, |q| - 1, q[0], e);
    QuoteEndComplete(u, 1, |q|, q[0], e);
    LexQuote(c, u, |q|);
  }

  lemma LexHiddenRead(c: Context, u: string, l: Lexeme)
    requires |l.source| <= |u| && u[..|l.source|] == l.source && l.kind == Hidden
    requires Stands(l, c.glued, c.escaped, Next(u, |l.source|))
    requires IsParameter(l.source) ==> Next(u, |l.source|) != Some('$')
    ensures Lex(c, u) == Span(Hidden, |l.source|, l.shown)
  {
    hide Lex, IsNumeral, IsDollarQuoted, IsSpan;
    SpansExactly(l);
    var q := l.source;
    HiddenKindsApart(q);
    if IsParameter(q) {
      LexParameterNew(c, q, u);
    } else if IsNumber(q) {
      assert forall k :: 0 <= k < |q| ==> u[k] == u[..|q|][k] == q[k];
      NumeralAgree(q, u, |q|);
      NumberExact(u, |q|);
      LexNumber(c, u, |q|);
    } else {
      var n: nat :| IsDollarQuoted(q, n);
      LexDollarQuoted(c, u, q, n);
    }
  }

  lemma LexBlankRead(c: Context, u: string)
    requires u != [] && IsSpace(u[0])
    ensures Lex(c, u) == Span(Blank, 1, "")
  {}

  /** A span that may stand at the start of a text is what the step takes. */
  lemma SpanReads(c: Context, u: string, l: Lexeme)
    requires |l.source| <= |u| && u[..|l.source|] == l.source && Stands(l, c.glued, c.escaped, Next(u, |l.source|))
    requires l.kind == Hidden && IsParameter(l.source) ==> Next(u, |l.source|) != Some('$')
    ensures u != [] && Lex(c, u) == Span(l.kind, |l.source|, l.shown)
  {
    hide Lex, IsBlockComment, Content, IsParameter, IsNumber, IsDollarText, IsSpan;
    SpansExactly(l);
    var q := l.source;
    assert q != "" && u[0] == u[..|q|][0];
    match l.kind {
      case Blank => LexBlankRead(c, u);
      case Comment => if IsLineComment(q) { LexLineComment(c, u, q); } else { LexBlockComment(c, u, q); }
      case Quoted => LexQuotedRead(c, u, q);
      case Hidden => LexHiddenRead(c, u, l);
      case Word => LexWordRead(c, u, q);
      case Mark => LexMarkRead(c, u, l);
    }
  }

  /** After a parameter no dollar sign can stand. */
  lemma NoDollarNext(s: string, a: nat, l: Lexeme, m: Lexeme, next: Option<char>)
    requires a + |l.source| <= |s| && s[a..a + |l.source|] == l.source && l.kind == Hidden && IsParameter(l.source)
    requires StandsAt(s, a + |l.source|, m, next)
    ensures m.source != "" && m.source[0] != '$'
  {
    hide IsNumeral, Content, Print, Deepest, IsPlain, IsSpan;
    SpansExactly(m);
    if m.kind == Comment && IsBlockComment(m.source) {
      var x: Inside :| m.source == "/*" + Print(x);
      assert m.source[0] == '/';
    }
    assert s[a..a + |l.source|][|l.source| - 1] == s[a + |l.source| - 1];
  }

  lemma CutHead(s: string, i: nat, ls: seq<Lexeme>)
    requires IsCut(s, i, ls) && ls != []
    ensures var l := ls[0];
            && StandsAt(s, i, l, After(ls, 0)) && l.source != "" && i + |l.source| <= |s|
            && s[i..][..|l.source|] == l.source == s[i..i + |l.source|]
            && After(ls, 0) == Next(s, i + |l.source|) && IsCut(s, i + |l.source|, ls[1..])
  {
    hide StandsAt, Sources, Offset, After;
    var l, rest := ls[0], ls[1..];
    assert StandsAt(s, i, l, After(ls, 0)) by {
      NoOffset(ls);
      assert StandsAt(s, i + Offset(ls, 0), ls[0], After(ls, 0));
    }
    CutNonempty(s, i, l, After(ls, 0));
    CutSources(s, i, ls);
    forall k: nat | k < |rest| ensures StandsAt(s, i + |l.source| + Offset(rest, k), rest[k], After(rest, k)) {
      OffsetCons(ls, k + 1);
      assert StandsAt(s, i + Offset(ls, k + 1), ls[k + 1], After(ls, k + 1));
      AfterRest(ls, k);
    }
    if |ls| > 1 {
      NoOffset(rest);
      assert StandsAt(s, i + |l.source| + Offset(rest, 0), rest[0], After(rest, 0));
      CutNonempty(s, i + |l.source|, rest[0], After(rest, 0));
    }
    CutNext(s, i, ls);
  }

  lemma NoOffset(ls: seq<Lexeme>)
    requires ls != []
    ensures Offset(ls, 0) == 0
  {}

  lemma AfterRest(ls: seq<Lexeme>, k: nat)
    requires k + 1 < |ls|
    ensures After(ls, k + 1) == After(ls[1..], k)
  {}

  lemma CutSources(s: string, i: nat, ls: seq<Lexeme>)
    requires i <= |s| && Sources(ls) == s[i..] && ls != []
    ensures var n := |ls[0].source|;
            && i + n <= |s| && s[i..][..n] == ls[0].source == s[i..i + n] && Sources(ls[1..]) == s[i + n..]
  {
    var l, n := ls[0], |ls[0].source|;
    assert s[i..] == l.source + Sources(ls[1..]);
    assert s[i..][..n] == l.source && s[i + n..] == s[i..][n..] == Sources(ls[1..]);
  }

  lemma CutNext(s: string, i: nat, ls: seq<Lexeme>)
    requires ls != [] && i + |ls[0].source| <= |s| && Sources(ls[1..]) == s[i + |ls[0].source|..]
    requires |ls| > 1 ==> ls[1].source != ""
    ensures After(ls, 0) == Next(s, i + |ls[0].source|)
  {
    if |ls| > 1 { assert Sources(ls[1..]) == ls[1].source + Sources(ls[1..][1..]); }
  }

  lemma CutNonempty(s: string, a: nat, l: Lexeme, next: Option<char>)
    requires StandsAt(s, a, l, next)
    ensures l.source != ""
  {}

  lemma {:induction false} CutIsLexed(s: string, i: nat, ls: seq<Lexeme>)
    requires IsCut(s, i, ls)
    ensures Lexemes(s, i) == Some(ls)
    decreases |ls|
  {
    hide *;
    if ls == [] {
      NothingCut(s, i);
    } else {
      CutHead(s, i, ls);
      var l, rest := ls[0], ls[1..];
      CutIsLexed(s, i + |l.source|, rest);
      if l.kind == Hidden && IsParameter(l.source) && rest != [] {
        CutHead(s, i + |l.source|, rest);
        NoDollarNext(s, i, l, rest[0], After(rest, 0));
        AfterIsFirst(ls);
      } else if rest == [] {
        AfterIsNothing(ls);
      }
      StandsHere(s, i, l, After(ls, 0));
      TakeOfDrop(s, i, |l.source|);
      SpanReads(ContextAt(s, i), s[i..], l);
      NewSpan(s, i, l.source, l);
      HeadIs(ls, l);
    }
  }

  lemma AfterIsFirst(ls: seq<Lexeme>)
    requires |ls| > 1 && ls[1..][0].source != ""
    ensures After(ls, 0) == Some(ls[1..][0].source[0])
  {}

  lemma AfterIsNothing(ls: seq<Lexeme>)
    requires |ls| == 1 || (ls != [] && ls[1..] == [])
    ensures After(ls, 0) == None
  {}

  lemma HeadIs(ls: seq<Lexeme>, l: Lexeme)
    requires ls != [] && ls[0] == l
    ensures Before([l], Some(ls[1..])) == Some(ls)
  {
    assert [l] + ls[1..] == ls;
  }

  lemma StandsHere(s: string, i: nat, l: Lexeme, next: Option<char>)
    requires StandsAt(s, i, l, next)
    ensures i <= |s| && Stands(l, ContextAt(s, i).glued, ContextAt(s, i).escaped, next)
  {
    hide Stands, ContextAt;
    ContextIs(s, i);
  }

  lemma NothingCut(s: string, i: nat)
    requires IsCut(s, i, [])
    ensures Lexemes(s, i) == Some([])
  {
    hide Lex;
    assert Sources([]) == "";
    assert |s[i..]| == 0;
  }

  // ---------- the language ----------

  /** The scanner's way of cutting a text is the only one in which every span may stand where it does, and there is one
      whenever the scanner does not fail. */
  lemma CutExactly(s: string, ls: seq<Lexeme>)
    ensures Lexemes(s, 0) == Some(ls) <==> IsCut(s, 0, ls)
  {
    hide Lex, Lexemes, IsCut;
    if Lexemes(s, 0) == Some(ls) { LexedIsCut(s, 0, ls); }
    if IsCut(s, 0, ls) { CutIsLexed(s, 0, ls); }
  }

  /** A text has a shape exactly when it is admissible and can be cut into spans that show a query; its shape is that
      query, joined by blanks. */
  lemma ShapesExactly(s: string, shape: string)
    ensures Sanitize(s) == Some(shape) <==>
              && 0 < |s| <= 1048576 && ValidUtf8(s) && '\0' !in s
              && exists ls :: IsCut(s, 0, ls) && IsQuery(Shown(ls)) && shape == Join(Shown(ls))
  {
    hide Lex, Lexemes, IsCut, IsQuery, Sanitize, Join, Shown, ValidUtf8From;
    SanitizesExactly(s);
    if Lexemes(s, 0).Some? { CutExactly(s, Lexemes(s, 0).value); }
    forall ls ensures Lexemes(s, 0) == Some(ls) <==> IsCut(s, 0, ls) { CutExactly(s, ls); }
  }
}
