/** What the spans of an accepted query are: a partition of it into well-formed, maximal pieces. */
module SqlSpans {
  import opened Bytes
  import opened SqlLexicon
  import opened SqlLocality
  import opened SqlShape
  import opened SqlGrammar

  function Sources(ls: seq<Lexeme>): string {
    if ls == [] then "" else ls[0].source + Sources(ls[1..])
  }

  ghost predicate IsWord(w: string) {
    w != "" && IsIdentStart(w[0]) && forall k :: 0 <= k < |w| ==> IsIdentContinue(w[k])
  }

  ghost predicate IsLineComment(q: string) {
    StartsComment(q) && forall k :: 0 <= k < |q| ==> NotLineBreak(q[k])
  }

  ghost predicate IsQuoted(q: string, e: bool) {
    |q| >= 2 && IsQuote(q[0]) && q[|q| - 1] == Closing(q[0]) && Content(q, 1, |q| - 1, q[0], e)
  }

  ghost predicate IsDollarText(q: string) { exists n: nat :: IsDollarQuoted(q, n) }

  /** What a span of each kind is made of, and what it shows. */
  ghost predicate WellFormed(l: Lexeme) {
    l.source != "" &&
    match l.kind
    case Blank => l.shown == "" && |l.source| == 1 && IsSpace(l.source[0])
    case Comment => l.shown == "" && (IsLineComment(l.source) || IsBlockComment(l.source))
    case Quoted => l.shown == "?" && (IsQuoted(l.source, true) || IsQuoted(l.source, false))
    case Hidden => l.shown == "?" && (IsParameter(l.source) || IsNumber(l.source) || IsDollarText(l.source))
    case Word => IsWord(l.source) && l.shown == if IsLiteralWord(l.source) then "?" else l.source
    case Mark =>
      var isOne := |l.source| == 1 && (IsBracketOrEnd(l.source[0]) || IsOperator(l.source[0]));
      l.shown == l.source && (l.source == "::" || isOne)
  }

  predicate Continues(next: Option<char>) { next.Some? && IsIdentContinue(next.value) }

  /** The span could not have gone on into the character after it. */
  ghost predicate Ends(l: Lexeme, next: Option<char>) {
    l.source != "" &&
    match l.kind
    case Blank => true
    case Comment => IsLineComment(l.source) ==> next.None? || !NotLineBreak(next.value)
    case Quoted => next != Some(Closing(l.source[0]))
    case Hidden =>
      && (IsParameter(l.source) ==> !Continues(next))
      && (IsNumber(l.source) ==> !Continues(next) && next != Some('.'))
    case Word => !Continues(next)
    case Mark =>
      && (l.source == "-" ==> next != Some('-')) && (l.source == "/" ==> next != Some('*'))
      && (l.source == "." ==> next.None? || !IsDigit(next.value))
  }

  // ---------- one step ----------

  /** The span that a step takes from the start of `t`. */
  function Taken(step: Step, t: string): Lexeme
    requires step.Span? && step.len <= |t|
  {
    Lexeme(step.kind, t[..step.len], step.shown)
  }

  lemma LexQuotedKind(c: Context, t: string)
    requires t != [] && Lex(c, t).Span? && Lex(c, t).kind == Quoted
    ensures IsQuote(t[0]) && QuoteEnd(t, 1, t[0], t[0] == '\'' && c.escaped) == Some(Lex(c, t).len)
    ensures Lex(c, t).shown == "?"
  {}

  lemma QuotedSpan(c: Context, t: string)
    requires t != [] && Lex(c, t).Span? && Lex(c, t).kind == Quoted
    ensures var l := Taken(Lex(c, t), t);
            IsQuoted(l.source, t[0] == '\'' && c.escaped) && WellFormed(l) && Ends(l, Next(t, |l.source|))
  {
    LexQuotedKind(c, t);
    hide Lex;
    var n, e := Lex(c, t).len, t[0] == '\'' && c.escaped;
    QuoteEndSound(t, 1, t[0], e);
    ContentAgree(t, t[..n], 1, n - 1, t[0], e);
  }

  lemma LexCommentKind(c: Context, t: string)
    requires t != [] && Lex(c, t).Span? && Lex(c, t).kind == Comment
    ensures Lex(c, t).shown == ""
    ensures if StartsComment(t) then Lex(c, t).len == RunEnd(t, 0, NotLineBreak)
            else At(t, 0, "/*") && BlockEnd(t, 2, 1) == Some(Lex(c, t).len)
  {
    hide BlockEnd, QuoteEnd, NumberEnd, DelimiterEnd, Find, RunEnd, IsLiteralWord;
    if !StartsComment(t) { assert t[0..2] == "/*"; }
  }

  lemma CommentSpan(c: Context, t: string)
    requires t != [] && Lex(c, t).Span? && Lex(c, t).kind == Comment
    ensures var l := Taken(Lex(c, t), t); WellFormed(l) && Ends(l, Next(t, |l.source|))
  {
    LexCommentKind(c, t);
    hide Lex, BlockEnd, RunEnd, IsBlockComment;
    var w := t[..Lex(c, t).len];
    assert forall k :: 0 <= k < |w| ==> w[k] == t[k];
    if !StartsComment(t) {
      CommentExact(t, |w|);
      assert t[0] == '/' by { OpeningAt(t, 0); }
    } else {
      assert |w| >= (if t[0] == '#' then 1 else 2) by { assert NotLineBreak(t[0]); }
    }
  }

  /** What a hidden span can start with. */
  lemma LexHiddenKind(c: Context, t: string)
    requires t != [] && Lex(c, t).Span? && Lex(c, t).kind == Hidden
    ensures Lex(c, t).shown == "?"
    ensures || (t[0] == '$' && LexDollar(c.glued, t) == Lex(c, t))
            || (StartsParameter(t) && LexParameter(c.glued, t) == Lex(c, t))
            || (StartsNumber(t) && NumberEnd(t, 0) == Some(Lex(c, t).len))
  {
    hide BlockEnd, QuoteEnd, NumberEnd, DelimiterEnd, Find, RunEnd, IsLiteralWord;
  }

  lemma {:induction false} FindFirst(t: string, i: nat, d: string)
    requires i <= |t| && Find(t, i, d).Some?
    ensures forall k: nat :: i <= k < Find(t, i, d).value ==> !At(t, k, d)
    decreases |t| - i
  {
    if t[i..i + |d|] != d { FindFirst(t, i + 1, d); }
  }

  lemma DollarTextSpan(t: string, d: nat, p: nat)
    requires t != [] && t[0] == '$' && DelimiterEnd(t, 0) == Some(d) && Find(t, d, t[..d]) == Some(p)
    ensures IsDollarQuoted(t[..p + d], d)
  {
    hide Find, DelimiterEnd, At;
    DelimiterIs(t, d);
    DelimitersSame(t, d, p);
    BodyWithout(t, d, p, t[..p + d], t[..d]);
  }

  lemma DelimitersSame(t: string, d: nat, p: nat)
    requires d <= p && p + d <= |t| && t[p..p + d] == t[..d]
    ensures t[..p + d][..d] == t[..d] && t[..p + d][p..] == t[..d]
  {
    SliceSlice(t, 0, p + d, 0, d);
    SliceSlice(t, 0, p + d, p, p + d);
  }

  lemma BodyWithout(t: string, d: nat, p: nat, q: string, x: string)
    requires d <= |t| && x == t[..d] && Find(t, d, x) == Some(p) && q == t[..p + d]
    ensures forall k: nat :: d <= k < p ==> !At(q, k, x)
  {
    FindFirst(t, d, x);
    hide Find, At;
    forall k: nat | d <= k < p ensures !At(q, k, x) {
      NotInside(t, q, k, x);
    }
  }

  lemma DelimiterIs(t: string, d: nat)
    requires t != [] && t[0] == '$' && DelimiterEnd(t, 0) == Some(d)
    ensures 2 <= d <= |t| && t[d - 1] == '$' && (d > 2 ==> IsIdentStart(t[1]))
    ensures forall k :: 1 <= k < d - 1 ==> IsIdentContinue(t[k])
  {
    hide RunEnd;
  }

  lemma NotInside(t: string, q: string, k: nat, x: string)
    requires q <= t && k + |x| <= |q| && !At(t, k, x)
    ensures !At(q, k, x)
  {
    assert q[k..k + |x|] == t[k..k + |x|];
  }

  lemma DollarSpan(glued: bool, t: string)
    requires t != [] && t[0] == '$' && LexDollar(glued, t).Span?
    ensures var q := t[..LexDollar(glued, t).len];
            IsDollarText(q) || (IsParameter(q) && !Continues(Next(t, |q|)))
  {
    hide Find, RunEnd, IsDollarQuoted;
    var q := t[..LexDollar(glued, t).len];
    assert forall k :: 0 <= k < |q| ==> q[k] == t[k];
    if DelimiterEnd(t, 0).Some? {
      var d := DelimiterEnd(t, 0).value;
      DollarTextSpan(t, d, Find(t, d, t[..d]).value);
      assert IsDollarQuoted(q, d);
    }
  }

  lemma ParameterSpan(glued: bool, t: string)
    requires StartsParameter(t) && LexParameter(glued, t).Span?
    ensures var q := t[..LexParameter(glued, t).len]; IsParameter(q) && !Continues(Next(t, |q|))
  {
    hide RunEnd;
    var q := t[..LexParameter(glued, t).len];
    assert forall k :: 0 <= k < |q| ==> q[k] == t[k];
  }

  lemma NumberSpan(t: string)
    requires StartsNumber(t) && NumberEnd(t, 0).Some?
    ensures var q := t[..NumberEnd(t, 0).value];
            IsNumber(q) && !Continues(Next(t, |q|)) && Next(t, |q|) != Some('.')
  {
    hide IsNumeral;
    var n := NumberEnd(t, 0).value;
    NumberExact(t, n);
    NumeralAgree(t, t[..n], n);
    NumeralStarts(t, n);
  }

  /** A numeral that starts with a dot goes on with a digit. */
  lemma NumeralStarts(t: string, n: nat)
    requires StartsNumber(t) && 0 < n <= |t| && NumberEnd(t, 0) == Some(n)
    ensures StartsNumber(t[..n])
  {
    if !IsDigit(t[0]) { assert n > 1; }
  }

  /** The three kinds of hidden spans start differently. */
  lemma HiddenKindsApart(q: string)
    ensures !(IsParameter(q) && IsNumber(q)) && !(IsParameter(q) && IsDollarText(q))
    ensures !(IsNumber(q) && IsDollarText(q))
  {
    if IsDollarText(q) {
      var n: nat :| IsDollarQuoted(q, n);
      assert q[n - 1] == '$' && !IsIdentContinue('$');
    }
  }

  lemma HiddenSpan(c: Context, t: string)
    requires t != [] && Lex(c, t).Span? && Lex(c, t).kind == Hidden
    ensures var l := Taken(Lex(c, t), t); WellFormed(l) && Ends(l, Next(t, |l.source|))
  {
    LexHiddenKind(c, t);
    hide Lex, LexDollar, LexParameter, NumberEnd, IsNumber, IsParameter, IsDollarText, Continues;
    HiddenKindsApart(t[..Lex(c, t).len]);
    if t[0] == '$' && LexDollar(c.glued, t) == Lex(c, t) {
      DollarSpan(c.glued, t);
    } else if StartsParameter(t) && LexParameter(c.glued, t) == Lex(c, t) {
      ParameterSpan(c.glued, t);
    } else {
      NumberSpan(t);
    }
  }

  /** Every step takes a well-formed span that cannot go on. */
  lemma LexSpan(c: Context, t: string)
    requires t != [] && Lex(c, t).Span?
    ensures var l := Taken(Lex(c, t), t); WellFormed(l) && Ends(l, Next(t, |l.source|))
  {
    hide BlockEnd, QuoteEnd, NumberEnd, LexDollar, LexParameter, Find, RunEnd, Upper, Content;
    var r := Lex(c, t);
    if r.kind == Quoted {
      QuotedSpan(c, t);
    } else if r.kind == Comment {
      CommentSpan(c, t);
    } else if r.kind == Hidden {
      HiddenSpan(c, t);
    } else {
      PlainSpan(c, t);
    }
  }

  lemma LexWordKind(c: Context, t: string)
    requires t != [] && Lex(c, t).Span? && Lex(c, t).kind == Word
    ensures IsIdentStart(t[0]) && Lex(c, t) == LexWord(t)
  {
    hide BlockEnd, QuoteEnd, NumberEnd, DelimiterEnd, Find, RunEnd, Upper;
  }

  lemma PlainSpan(c: Context, t: string)
    requires t != [] && Lex(c, t).Span? && (Lex(c, t).kind == Blank || Lex(c, t).kind == Word || Lex(c, t).kind == Mark)
    ensures var l := Taken(Lex(c, t), t); WellFormed(l) && Ends(l, Next(t, |l.source|))
  {
    hide BlockEnd, QuoteEnd, NumberEnd, DelimiterEnd, Find, RunEnd, Upper;
    var w := t[..Lex(c, t).len];
    assert forall k :: 0 <= k < |w| ==> w[k] == t[k];
    if Lex(c, t).kind == Word {
      LexWordKind(c, t);
      hide Lex;
      assert w[0] == t[0];
    }
  }

  // ---------- the partition ----------

  lemma SourcesCons(l: Lexeme, rest: seq<Lexeme>, s: string, i: nat)
    requires i + |l.source| <= |s| && l.source == s[i..i + |l.source|] && Sources(rest) == s[i + |l.source|..]
    ensures Sources([l] + rest) == s[i..]
  {
    assert ([l] + rest)[1..] == rest;
  }

  lemma TakeOfDrop(s: string, i: nat, n: nat)
    requires i + n <= |s|
    ensures s[i..][..n] == s[i..i + n] && Next(s[i..], n) == Next(s, i + n)
  {}

  /** The first lexeme of a lexed rest. */
  lemma FirstLexeme(s: string, i: nat) returns (l: Lexeme, rest: seq<Lexeme>)
    requires i < |s| && Lexemes(s, i).Some?
    ensures Lexemes(s, i).value == [l] + rest && WellFormed(l) && l.source != ""
    ensures i + |l.source| <= |s| && l.source == s[i..i + |l.source|] && Ends(l, Next(s, i + |l.source|))
    ensures Lexemes(s, i + |l.source|) == Some(rest)
    ensures Lex(ContextAt(s, i), s[i..]) == Span(l.kind, |l.source|, l.shown)
  {
    hide Lex, WellFormed, Ends, Next;
    var t := s[i..];
    var step := Lex(ContextAt(s, i), t);
    LexSpan(ContextAt(s, i), t);
    TakeOfDrop(s, i, step.len);
    l, rest := Lexeme(step.kind, s[i..i + step.len], step.shown), Lexemes(s, i + step.len).value;
  }

  /** The character after the span at `k`. */
  function After(ls: seq<Lexeme>, k: nat): Option<char>
    requires k < |ls|
  {
    if k + 1 < |ls| then Next(ls[k + 1].source, 0) else None
  }

  /** Every span is well formed and ends where it must. */
  ghost predicate AllWellFormed(ls: seq<Lexeme>) {
    forall k: nat :: k < |ls| ==> WellFormed(ls[k]) && Ends(ls[k], After(ls, k))
  }

  lemma AfterFirst(s: string, j: nat, l: Lexeme, rest: seq<Lexeme>)
    requires j <= |s| && Sources(rest) == s[j..] && (rest != [] ==> rest[0].source != "")
    ensures After([l] + rest, 0) == Next(s, j)
  {
    if rest != [] { assert Sources(rest)[0] == rest[0].source[0]; }
  }

  lemma AllWellFormedCons(l: Lexeme, rest: seq<Lexeme>)
    requires WellFormed(l) && Ends(l, After([l] + rest, 0)) && AllWellFormed(rest)
    ensures AllWellFormed([l] + rest)
  {
    hide WellFormed, Ends;
    var ls := [l] + rest;
    forall k: nat | k < |ls| ensures WellFormed(ls[k]) && Ends(ls[k], After(ls, k)) {
      if k > 0 { assert ls[k] == rest[k - 1] && After(ls, k) == After(rest, k - 1); }
    }
  }

  lemma {:induction false} PartitionFrom(s: string, i: nat)
    requires i <= |s| && Lexemes(s, i).Some?
    ensures Sources(Lexemes(s, i).value) == s[i..] && AllWellFormed(Lexemes(s, i).value)
    decreases |s| - i
  {
    hide Lex, WellFormed, Ends, ContextAt, AllWellFormed;
    if i == |s| {
      NothingLeft(s);
    } else {
      var l, rest := FirstLexeme(s, i);
      hide Lexemes, Sources;
      PartitionFrom(s, i + |l.source|);
      SourcesCons(l, rest, s, i);
      if rest != [] { FirstNotEmpty(rest); }
      AfterFirst(s, i + |l.source|, l, rest);
      AllWellFormedCons(l, rest);
    }
  }

  lemma NothingLeft(s: string)
    ensures Lexemes(s, |s|) == Some([]) && Sources([]) == s[|s|..] && AllWellFormed([])
  {}

  lemma FirstNotEmpty(ls: seq<Lexeme>)
    requires AllWellFormed(ls) && ls != []
    ensures ls[0].source != ""
  {
    assert WellFormed(ls[0]);
  }

  lemma NestKeepsTexts(ts: seq<Token>, texts: seq<string>, depth: nat)
    requires Nest(texts, depth) == Some(ts)
    ensures Texts(ts) == texts
  {}

  lemma AcceptedParts(s: string)
    requires Sanitize(s).Some?
    ensures Admissible(s) && Lexemes(s, 0).Some?
    ensures Sanitize(s).value == Join(Shown(Lexemes(s, 0).value))
  {
    hide Lex, Lexemes, Admissible, Nest, StatementsSupported;
    var ls := Lexemes(s, 0).value;
    var ts := Nest(Shown(ls), 0).value;
    assert [] + ts == ts;
    NestKeepsTexts(ts, Shown(ls), 0);
  }

  /** An accepted query is cut exactly into well-formed spans none of which could go on, and its shape shows them in
      order: words and marks as they stand, every literal as a question mark, blanks and comments not at all. */
  lemma Partition(s: string)
    requires Sanitize(s).Some?
    ensures Admissible(s) && Lexemes(s, 0).Some?
    ensures var ls := Lexemes(s, 0).value;
            && Sources(ls) == s && AllWellFormed(ls)
            && Sanitize(s).value == Join(Shown(ls))
  {
    hide Lex, Lexemes, Admissible, Sanitize, WellFormed, Ends;
    AcceptedParts(s);
    PartitionFrom(s, 0);
    assert s[0..] == s;
  }
}
