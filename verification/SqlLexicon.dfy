/** The lexical grammar of the SQL scanner in `sql.go`: what one scanning step recognises.
    Every scanner here takes the rest of the input, so that what it recognises cannot depend
    on anything further to the left than the two look-behind facts in `Context`. */
module SqlLexicon {
  import opened Bytes

  const MAX_INPUT := 0x10_0000
  const MAX_TOKENS := 65536
  const MAX_NESTING := 64

  predicate IsSpace(c: char) { c == ' ' || c == '\t' || c == '\r' || c == '\n' || c == '\U{0C}' }

  predicate NotLineBreak(c: char) { c != '\n' && c != '\r' }

  predicate IsOperator(c: char) {
    c == ',' || c == '.' || c == '*' || c == '=' || c == '<' || c == '>' || c == '+' || c == '-' || c == '/'
    || c == '%' || c == '!' || c == '|' || c == '&' || c == '^' || c == '~' || c == '?'
  }

  predicate IsBracketOrEnd(c: char) { c == '(' || c == ')' || c == ';' }

  predicate IsQuote(c: char) { c == '\'' || c == '"' || c == '`' || c == '[' }

  function Closing(open: char): char { if open == '[' then ']' else open }

  /** What a step may know about the characters before it: `glued` when the previous character
      continues an identifier or is a dot, `escaped` when an E-string prefix stands there. */
  datatype Context = Context(glued: bool, escaped: bool)

  function ContextAt(s: string, i: nat): Context
    requires i <= |s|
  {
    Context(
      i > 0 && (IsIdentContinue(s[i - 1]) || s[i - 1] == '.'),
      i > 0 && (s[i - 1] == 'E' || s[i - 1] == 'e') && (i == 1 || !IsIdentContinue(s[i - 2])))
  }

  /** Position after the comment whose text continues at `i`, inside `depth` openings. */
  function BlockEnd(t: string, i: nat, depth: nat): (r: Option<nat>)
    requires i <= |t| && depth > 0
    ensures r.Some? ==> i + 2 <= r.value <= |t|
    decreases |t| - i
  {
    if i + 1 >= |t| then None
    else if t[i] == '/' && t[i + 1] == '*' then
      if depth + 1 > MAX_NESTING then None else BlockEnd(t, i + 2, depth + 1)
    else if t[i] == '*' && t[i + 1] == '/' then
      if depth == 1 then Some(i + 2) else BlockEnd(t, i + 2, depth - 1)
    else BlockEnd(t, i + 1, depth)
  }

  /** Position after the closing quote of the quoted span whose content continues at `i`. */
  function QuoteEnd(t: string, i: nat, open: char, explicitEscape: bool): (r: Option<nat>)
    requires i <= |t|
    ensures r.Some? ==> i < r.value <= |t| && t[r.value - 1] == Closing(open)
    decreases |t| - i
  {
    if i == |t| then None
    else if t[i] == '\\' && open != '[' && i + 1 == |t| then None
    else if t[i] == '\\' && open != '[' && (explicitEscape || t[i + 1] == '\\') then
      QuoteEnd(t, i + 2, open, explicitEscape)
    else if t[i] == '\\' && open != '[' && t[i + 1] == Closing(open) then None
    else if t[i] != Closing(open) then QuoteEnd(t, i + 1, open, explicitEscape)
    else if i + 1 < |t| && t[i + 1] == Closing(open) then QuoteEnd(t, i + 2, open, explicitEscape)
    else Some(i + 1)
  }

  /** Position after the dollar-quote delimiter `$tag$` at `i`. */
  function DelimiterEnd(t: string, i: nat): (r: Option<nat>)
    requires i < |t|
    ensures r.Some? ==> i + 2 <= r.value <= |t|
  {
    var e := RunEnd(t, i + 1, IsIdentContinue);
    if e < |t| && t[e] == '$' && (e == i + 1 || IsIdentStart(t[i + 1])) then Some(e + 1) else None
  }

  /** The first position from `i` on where `d` occurs. */
  function Find(t: string, i: nat, d: string): (r: Option<nat>)
    requires i <= |t|
    ensures r.Some? ==> i <= r.value && r.value + |d| <= |t| && t[r.value..r.value + |d|] == d
    decreases |t| - i
  {
    if i + |d| > |t| then None
    else if t[i..i + |d|] == d then Some(i)
    else if i == |t| then None
    else Find(t, i + 1, d)
  }

  predicate EndsNumber(t: string, i: nat)
    requires i <= |t|
  {
    i == |t| || (!IsIdentContinue(t[i]) && t[i] != '.')
  }

  function FractionEnd(t: string, i: nat): (e: nat)
    requires i <= |t|
    ensures i <= e <= |t|
  {
    if i < |t| && t[i] == '.' then RunEnd(t, i + 1, IsDigit) else i
  }

  function ExponentEnd(t: string, i: nat): (r: Option<nat>)
    requires i <= |t|
    ensures r.Some? ==> i <= r.value <= |t|
  {
    if i < |t| && (t[i] == 'e' || t[i] == 'E') then
      var first := if i + 1 < |t| && (t[i + 1] == '+' || t[i + 1] == '-') then i + 2 else i + 1;
      var e := RunEnd(t, first, IsDigit);
      if e == first then None else Some(e)
    else Some(i)
  }

  predicate HasRadix(t: string, i: nat) {
    i + 1 < |t| && t[i] == '0' && (t[i + 1] == 'x' || t[i + 1] == 'X' || t[i + 1] == 'b' || t[i + 1] == 'B')
  }

  function RadixEnd(t: string, i: nat): (e: nat)
    requires HasRadix(t, i)
    ensures i + 2 <= e <= |t|
  {
    RunEnd(t, i + 2, if t[i + 1] == 'b' || t[i + 1] == 'B' then IsBinary else IsHex)
  }

  function DecimalEnd(t: string, i: nat): (r: Option<nat>)
    requires i <= |t|
    ensures r.Some? ==> i <= r.value <= |t|
  {
    ExponentEnd(t, FractionEnd(t, RunEnd(t, i, IsDigit)))
  }

  /** Position after the numeric literal at `i`; it must not run into a word or a dot. */
  function NumberEnd(t: string, i: nat): (r: Option<nat>)
    requires i <= |t|
    ensures r.Some? ==> i < r.value <= |t| && EndsNumber(t, r.value)
  {
    if HasRadix(t, i) then
      var e := RadixEnd(t, i);
      if e > i + 2 && EndsNumber(t, e) then Some(e) else None
    else
      match DecimalEnd(t, i)
      case None => None
      case Some(e) => if e > i && EndsNumber(t, e) then Some(e) else None
  }

  datatype Kind = Blank | Comment | Quoted | Hidden | Word | Mark

  /** One scanning step: nothing recognised, or a span of `len` characters shown as `shown`. */
  datatype Step = Reject | Span(kind: Kind, len: nat, shown: string)

  function SpanOf(kind: Kind, o: Option<nat>, shown: string): Step {
    match o
    case None => Reject
    case Some(n) => Span(kind, n, shown)
  }

  predicate IsLiteralWord(w: string) {
    Upper(w) == "TRUE" || Upper(w) == "FALSE" || Upper(w) == "NULL"
  }

  predicate StartsComment(t: string) {
    t != [] && (t[0] == '#' || (|t| > 1 && t[0] == '-' && t[1] == '-'))
  }

  predicate StartsParameter(t: string) {
    t != [] && (t[0] == '@' || (|t| > 1 && t[0] == ':' && t[1] != ':' && IsIdentContinue(t[1])))
  }

  predicate StartsNumber(t: string) {
    t != [] && (IsDigit(t[0]) || (|t| > 1 && t[0] == '.' && IsDigit(t[1])))
  }

  function LexDollar(glued: bool, t: string): Step
    requires t != []
  {
    if glued then Reject
    else match DelimiterEnd(t, 0)
      case Some(d) => SpanOf(Hidden, Plus(d, Find(t, d, t[..d])), "?")
      case None =>
        var e := RunEnd(t, 1, IsIdentContinue);
        if e == 1 then Reject else Span(Hidden, e, "?")
  }

  function LexParameter(glued: bool, t: string): Step
    requires StartsParameter(t)
  {
    var start: nat := if t[0] == '@' && |t| > 1 && t[1] == '@' then 2 else 1;
    var e := RunEnd(t, start, IsIdentContinue);
    if glued || e == start then Reject else Span(Hidden, e, "?")
  }

  function LexWord(t: string): Step {
    var e := RunEnd(t, 0, IsIdentContinue);
    Span(Word, e, if IsLiteralWord(t[..e]) then "?" else t[..e])
  }

  /** The span at the start of `t`, the branches in the scanner's order. */
  function Lex(c: Context, t: string): (r: Step)
    requires t != []
    ensures r.Span? ==> 0 < r.len <= |t|
  {
    if IsSpace(t[0]) then Span(Blank, 1, "")
    else if t[0] as int < 0x20 || t[0] as int >= 0x80 then Reject
    else if StartsComment(t) then Span(Comment, RunEnd(t, 0, NotLineBreak), "")
    else if |t| > 1 && t[0] == '/' && t[1] == '*' then SpanOf(Comment, BlockEnd(t, 2, 1), "")
    else if IsQuote(t[0]) then SpanOf(Quoted, QuoteEnd(t, 1, t[0], t[0] == '\'' && c.escaped), "?")
    else if t[0] == '$' then LexDollar(c.glued, t)
    else if StartsParameter(t) then LexParameter(c.glued, t)
    else if StartsNumber(t) then SpanOf(Hidden, NumberEnd(t, 0), "?")
    else if IsIdentStart(t[0]) then LexWord(t)
    else if IsBracketOrEnd(t[0]) || IsOperator(t[0]) then Span(Mark, 1, t[..1])
    else if |t| > 1 && t[0] == ':' && t[1] == ':' then Span(Mark, 2, "::")
    else Reject
  }
}
