/** The scanner of `sql.go` as it runs: cursor loops over the input, proved to compute `SqlShape.Sanitize`. */
module SqlScanner {
  import opened Bytes
  import opened SqlLexicon
  import opened SqlLocality
  import opened SqlShape

  method ScanRun(input: string, start: nat, p: char -> bool) returns (i: nat)
    requires start <= |input|
    ensures i == RunEnd(input, start, p)
  {
    i := start;
    while i < |input| && p(input[i])
      invariant start <= i <= |input|
      invariant RunEnd(input, start, p) == RunEnd(input, i, p)
    {
      i := i + 1;
    }
  }

  method ScanBlockComment(input: string, start: nat) returns (end: nat, ok: bool)
    requires start <= |input|
    ensures BlockEnd(input, start, 1) == if ok then Some(end) else None
  {
    var i, depth := start, 1;
    while i + 1 < |input|
      invariant start <= i <= |input| && depth > 0
      invariant BlockEnd(input, start, 1) == BlockEnd(input, i, depth)
    {
      if input[i] == '/' && input[i + 1] == '*' {
        depth := depth + 1;
        if depth > MAX_NESTING { return 0, false; }
        i := i + 2;
      } else if input[i] == '*' && input[i + 1] == '/' {
        depth := depth - 1;
        i := i + 2;
        if depth == 0 { return i, true; }
      } else {
        i := i + 1;
      }
    }
    return 0, false;
  }

  method ScanQuote(input: string, start: nat) returns (end: nat, ok: bool)
    requires start < |input| && IsQuote(input[start])
    ensures QuoteEnd(input, start + 1, input[start], input[start] == '\'' && ContextAt(input, start).escaped)
         == if ok then Some(end) else None
  {
    var open := input[start];
    var close := open;
    var explicitEscape := close == '\'' && start > 0 && (input[start - 1] == 'E' || input[start - 1] == 'e')
                          && (start == 1 || !IsIdentContinue(input[start - 2]));
    if close == '[' { close := ']'; }
    var i := start + 1;
    while i < |input|
      invariant start < i <= |input|
      invariant QuoteEnd(input, start + 1, open, explicitEscape) == QuoteEnd(input, i, open, explicitEscape)
      decreases |input| - i
    {
      if input[i] == '\\' && open != '[' {
        if i + 1 >= |input| { return 0, false; }
        if explicitEscape || input[i + 1] == '\\' {
          i := i + 2;
          continue;
        }
        if input[i + 1] == close { return 0, false; }
      }
      if input[i] == close {
        if i + 1 < |input| && input[i + 1] == close {
          i := i + 2;
          continue;
        }
        return i + 1, true;
      }
      i := i + 1;
    }
    return 0, false;
  }

  method ScanDelimiter(input: string, start: nat) returns (after: nat, ok: bool)
    requires start < |input|
    ensures DelimiterEnd(input, start) == if ok then Some(after) else None
  {
    var i := start + 1;
    if i < |input| && input[i] == '$' { return i + 1, true; }
    if i >= |input| || !IsIdentStart(input[i]) { return 0, false; }
    i := ScanRun(input, i, IsIdentContinue);
    if i < |input| && input[i] == '$' { return i + 1, true; }
    return 0, false;
  }

  method ScanFind(t: string, start: nat, d: string) returns (r: Option<nat>)
    requires start <= |t|
    ensures r == Find(t, start, d)
  {
    var i := start;
    while i + |d| <= |t|
      invariant start <= i <= |t|
      invariant Find(t, start, d) == Find(t, i, d)
    {
      if t[i..i + |d|] == d { return Some(i); }
      if i == |t| { return None; }
      i := i + 1;
    }
    return None;
  }

  method ScanExponent(input: string, start: nat) returns (end: nat, ok: bool)
    requires start <= |input|
    ensures ExponentEnd(input, start) == if ok then Some(end) else None
  {
    var i := start;
    if i < |input| && (input[i] == 'e' || input[i] == 'E') {
      i := i + 1;
      if i < |input| && (input[i] == '+' || input[i] == '-') { i := i + 1; }
      var first := i;
      i := ScanRun(input, i, IsDigit);
      if i == first { return 0, false; }
    }
    return i, true;
  }

  method ScanNumber(input: string, start: nat) returns (end: nat, ok: bool)
    requires start <= |input|
    ensures NumberEnd(input, start) == if ok then Some(end) else None
  {
    hide RunEnd, ExponentEnd;
    var i := start;
    if i + 1 < |input| && input[i] == '0'
       && (input[i + 1] == 'x' || input[i + 1] == 'X' || input[i + 1] == 'b' || input[i + 1] == 'B') {
      var binary := input[i + 1] == 'b' || input[i + 1] == 'B';
      i := i + 2;
      var first := i;
      i := ScanRun(input, i, if binary then IsBinary else IsHex);
      assert HasRadix(input, start) && i == RadixEnd(input, start);
      return i, i > first && (i == |input| || (!IsIdentContinue(input[i]) && input[i] != '.'));
    }
    i := ScanRun(input, i, IsDigit);
    if i < |input| && input[i] == '.' {
      i := ScanRun(input, i + 1, IsDigit);
    }
    assert i == FractionEnd(input, RunEnd(input, start, IsDigit));
    i, ok := ScanExponent(input, i);
    assert DecimalEnd(input, start) == if ok then Some(i) else None;
    if !ok { return 0, false; }
    return i, i > start && (i == |input| || (!IsIdentContinue(input[i]) && input[i] != '.'));
  }

  /** `$` at `start`: a dollar-quoted body or a parameter. */
  method ScanDollar(input: string, start: nat) returns (end: nat, ok: bool)
    requires start < |input|
    ensures ok ==> start < end <= |input|
    ensures LexDollar(ContextAt(input, start).glued, input[start..])
         == if ok then Span(Hidden, end - start, "?") else Reject
  {
    hide Find, DelimiterEnd, RunEnd;
    ghost var t := input[start..];
    DelimiterEndShift(input, start, t);
    if start > 0 && (IsIdentContinue(input[start - 1]) || input[start - 1] == '.') { return 0, false; }
    var after, delimited := ScanDelimiter(input, start);
    if delimited {
      var delimiter := input[start..after];
      assert delimiter == t[..after - start];
      FindShift(input, start, t, after, delimiter);
      var close := ScanFind(input, after, delimiter);
      if close.None? { return 0, false; }
      return close.value + |delimiter|, true;
    }
    RunEndShift(input, start, t, start + 1, IsIdentContinue);
    var i := ScanRun(input, start + 1, IsIdentContinue);
    return i, i != start + 1;
  }

  /** `:name`, `@name` or `@@name` at `start`. */
  method ScanParameter(input: string, start: nat) returns (end: nat, ok: bool)
    requires start < |input| && StartsParameter(input[start..])
    ensures ok ==> start < end <= |input|
    ensures LexParameter(ContextAt(input, start).glued, input[start..])
         == if ok then Span(Hidden, end - start, "?") else Reject
  {
    if start > 0 && (IsIdentContinue(input[start - 1]) || input[start - 1] == '.') { return 0, false; }
    var i := start + 1;
    if input[start] == '@' && i < |input| && input[i] == '@' { i := i + 1; }
    RunEndShift(input, start, input[start..], i, IsIdentContinue);
    end := ScanRun(input, i, IsIdentContinue);
    return end, end != i;
  }

  method ScanWord(input: string, start: nat) returns (step: Step)
    requires start < |input| && IsIdentStart(input[start])
    ensures step == LexWord(input[start..])
  {
    RunEndShift(input, start, input[start..], start, IsIdentContinue);
    var end := ScanRun(input, start + 1, IsIdentContinue);
    var word := input[start..end];
    assert word == input[start..][..end - start];
    var upper := Upper(word);
    if upper == "TRUE" || upper == "FALSE" || upper == "NULL" { word := "?"; }
    return Span(Word, end - start, word);
  }

  /** One turn of the scanning loop: the branches in source order. */
  method ScanStep(input: string, i: nat) returns (step: Step)
    requires i < |input|
    ensures step == Lex(ContextAt(input, i), input[i..])
  {
    hide BlockEnd, QuoteEnd, NumberEnd, LexDollar, LexParameter, LexWord, RunEnd, ContextAt;
    var c := input[i];
    ghost var t := input[i..];
    if IsSpace(c) { return Span(Blank, 1, ""); }
    if c as int < 0x20 || c as int >= 0x80 { return Reject; }
    if c == '#' || (c == '-' && i + 1 < |input| && input[i + 1] == '-') {
      RunEndShift(input, i, t, i, NotLineBreak);
      var end := ScanRun(input, i, NotLineBreak);
      return Span(Comment, end - i, "");
    }
    if c == '/' && i + 1 < |input| && input[i + 1] == '*' {
      BlockEndShift(input, i, t, i + 2, 1);
      var end, ok := ScanBlockComment(input, i + 2);
      return if ok then Span(Comment, end - i, "") else Reject;
    }
    if c == '\'' || c == '"' || c == '`' || c == '[' {
      QuoteEndShift(input, i, t, i + 1, c, c == '\'' && ContextAt(input, i).escaped);
      var end, ok := ScanQuote(input, i);
      return if ok then Span(Quoted, end - i, "?") else Reject;
    }
    if c == '$' {
      var end, ok := ScanDollar(input, i);
      return if ok then Span(Hidden, end - i, "?") else Reject;
    }
    if (c == ':' && i + 1 < |input| && input[i + 1] != ':' && IsIdentContinue(input[i + 1])) || c == '@' {
      var end, ok := ScanParameter(input, i);
      return if ok then Span(Hidden, end - i, "?") else Reject;
    }
    if IsDigit(c) || (c == '.' && i + 1 < |input| && IsDigit(input[i + 1])) {
      NumberEndShift(input, i, t);
      var end, ok := ScanNumber(input, i);
      return if ok then Span(Hidden, end - i, "?") else Reject;
    }
    if IsIdentStart(c) {
      step := ScanWord(input, i);
      return;
    }
    assert input[i..i + 1] == t[..1];
    if IsBracketOrEnd(c) || IsOperator(c) { return Span(Mark, 1, input[i..i + 1]); }
    if c == ':' && i + 1 < |input| && input[i + 1] == ':' { return Span(Mark, 2, "::"); }
    return Reject;
  }

  /** `appendToken` and the parenthesis counter. */
  method AppendToken(tokens: seq<Token>, depth: nat, text: string)
      returns (tokens': seq<Token>, depth': nat, ok: bool)
    requires |tokens| <= MAX_TOKENS
    ensures ok <==> |tokens| < MAX_TOKENS && Place(text, depth).Some?
    ensures ok ==> tokens' == tokens + [Place(text, depth).value.token] && depth' == Place(text, depth).value.depth
  {
    tokens', depth' := tokens, depth;
    var at := depth;
    if text == "(" {
      if depth >= MAX_NESTING { return tokens, depth, false; }
      depth' := depth + 1;
    } else if text == ")" {
      if depth == 0 { return tokens, depth, false; }
      depth' := depth - 1;
      at := depth';
    } else if text == ";" {
      if depth != 0 { return tokens, depth, false; }
    }
    if |tokens| >= MAX_TOKENS { return tokens, depth, false; }
    tokens' := tokens + [Token(text, at)];
    return tokens', depth', true;
  }

  /** The tokenising loop with its depth counter and token budget. */
  method ScanTokens(input: string) returns (tokens: seq<Token>, ok: bool)
    ensures SqlShape.Tokens(input) == if ok then Some(tokens) else None
  {
    hide Lex, Lexemes, Outcome, Place;
    tokens, ok := [], true;
    var depth := 0;
    var i := 0;
    while i < |input|
      invariant 0 <= i <= |input| && depth >= 0 && |tokens| <= MAX_TOKENS
      invariant SqlShape.Tokens(input) == Outcome(tokens, depth, Lexemes(input, i))
    {
      var step := ScanStep(input, i);
      AdvanceStep(step, input, i, tokens, depth);
      if step.Reject? { return [], false; }
      if !Silent(step.kind) {
        tokens, depth, ok := AppendToken(tokens, depth, step.shown);
        if !ok { return [], false; }
      }
      i := i + step.len;
    }
    OutcomeAtEnd(input, tokens, depth);
    return tokens, depth == 0;
  }

  method HasToken(tokens: seq<Token>, word: string) returns (found: bool)
    ensures found == Has(tokens, word)
  {
    if tokens == [] { return false; }
    for k := 1 to |tokens|
      invariant forall j :: 1 <= j < k ==> !(tokens[j].depth == 0 && Upper(tokens[j].text) == word)
    {
      if tokens[k].depth == 0 && Upper(tokens[k].text) == word { return true; }
    }
    return false;
  }

  method HasCredential(tokens: seq<Token>) returns (found: bool)
    ensures found == exists k :: 1 <= k < |tokens| && IsCredential(Upper(tokens[k].text))
  {
    if tokens == [] { return false; }
    for k := 1 to |tokens|
      invariant forall j :: 1 <= j < k ==> !IsCredential(Upper(tokens[j].text))
    {
      if IsCredential(Upper(tokens[k].text)) { return true; }
    }
    return false;
  }

  method ScanSchemaObject(tokens: seq<Token>) returns (ok: bool)
    ensures ok == NamesSchemaObject(tokens, 1)
  {
    var i := 1;
    while i < |tokens| - 1 && i < 5
      invariant i >= 1 && NamesSchemaObject(tokens, 1) == NamesSchemaObject(tokens, i)
    {
      if IsModifier(Upper(tokens[i].text)) {
        i := i + 1;
        continue;
      }
      return IsSchemaObject(Upper(tokens[i].text));
    }
    return false;
  }

  method ScanInnerVerb(tokens: seq<Token>) returns (i: nat)
    ensures i == FirstInnerVerb(tokens, 1)
  {
    i := 1;
    while i < |tokens| - 1
      invariant i >= 1 && FirstInnerVerb(tokens, 1) == FirstInnerVerb(tokens, i)
    {
      if tokens[i].depth == 0 {
        if IsVerb(Upper(tokens[i].text)) { return; }
      }
      i := i + 1;
    }
  }

  method SupportedStatement(tokens: seq<Token>) returns (ok: bool)
    ensures ok == Supported(tokens)
    decreases |tokens|
  {
    if |tokens| < 2 || tokens[0].depth != 0 { return false; }
    var verb := Upper(tokens[0].text);
    if verb == "SELECT" {
      return !EndsSelect(Upper(tokens[1].text));
    } else if verb == "INSERT" {
      var into := HasToken(tokens, "INTO");
      var values := HasToken(tokens, "VALUES");
      var select := HasToken(tokens, "SELECT");
      return into && (values || select);
    } else if verb == "UPDATE" {
      var set_ := HasToken(tokens, "SET");
      var equals := HasToken(tokens, "=");
      return set_ && equals;
    } else if verb == "DELETE" {
      var from := HasToken(tokens, "FROM");
      return from && |tokens| >= 3;
    } else if verb == "MERGE" {
      var into := HasToken(tokens, "INTO");
      var using := HasToken(tokens, "USING");
      var on := HasToken(tokens, "ON");
      return into && using && on;
    } else if verb == "WITH" || verb == "EXPLAIN" {
      var i := ScanInnerVerb(tokens);
      if i >= |tokens| - 1 { return false; }
      ok := SupportedStatement(tokens[i..]);
      return;
    } else if verb == "CREATE" || verb == "ALTER" || verb == "DROP" {
      var secret := HasCredential(tokens);
      if secret { return false; }
      ok := ScanSchemaObject(tokens);
      return;
    }
    return verb == "TRUNCATE";
  }

  /** The loop that cuts the tokens at `;`. */
  method CheckStatements(tokens: seq<Token>) returns (ok: bool)
    ensures ok == StatementsSupported(tokens, 0)
  {
    hide Supported;
    var start := 0;
    for i := 0 to |tokens|
      invariant start <= i && FirstSemicolon(tokens, start) == FirstSemicolon(tokens, i)
      invariant StatementsSupported(tokens, 0) == StatementsSupported(tokens, start)
    {
      if tokens[i].text != ";" { continue; }
      if i > start {
        ok := SupportedStatement(tokens[start..i]);
        if !ok { return; }
      } else {
        return false;
      }
      start := i + 1;
    }
    if |tokens| > start {
      ok := SupportedStatement(tokens[start..]);
      return;
    }
    return true;
  }

  /** `sanitizeSQL`. */
  method SanitizeSql(input: string) returns (shape: string, ok: bool)
    ensures Sanitize(input) == if ok then Some(shape) else None
    ensures !ok ==> shape == ""
  {
    if |input| == 0 || |input| > MAX_INPUT || !ValidUtf8(input) || '\0' in input { return "", false; }
    var tokens;
    tokens, ok := ScanTokens(input);
    if !ok || |tokens| == 0 { return "", false; }
    ok := CheckStatements(tokens);
    if !ok { return "", false; }
    return Join(Texts(tokens)), true;
  }
}
