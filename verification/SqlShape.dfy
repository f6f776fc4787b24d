/** The query shape of `sql.go`: lexemes, nesting and supported statements. */
module SqlShape {
  import opened Bytes
  import opened SqlLexicon

  // ---------- lexemes ----------

  datatype Lexeme = Lexeme(kind: Kind, source: string, shown: string)

  function Lexemes(s: string, i: nat): (r: Option<seq<Lexeme>>)
    requires i <= |s|
    decreases |s| - i
  {
    if i == |s| then Some([])
    else match Lex(ContextAt(s, i), s[i..])
      case Reject => None
      case Span(kind, len, shown) =>
        match Lexemes(s, i + len)
        case None => None
        case Some(rest) => Some([Lexeme(kind, s[i..i + len], shown)] + rest)
  }

  predicate Silent(k: Kind) { k == Blank || k == Comment }

  /** The texts of the spans that print. */
  function Shown(ls: seq<Lexeme>): seq<string> {
    if ls == [] then []
    else (if Silent(ls[0].kind) then [] else [ls[0].shown]) + Shown(ls[1..])
  }

  // ---------- nesting ----------

  datatype Token = Token(text: string, depth: nat)

  datatype Placed = Placed(token: Token, depth: nat)

  /** The token for `text` met inside `depth` parentheses, and the depth after it. */
  function Place(text: string, depth: nat): Option<Placed> {
    if text == "(" then
      if depth >= MAX_NESTING then None else Some(Placed(Token(text, depth), depth + 1))
    else if text == ")" then
      if depth == 0 then None else Some(Placed(Token(text, depth - 1), depth - 1))
    else if text == ";" && depth != 0 then None
    else Some(Placed(Token(text, depth), depth))
  }

  function Nest(texts: seq<string>, depth: nat): (r: Option<seq<Token>>)
    ensures r.Some? ==> |r.value| == |texts|
    ensures r.Some? ==> forall k :: 0 <= k < |texts| ==> r.value[k].text == texts[k]
  {
    if texts == [] then
      if depth == 0 then Some([]) else None
    else match Place(texts[0], depth)
      case None => None
      case Some(p) =>
        match Nest(texts[1..], p.depth)
        case None => None
        case Some(rest) => Some([p.token] + rest)
  }

  // ---------- supported statements ----------

  predicate Has(tokens: seq<Token>, word: string) {
    exists k :: 1 <= k < |tokens| && tokens[k].depth == 0 && Upper(tokens[k].text) == word
  }

  predicate EndsSelect(word: string) {
    word in ["FROM", "WHERE", "GROUP", "HAVING", "ORDER", "LIMIT", "UNION", "JOIN", ")", ","]
  }

  predicate IsVerb(word: string) { word in ["SELECT", "INSERT", "UPDATE", "DELETE", "MERGE"] }

  predicate IsCredential(word: string) {
    word in ["PASSWORD", "PASSWD", "SECRET", "TOKEN", "APIKEY", "APITOKEN", "AUTHORIZATION", "CREDENTIAL",
             "CREDENTIALS", "ACCESSKEY", "IDENTIFIED", "AUTHENTICATION"]
  }

  predicate IsModifier(word: string) {
    word in ["OR", "REPLACE", "TEMP", "TEMPORARY", "UNIQUE", "MATERIALIZED"]
  }

  predicate IsSchemaObject(word: string) {
    word in ["TABLE", "INDEX", "VIEW", "SCHEMA", "DATABASE", "SEQUENCE"]
  }

  /** A verb at depth 0 that is neither the first nor the last token. */
  predicate InnerVerb(tokens: seq<Token>, i: nat) {
    1 <= i < |tokens| - 1 && tokens[i].depth == 0 && IsVerb(Upper(tokens[i].text))
  }

  function FirstInnerVerb(tokens: seq<Token>, i: nat): (r: nat)
    requires 1 <= i
    ensures i <= r && (forall k :: i <= k < r ==> !InnerVerb(tokens, k))
    ensures r < |tokens| - 1 ==> InnerVerb(tokens, r)
    decreases |tokens| - i
  {
    if i >= |tokens| - 1 || InnerVerb(tokens, i) then i else FirstInnerVerb(tokens, i + 1)
  }

  /** The first of tokens 1 to 4 that is not a modifier names a schema object and is not the last token. */
  predicate NamesSchemaObject(tokens: seq<Token>, i: nat)
    decreases |tokens| - i
  {
    i < |tokens| - 1 && i < 5 &&
    ((IsModifier(Upper(tokens[i].text)) && NamesSchemaObject(tokens, i + 1))
     || IsSchemaObject(Upper(tokens[i].text)))
  }

  predicate Supported(tokens: seq<Token>)
    decreases |tokens|
  {
    |tokens| >= 2 && tokens[0].depth == 0 &&
    var verb := Upper(tokens[0].text);
    if verb == "SELECT" then !EndsSelect(Upper(tokens[1].text))
    else if verb == "INSERT" then Has(tokens, "INTO") && (Has(tokens, "VALUES") || Has(tokens, "SELECT"))
    else if verb == "UPDATE" then Has(tokens, "SET") && Has(tokens, "=")
    else if verb == "DELETE" then Has(tokens, "FROM") && |tokens| >= 3
    else if verb == "MERGE" then Has(tokens, "INTO") && Has(tokens, "USING") && Has(tokens, "ON")
    else if verb == "WITH" || verb == "EXPLAIN" then
      var i := FirstInnerVerb(tokens, 1);
      i < |tokens| - 1 && Supported(tokens[i..])
    else if verb == "CREATE" || verb == "ALTER" || verb == "DROP" then
      (forall k :: 1 <= k < |tokens| ==> !IsCredential(Upper(tokens[k].text))) && NamesSchemaObject(tokens, 1)
    else verb == "TRUNCATE"
  }

  function FirstSemicolon(tokens: seq<Token>, start: nat): (k: nat)
    requires start <= |tokens|
    ensures start <= k <= |tokens|
    ensures forall j :: start <= j < k ==> tokens[j].text != ";"
    ensures k < |tokens| ==> tokens[k].text == ";"
    decreases |tokens| - start
  {
    if start == |tokens| || tokens[start].text == ";" then start else FirstSemicolon(tokens, start + 1)
  }

  /** Every statement from `start` on is supported; only the last, after a final `;`, may be empty. */
  predicate StatementsSupported(tokens: seq<Token>, start: nat)
    requires start <= |tokens|
    decreases |tokens| - start
  {
    var k := FirstSemicolon(tokens, start);
    if k == |tokens| then k == start || Supported(tokens[start..])
    else k > start && Supported(tokens[start..k]) && StatementsSupported(tokens, k + 1)
  }

  // ---------- the shape ----------

  function Texts(tokens: seq<Token>): (r: seq<string>)
    ensures |r| == |tokens|
    ensures forall k :: 0 <= k < |tokens| ==> r[k] == tokens[k].text
  {
    seq(|tokens|, k requires 0 <= k < |tokens| => tokens[k].text)
  }

  function Join(texts: seq<string>): string {
    if texts == [] then "" else if |texts| == 1 then texts[0] else texts[0] + (" " + Join(texts[1..]))
  }

  predicate Admissible(s: string) {
    0 < |s| <= MAX_INPUT && ValidUtf8(s) && '\0' !in s
  }

  /** All tokens, when `done` were found before the lexemes `rest`, inside `depth` parentheses. */
  function Outcome(done: seq<Token>, depth: nat, rest: Option<seq<Lexeme>>): Option<seq<Token>> {
    if rest.None? then None
    else match Nest(Shown(rest.value), depth)
      case None => None
      case Some(ts) => if |done| + |ts| <= MAX_TOKENS then Some(done + ts) else None
  }

  function Tokens(s: string): Option<seq<Token>> { Outcome([], 0, Lexemes(s, 0)) }

  /** The diagnostic shape of a query: lex it all, then nest, then check, then print. */
  function Sanitize(s: string): Option<string> {
    if !Admissible(s) then None
    else match Tokens(s)
      case None => None
      case Some(ts) => if ts != [] && StatementsSupported(ts, 0) then Some(Join(Texts(ts))) else None
  }

  // ---------- one step ----------

  lemma OutcomeCons(l: Lexeme, rest: seq<Lexeme>, done: seq<Token>, depth: nat)
    requires |done| <= MAX_TOKENS
    ensures var now := Outcome(done, depth, Some([l] + rest));
            if Silent(l.kind) then now == Outcome(done, depth, Some(rest))
            else
              var p := Place(l.shown, depth);
              if p.None? || |done| == MAX_TOKENS then now.None?
              else now == Outcome(done + [p.value.token], p.value.depth, Some(rest))
  {
    assert ([l] + rest)[1..] == rest;
    if !Silent(l.kind) {
      assert Shown([l] + rest) == [l.shown] + Shown(rest);
      assert ([l.shown] + Shown(rest))[1..] == Shown(rest);
      var p := Place(l.shown, depth);
      if p.Some? && Nest(Shown(rest), p.value.depth).Some? {
        var ts := Nest(Shown(rest), p.value.depth).value;
        assert done + ([p.value.token] + ts) == done + [p.value.token] + ts;
      }
    } else {
      assert Shown([l] + rest) == Shown(rest);
    }
  }

  /** How one lexical step changes what is still to be computed. */
  ghost predicate Advances(step: Step, s: string, i: nat, done: seq<Token>, depth: nat)
    requires i < |s| && (step.Span? ==> i + step.len <= |s|)
  {
    var now := Outcome(done, depth, Lexemes(s, i));
    if step.Reject? then now.None?
    else if Silent(step.kind) then now == Outcome(done, depth, Lexemes(s, i + step.len))
    else
      var p := Place(step.shown, depth);
      if p.None? || |done| == MAX_TOKENS then now.None?
      else now == Outcome(done + [p.value.token], p.value.depth, Lexemes(s, i + step.len))
  }

  lemma AdvanceStep(step: Step, s: string, i: nat, done: seq<Token>, depth: nat)
    requires i < |s| && |done| <= MAX_TOKENS && step == Lex(ContextAt(s, i), s[i..])
    ensures Advances(step, s, i, done, depth)
  {
    hide Lex;
    if step.Span? && Lexemes(s, i + step.len).Some? {
      OutcomeCons(Lexeme(step.kind, s[i..i + step.len], step.shown), Lexemes(s, i + step.len).value, done, depth);
    }
  }

  lemma OutcomeAtEnd(s: string, done: seq<Token>, depth: nat)
    requires |done| <= MAX_TOKENS
    ensures Outcome(done, depth, Lexemes(s, |s|)) == if depth == 0 then Some(done) else None
  {
    hide Lex;
    assert done + [] == done;
  }
}
