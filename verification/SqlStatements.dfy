/** Which statements are accepted: verb by verb, on the texts of a query and its parentheses. */
module SqlStatements {
  import opened Bytes
  import opened SqlLexicon
  import opened SqlShape
  import opened SqlFixpoint
  import opened SqlDepth

  const VERBS: set<string> := {"SELECT", "INSERT", "UPDATE", "DELETE", "MERGE"}

  const SELECT_ENDS: set<string> :=
    {"FROM", "WHERE", "GROUP", "HAVING", "ORDER", "LIMIT", "UNION", "JOIN", ")", ","}

  const CREDENTIALS: set<string> :=
    {"PASSWORD", "PASSWD", "SECRET", "TOKEN", "APIKEY", "APITOKEN", "AUTHORIZATION", "CREDENTIAL", "CREDENTIALS",
     "ACCESSKEY", "IDENTIFIED", "AUTHENTICATION"}

  const MODIFIERS: set<string> := {"OR", "REPLACE", "TEMP", "TEMPORARY", "UNIQUE", "MATERIALIZED"}

  const OBJECTS: set<string> := {"TABLE", "INDEX", "VIEW", "SCHEMA", "DATABASE", "SEQUENCE"}

  // ---------- the statements ----------

  /** No parenthesis is open around text `k`; a closing one counts as standing outside. */
  predicate Outer(texts: seq<string>, k: nat)
    requires k < |texts|
  {
    Count(texts, "(", k) == Count(texts, ")", k) + if texts[k] == ")" then 1 else 0
  }

  function Word(texts: seq<string>, k: nat): string
    requires k < |texts|
  {
    Upper(texts[k])
  }

  /** After the verb at `a` the statement has `word` outside parentheses. */
  predicate HasWord(texts: seq<string>, a: nat, b: nat, word: string)
    requires b <= |texts|
  {
    exists k: nat :: a < k < b && Outer(texts, k) && Word(texts, k) == word
  }

  /** A statement of data from its verb at `a` to `b`. */
  predicate IsData(texts: seq<string>, a: nat, b: nat)
    requires a + 2 <= b <= |texts|
  {
    || (Word(texts, a) == "SELECT" && Word(texts, a + 1) !in SELECT_ENDS)
    || (Word(texts, a) == "INSERT" && HasWord(texts, a, b, "INTO")
        && (HasWord(texts, a, b, "VALUES") || HasWord(texts, a, b, "SELECT")))
    || (Word(texts, a) == "UPDATE" && HasWord(texts, a, b, "SET") && HasWord(texts, a, b, "="))
    || (Word(texts, a) == "DELETE" && HasWord(texts, a, b, "FROM") && a + 3 <= b)
    || (Word(texts, a) == "MERGE" && HasWord(texts, a, b, "INTO") && HasWord(texts, a, b, "USING")
        && HasWord(texts, a, b, "ON"))
  }

  /** The first verb outside parentheses after `a` that is not the last text stands at `i`. */
  predicate IsFirstVerb(texts: seq<string>, a: nat, b: nat, i: nat)
    requires b <= |texts|
  {
    && a < i && i + 2 <= b && Outer(texts, i) && Word(texts, i) in VERBS
    && forall j: nat :: a < j < i ==> !(Outer(texts, j) && Word(texts, j) in VERBS)
  }

  /** A schema object stands at `i`, among the first four texts after `a`, only modifiers before it, and it is not the
      last text. */
  predicate IsObject(texts: seq<string>, a: nat, b: nat, i: nat)
    requires b <= |texts|
  {
    && a < i <= a + 4 && i + 2 <= b && Word(texts, i) in OBJECTS
    && forall j: nat :: a < j < i ==> Word(texts, j) in MODIFIERS
  }

  /** The texts from `a` to `b` are an accepted statement. */
  ghost predicate IsAccepted(texts: seq<string>, a: nat, b: nat)
    requires a <= b <= |texts|
  {
    && a + 2 <= b && Outer(texts, a)
    && (|| IsData(texts, a, b)
        || (Word(texts, a) in {"WITH", "EXPLAIN"}
            && exists i: nat :: IsFirstVerb(texts, a, b, i) && IsData(texts, i, b))
        || (Word(texts, a) in {"CREATE", "ALTER", "DROP"}
            && (forall k: nat :: a < k < b ==> Word(texts, k) !in CREDENTIALS)
            && exists i: nat :: IsObject(texts, a, b, i))
        || Word(texts, a) == "TRUNCATE")
  }

  // ---------- one statement ----------

  lemma WordLists(word: string)
    ensures IsVerb(word) <==> word in VERBS
    ensures EndsSelect(word) <==> word in SELECT_ENDS
    ensures IsCredential(word) <==> word in CREDENTIALS
    ensures IsModifier(word) <==> word in MODIFIERS
    ensures IsSchemaObject(word) <==> word in OBJECTS
    ensures !(word in MODIFIERS && word in OBJECTS)
  {}

  /** The tokens of the statement are the texts with their depths. */
  ghost predicate Stand(tokens: seq<Token>, texts: seq<string>, a: nat, b: nat) {
    && a <= b <= |texts| && |tokens| == b - a
    && forall k: nat :: k < |tokens| ==>
         tokens[k].text == texts[a + k] && (tokens[k].depth == 0 <==> Outer(texts, a + k))
  }

  lemma HasExactly(tokens: seq<Token>, texts: seq<string>, a: nat, b: nat, word: string)
    requires Stand(tokens, texts, a, b)
    ensures Has(tokens, word) <==> HasWord(texts, a, b, word)
  {
    hide Upper, Outer;
    if Has(tokens, word) {
      var k :| 1 <= k < |tokens| && tokens[k].depth == 0 && Upper(tokens[k].text) == word;
      assert Outer(texts, a + k) && Word(texts, a + k) == word;
    }
    if HasWord(texts, a, b, word) {
      var k: nat :| a < k < b && Outer(texts, k) && Word(texts, k) == word;
      assert tokens[k - a].text == texts[a + (k - a)];
    }
  }

  lemma DataExactly(tokens: seq<Token>, texts: seq<string>, a: nat, b: nat)
    requires Stand(tokens, texts, a, b) && a + 2 <= b && Outer(texts, a) && Word(texts, a) in VERBS
    ensures Supported(tokens) <==> IsData(texts, a, b)
  {
    hide Upper, Outer, HasWord, Has, NamesSchemaObject, FirstInnerVerb, EndsSelect;
    assert tokens[0].text == texts[a + 0] && tokens[1].text == texts[a + 1];
    WordLists(Word(texts, a + 1));
    HasExactly(tokens, texts, a, b, "INTO");
    HasExactly(tokens, texts, a, b, "VALUES");
    HasExactly(tokens, texts, a, b, "SELECT");
    HasExactly(tokens, texts, a, b, "SET");
    HasExactly(tokens, texts, a, b, "=");
    HasExactly(tokens, texts, a, b, "FROM");
    HasExactly(tokens, texts, a, b, "USING");
    HasExactly(tokens, texts, a, b, "ON");
  }

  lemma InnerExactly(tokens: seq<Token>, texts: seq<string>, a: nat, b: nat, k: nat)
    requires Stand(tokens, texts, a, b)
    ensures InnerVerb(tokens, k) <==> 1 <= k && a + k + 2 <= b && Outer(texts, a + k) && Word(texts, a + k) in VERBS
  {
    hide Upper, Outer;
    if 1 <= k && k + 1 < |tokens| { WordLists(Word(texts, a + k)); }
  }

  lemma NoVerbBefore(tokens: seq<Token>, texts: seq<string>, a: nat, b: nat, j: nat)
    requires Stand(tokens, texts, a, b)
    ensures IsFirstVerb(texts, a, b, j) <==>
              a < j && InnerVerb(tokens, j - a) && forall k: nat :: k < j - a ==> !InnerVerb(tokens, k)
  {
    hide Upper, Outer, InnerVerb, VERBS;
    forall k: nat
      ensures InnerVerb(tokens, k) <==> 1 <= k && a + k + 2 <= b && Outer(texts, a + k) && Word(texts, a + k) in VERBS
    {
      InnerExactly(tokens, texts, a, b, k);
    }
    if a < j && InnerVerb(tokens, j - a) && forall k: nat :: k < j - a ==> !InnerVerb(tokens, k) {
      forall l: nat | a < l < j ensures !(Outer(texts, l) && Word(texts, l) in VERBS) {
        assert !InnerVerb(tokens, l - a);
      }
    }
  }

  lemma FirstVerbExactly(tokens: seq<Token>, texts: seq<string>, a: nat, b: nat)
    requires Stand(tokens, texts, a, b)
    ensures var i := FirstInnerVerb(tokens, 1);
            forall j: nat :: IsFirstVerb(texts, a, b, j) <==> j == a + i && i + 1 < |tokens|
  {
    assert b <= |texts|;
    hide IsFirstVerb, FirstInnerVerb, Outer, Upper, VERBS, Stand;
    forall j: nat
      ensures IsFirstVerb(texts, a, b, j) <==>
                j == a + FirstInnerVerb(tokens, 1) && FirstInnerVerb(tokens, 1) + 1 < |tokens|
    {
      NoVerbBefore(tokens, texts, a, b, j);
      FirstInnerIs(tokens, if a < j then j - a else 0);
    }
  }

  /** The first inner verb is the only one with none before it. */
  lemma FirstInnerIs(tokens: seq<Token>, k: nat)
    ensures InnerVerb(tokens, k) && (forall l: nat :: l < k ==> !InnerVerb(tokens, l)) <==>
              k == FirstInnerVerb(tokens, 1) && FirstInnerVerb(tokens, 1) + 1 < |tokens|
  {
    hide Upper, IsVerb;
    assert !InnerVerb(tokens, 0);
  }

  lemma StandInside(tokens: seq<Token>, texts: seq<string>, a: nat, b: nat, i: nat)
    requires Stand(tokens, texts, a, b) && i <= |tokens|
    ensures Stand(tokens[i..], texts, a + i, b)
  {
    hide Outer;
    forall k: nat | k < |tokens[i..]|
      ensures tokens[i..][k].text == texts[a + i + k] && (tokens[i..][k].depth == 0 <==> Outer(texts, a + i + k))
    {
      assert tokens[i..][k] == tokens[i + k] && a + (i + k) == a + i + k;
    }
  }

  /** The search for a schema object from token `i` on, when only modifiers stand before it. */
  lemma {:induction false} ObjectExactly(tokens: seq<Token>, texts: seq<string>, a: nat, b: nat, i: nat)
    requires Stand(tokens, texts, a, b) && 1 <= i
    requires forall j: nat :: a < j < a + i && j < b ==> Word(texts, j) in MODIFIERS
    ensures NamesSchemaObject(tokens, i) <==> exists k: nat :: a + i <= k && IsObject(texts, a, b, k)
    decreases |tokens| - i
  {
    hide Upper, IsModifier, IsSchemaObject, MODIFIERS, OBJECTS;
    if i < |tokens| - 1 && i < 5 {
      assert tokens[i].text == texts[a + i];
      WordLists(Word(texts, a + i));
      if IsModifier(Word(texts, a + i)) {
        ObjectExactly(tokens, texts, a, b, i + 1);
        assert !IsObject(texts, a, b, a + i);
      } else if IsSchemaObject(Word(texts, a + i)) {
        assert IsObject(texts, a, b, a + i);
      } else {
        forall k: nat | a + i <= k ensures !IsObject(texts, a, b, k) {}
      }
    }
  }

  /** One statement is supported exactly when it is an accepted one. */
  lemma StatementExactly(tokens: seq<Token>, texts: seq<string>, a: nat, b: nat)
    requires Stand(tokens, texts, a, b)
    ensures Supported(tokens) <==> IsAccepted(texts, a, b)
  {
    if a + 2 <= b {
      assert tokens[0].text == texts[a + 0];
      var verb := Word(texts, a);
      hide Upper, Outer, HasWord, Has, NamesSchemaObject, FirstInnerVerb, EndsSelect, IsObject, IsCredential;
      if Outer(texts, a) {
        if verb in VERBS {
          DataExactly(tokens, texts, a, b);
        } else if verb == "WITH" || verb == "EXPLAIN" {
          WithExactly(tokens, texts, a, b);
        } else if verb == "CREATE" || verb == "ALTER" || verb == "DROP" {
          SchemaExactly(tokens, texts, a, b);
        }
      }
    }
  }

  lemma WithExactly(tokens: seq<Token>, texts: seq<string>, a: nat, b: nat)
    requires Stand(tokens, texts, a, b) && a + 2 <= b && Outer(texts, a) && Word(texts, a) in {"WITH", "EXPLAIN"}
    ensures Supported(tokens) <==> IsAccepted(texts, a, b)
  {
    hide Upper, Outer, HasWord, Has, NamesSchemaObject, FirstInnerVerb, EndsSelect, IsObject, IsFirstVerb;
    assert tokens[0].text == texts[a + 0];
    var i := FirstInnerVerb(tokens, 1);
    FirstVerbExactly(tokens, texts, a, b);
    if i < |tokens| - 1 {
      assert IsFirstVerb(texts, a, b, a + i);
      FirstVerbIs(texts, a, b, a + i);
      StandInside(tokens, texts, a, b, i);
      DataExactly(tokens[i..], texts, a + i, b);
    }
  }

  lemma FirstVerbIs(texts: seq<string>, a: nat, b: nat, i: nat)
    requires b <= |texts| && IsFirstVerb(texts, a, b, i)
    ensures i + 2 <= b && Outer(texts, i) && Word(texts, i) in VERBS
  {}

  lemma SchemaExactly(tokens: seq<Token>, texts: seq<string>, a: nat, b: nat)
    requires Stand(tokens, texts, a, b) && a + 2 <= b && Outer(texts, a)
    requires Word(texts, a) in {"CREATE", "ALTER", "DROP"}
    ensures Supported(tokens) <==> IsAccepted(texts, a, b)
  {
    hide Upper, Outer, HasWord, Has, NamesSchemaObject, FirstInnerVerb, EndsSelect, IsCredential, CREDENTIALS;
    assert tokens[0].text == texts[a + 0];
    ObjectExactly(tokens, texts, a, b, 1);
    forall k: nat | 1 <= k < |tokens|
      ensures tokens[k].text == texts[a + k]
      ensures IsCredential(Upper(tokens[k].text)) <==> Word(texts, a + k) in CREDENTIALS
    {
      WordLists(Word(texts, a + k));
    }
    assert (forall k :: 1 <= k < |tokens| ==> !IsCredential(Upper(tokens[k].text)))
      <==> forall k: nat :: a < k < b ==> Word(texts, k) !in CREDENTIALS by {
      NoCredential(tokens, texts, a, b);
    }
  }

  lemma NoCredential(tokens: seq<Token>, texts: seq<string>, a: nat, b: nat)
    requires Stand(tokens, texts, a, b)
    ensures (forall k :: 1 <= k < |tokens| ==> !IsCredential(Upper(tokens[k].text)))
      <==> forall k: nat :: a < k < b ==> Word(texts, k) !in CREDENTIALS
  {
    hide Upper, Outer, IsCredential, CREDENTIALS;
    if forall k :: 1 <= k < |tokens| ==> !IsCredential(Upper(tokens[k].text)) {
      forall k: nat | a < k < b ensures Word(texts, k) !in CREDENTIALS {
        assert tokens[k - a].text == texts[a + (k - a)];
        WordLists(Word(texts, k));
      }
    }
    if forall k: nat :: a < k < b ==> Word(texts, k) !in CREDENTIALS {
      forall k | 1 <= k < |tokens| ensures !IsCredential(Upper(tokens[k].text)) {
        assert Word(texts, a + k) !in CREDENTIALS;
        WordLists(Word(texts, a + k));
      }
    }
  }

  // ---------- all statements ----------

  /** A statement from `a` to `b`: what stands between semicolons, or between one and an end of the query. */
  predicate IsStatement(texts: seq<string>, a: nat, b: nat) {
    && a <= b <= |texts| && (a == 0 || texts[a - 1] == ";") && (b == |texts| || texts[b] == ";")
    && forall k: nat :: a <= k < b ==> texts[k] != ";"
  }

  /** Every statement is accepted; only the last may be empty. */
  ghost predicate AllAccepted(texts: seq<string>, from: nat) {
    forall a: nat, b: nat :: from <= a && IsStatement(texts, a, b) ==> a == |texts| || IsAccepted(texts, a, b)
  }

  lemma {:induction false} StatementsExactly(tokens: seq<Token>, texts: seq<string>, from: nat)
    requires Stand(tokens, texts, 0, |texts|) && from <= |texts| && (from == 0 || texts[from - 1] == ";")
    ensures StatementsSupported(tokens, from) <==> AllAccepted(texts, from)
    decreases |texts| - from
  {
    hide Outer, Supported, IsAccepted;
    var k := FirstSemicolon(tokens, from);
    forall j: nat | from <= j < |tokens| ensures texts[j] == tokens[j].text {
      assert tokens[j].text == texts[0 + j];
    }
    assert IsStatement(texts, from, k);
    StandBetween(tokens, texts, from, k);
    StatementExactly(tokens[from..k], texts, from, k);
    NotEmpty(texts, from, k);
    assert tokens[from..] == tokens[from..|tokens|];
    if k < |texts| { StatementsExactly(tokens, texts, k + 1); }
    forall a: nat, b: nat | from <= a && IsStatement(texts, a, b) ensures (a == from && b == k) || k + 1 <= a {
      if a > from { assert texts[a - 1] == ";"; }
    }
    if AllAccepted(texts, from) {
      assert from == |texts| || IsAccepted(texts, from, k);
    }
  }

  lemma NotEmpty(texts: seq<string>, a: nat, b: nat)
    requires a <= b <= |texts|
    ensures IsAccepted(texts, a, b) ==> a < b
  {}

  lemma StandBetween(tokens: seq<Token>, texts: seq<string>, a: nat, b: nat)
    requires Stand(tokens, texts, 0, |texts|) && a <= b <= |texts|
    ensures Stand(tokens[a..b], texts, a, b)
  {
    hide Outer;
    forall k: nat | k < b - a
      ensures tokens[a..b][k].text == texts[a + k] && (tokens[a..b][k].depth == 0 <==> Outer(texts, a + k))
    {
      assert tokens[a..b][k] == tokens[a + k] && 0 + (a + k) == a + k;
    }
  }

  // ---------- the whole query ----------

  /** At most 64 parentheses are open at once, none is closed that is not open, statements end outside them, and all are
      closed at the end. */
  predicate WellNested(texts: seq<string>) {
    && (forall k: nat :: k < |texts| ==>
          var level := Count(texts, "(", k) - Count(texts, ")", k);
          && (texts[k] == "(" ==> level < 64) && (texts[k] == ")" ==> level > 0) && (texts[k] == ";" ==> level == 0))
    && Count(texts, "(", |texts|) == Count(texts, ")", |texts|)
  }

  /** The texts are a query: not empty, not too long, well nested, of accepted statements only. */
  ghost predicate IsQuery(texts: seq<string>) {
    0 < |texts| <= 65536 && WellNested(texts) && AllAccepted(texts, 0)
  }

  lemma BalancedIs(texts: seq<string>)
    ensures Balanced(texts, 0) <==> WellNested(texts)
  {
    hide Count;
    if Balanced(texts, 0) {
      forall k: nat | k < |texts|
        ensures var level := Count(texts, "(", k) - Count(texts, ")", k);
                && (texts[k] == "(" ==> level < 64) && (texts[k] == ")" ==> level > 0)
                && (texts[k] == ";" ==> level == 0)
      {
        assert Level(texts, k) == Count(texts, "(", k) - Count(texts, ")", k);
      }
    }
  }

  lemma {:induction false} NestSome(texts: seq<string>, depth: nat)
    ensures Nest(texts, depth).Some? <==> Balanced(texts, depth)
    decreases |texts|
  {
    hide Balanced, Place;
    if texts == [] {
      NestNothing(depth, []);
      assert AtLevels([], depth, []);
    } else {
      BalancedCons(texts, depth);
      if Place(texts[0], depth).Some? { NestSome(texts[1..], Place(texts[0], depth).value.depth); }
    }
  }

  lemma LevelsStand(texts: seq<string>, ts: seq<Token>)
    requires AtLevels(texts, 0, ts)
    ensures Stand(ts, texts, 0, |texts|)
  {
    hide Count;
    forall k: nat | k < |ts| ensures ts[k].text == texts[0 + k] && (ts[k].depth == 0 <==> Outer(texts, 0 + k)) {
      assert ts[k].text == texts[k];
    }
  }

  /** A query has a shape exactly when it can be lexed into texts that are a query; the shape is these texts, joined. */
  lemma SanitizesExactly(s: string)
    ensures Sanitize(s) == if && 0 < |s| <= 1048576 && ValidUtf8(s) && '\0' !in s && Lexemes(s, 0).Some?
                              && IsQuery(Shown(Lexemes(s, 0).value))
                           then Some(Join(Shown(Lexemes(s, 0).value))) else None
  {
    hide Lex, Lexemes, Nest, StatementsSupported, AllAccepted, WellNested, Balanced, AtLevels, Stand;
    if Admissible(s) && Lexemes(s, 0).Some? {
      var texts := Shown(Lexemes(s, 0).value);
      NestSome(texts, 0);
      BalancedIs(texts);
      if Nest(texts, 0).Some? {
        var ts := Nest(texts, 0).value;
        NestExact(texts, 0, ts);
        LevelsStand(texts, ts);
        StatementsExactly(ts, texts, 0);
        assert [] + ts == ts;
        TextsFit(ts, texts);
      }
    }
  }
}
