/** What the depth of a token is: the parentheses around it, and for a closing one those around the pair. */
module SqlDepth {
  import opened Bytes
  import opened SqlLexicon
  import opened SqlShape
  import opened SqlFixpoint

  /** How often `x` occurs among the first `k` texts. */
  function Count(texts: seq<string>, x: string, k: nat): nat
    requires k <= |texts|
  {
    if k == 0 then 0 else (if texts[0] == x then 1 else 0) + Count(texts[1..], x, k - 1)
  }

  /** Opening minus closing parentheses before `k`. */
  function Level(texts: seq<string>, k: nat): int
    requires k <= |texts|
  {
    Count(texts, "(", k) - Count(texts, ")", k)
  }

  /** From `depth` on, no more than the limit is opened, nothing is closed that is not open, statements end outside
      parentheses, and all are closed at the end. */
  predicate Balanced(texts: seq<string>, depth: nat) {
    && (forall k: nat :: k < |texts| ==>
          var level := depth + Level(texts, k);
          && (texts[k] == "(" ==> level < MAX_NESTING)
          && (texts[k] == ")" ==> level > 0)
          && (texts[k] == ";" ==> level == 0))
    && depth + Level(texts, |texts|) == 0
  }

  /** Each token stands at the level before it, a closing parenthesis one further out. */
  predicate AtLevels(texts: seq<string>, depth: nat, ts: seq<Token>) {
    |ts| == |texts| && forall k: nat :: k < |texts| ==>
      ts[k].text == texts[k] && ts[k].depth == depth + Level(texts, k) - if texts[k] == ")" then 1 else 0
  }

  lemma LevelCons(texts: seq<string>, k: nat)
    requires 0 < k <= |texts|
    ensures Level(texts, k) == Level(texts[1..], k - 1) + Level(texts, 1)
    ensures Level(texts, 1) == if texts[0] == "(" then 1 else if texts[0] == ")" then -1 else 0
  {
    assert Count(texts[1..], "(", 0) == 0 && Count(texts[1..], ")", 0) == 0;
  }

  lemma LevelZero(texts: seq<string>)
    ensures Level(texts, 0) == 0
  {}

  /** The step of `Place`: the depth after the first text is the depth before plus its level. */
  lemma BalancedCons(texts: seq<string>, depth: nat)
    requires texts != []
    ensures Balanced(texts, depth) <==>
              Place(texts[0], depth).Some? && Balanced(texts[1..], Place(texts[0], depth).value.depth)
    ensures Place(texts[0], depth).Some? ==> Place(texts[0], depth).value.depth == depth + Level(texts, 1)
  {
    var rest := texts[1..];
    LevelZero(texts);
    LevelCons(texts, 1);
    forall k: nat | k < |rest|
      ensures rest[k] == texts[k + 1] && Level(texts, k + 1) == Level(rest, k) + Level(texts, 1)
    {
      LevelCons(texts, k + 1);
    }
    LevelCons(texts, |texts|);
    hide Level;
    if Balanced(texts, depth) {
      assert texts[0] == ")" ==> depth + Level(texts, 0) > 0;
      forall k: nat | k < |rest|
        ensures var level := depth + Level(texts, 1) + Level(rest, k);
                && (rest[k] == "(" ==> level < MAX_NESTING) && (rest[k] == ")" ==> level > 0)
                && (rest[k] == ";" ==> level == 0)
      {
        assert rest[k] == texts[k + 1];
      }
    }
    if Place(texts[0], depth).Some? && Balanced(rest, Place(texts[0], depth).value.depth) {
      forall k: nat | k < |texts|
        ensures var level := depth + Level(texts, k);
                && (texts[k] == "(" ==> level < MAX_NESTING) && (texts[k] == ")" ==> level > 0)
                && (texts[k] == ";" ==> level == 0)
      {
        if k > 0 { assert rest[k - 1] == texts[k]; }
      }
    }
  }

  lemma AtLevelsCons(texts: seq<string>, depth: nat, ts: seq<Token>)
    requires texts != [] && ts != [] && Place(texts[0], depth).Some?
    ensures AtLevels(texts, depth, ts) <==>
              && ts[0] == Place(texts[0], depth).value.token
              && AtLevels(texts[1..], Place(texts[0], depth).value.depth, ts[1..])
  {
    var rest := texts[1..];
    var next := Place(texts[0], depth).value.depth;
    LevelZero(texts);
    LevelCons(texts, 1);
    forall k: nat | k < |rest|
      ensures Level(texts, k + 1) == Level(rest, k) + Level(texts, 1)
    {
      LevelCons(texts, k + 1);
    }
    hide Level;
    if AtLevels(rest, next, ts[1..]) && ts[0] == Place(texts[0], depth).value.token {
      forall k: nat | k < |texts|
        ensures ts[k].text == texts[k] && ts[k].depth == depth + Level(texts, k) - if texts[k] == ")" then 1 else 0
      {
        if k > 0 { assert ts[1..][k - 1] == ts[k] && rest[k - 1] == texts[k]; }
      }
    }
    if AtLevels(texts, depth, ts) {
      assert ts[0].text == texts[0];
      forall k: nat | k < |rest|
        ensures ts[1..][k].text == rest[k]
        ensures ts[1..][k].depth == next + Level(rest, k) - if rest[k] == ")" then 1 else 0
      {
        assert ts[k + 1].text == texts[k + 1];
      }
    }
  }

  /** Nesting succeeds exactly on balanced texts, and gives every token its level. */
  lemma {:induction false} NestExact(texts: seq<string>, depth: nat, ts: seq<Token>)
    ensures Nest(texts, depth) == Some(ts) <==> Balanced(texts, depth) && AtLevels(texts, depth, ts)
    decreases |texts|
  {
    hide Balanced, AtLevels, Place;
    if texts == [] {
      NestNothing(depth, ts);
    } else {
      BalancedCons(texts, depth);
      var p := Place(texts[0], depth);
      if p.Some? {
        if ts != [] {
          AtLevelsCons(texts, depth, ts);
          NestExact(texts[1..], p.value.depth, ts[1..]);
          assert [ts[0]] + ts[1..] == ts;
        } else {
          LengthsAgree(texts, depth, ts);
        }
      }
    }
  }

  lemma NestNothing(depth: nat, ts: seq<Token>)
    ensures Nest([], depth) == Some(ts) <==> Balanced([], depth) && AtLevels([], depth, ts)
  {}

  lemma LengthsAgree(texts: seq<string>, depth: nat, ts: seq<Token>)
    ensures AtLevels(texts, depth, ts) ==> |ts| == |texts|
  {}

  /** The tokens of a query: each stands at the number of parentheses open before it, less one exactly for a closing
      one. */
  lemma TokenDepths(s: string)
    requires SqlShape.Tokens(s).Some?
    ensures Lexemes(s, 0).Some?
    ensures var texts, ts := Shown(Lexemes(s, 0).value), SqlShape.Tokens(s).value;
            |ts| == |texts| && forall k: nat :: k < |ts| ==>
              && ts[k].text == texts[k]
              && ts[k].depth == Count(texts, "(", k) - Count(texts, ")", k) - if texts[k] == ")" then 1 else 0
  {
    hide Lex, Lexemes, Nest, Balanced, Count;
    var texts := Shown(Lexemes(s, 0).value);
    var ts := Nest(texts, 0).value;
    assert [] + ts == ts;
    NestExact(texts, 0, ts);
  }

  lemma TokensAre(s: string, texts: seq<string>, ts: seq<Token>)
    requires Lexemes(s, 0).Some? && Shown(Lexemes(s, 0).value) == texts && Nest(texts, 0) == Some(ts)
    requires |ts| <= MAX_TOKENS
    ensures SqlShape.Tokens(s) == Some(ts)
  {
    hide Lex, Lexemes, Nest, Shown;
    assert [] + ts == ts;
  }

  /** In this accepted query the closing parenthesis stands at depth 0, although one parenthesis is open before it. */
  lemma ClosingDepthIsOutside() returns (s: string)
    ensures Sanitize(s).Some? && Lexemes(s, 0).Some?
    ensures var texts, ts := Shown(Lexemes(s, 0).value), SqlShape.Tokens(s).value;
            SqlShape.Tokens(s).Some? && |ts| == |texts| == 3
            && ts[2] == Token(")", 0) && Count(texts, "(", 2) - Count(texts, ")", 2) == 1
  {
    hide Lexemes, Shown, Nest, Count, SqlShape.Tokens, StatementsSupported, Join, Sanitize, IsShown;
    var texts := ["SELECT", "(", ")"];
    var ts := [Token("SELECT", 0), Token("(", 0), Token(")", 0)];
    s := Join(texts);
    JoinThree();
    assert s[0..] == s;
    ShownWords();
    Rescan(s, 0, texts);
    NestThree(texts, ts);
    TokensAre(s, texts, ts);
    PairSupported(ts);
    ShortAscii();
    Accepted(s, ts);
  }

  lemma ShortAscii()
    ensures Admissible("SELECT ( )")
  {
    hide Admissible;
    AsciiAdmissible("SELECT ( )");
  }

  lemma Accepted(s: string, ts: seq<Token>)
    requires Admissible(s) && SqlShape.Tokens(s) == Some(ts) && ts != [] && StatementsSupported(ts, 0)
    ensures Sanitize(s).Some?
  {
    hide Admissible, SqlShape.Tokens, StatementsSupported;
  }

  lemma JoinThree()
    ensures Join(["SELECT", "(", ")"]) == "SELECT ( )"
  {
    var texts := ["SELECT", "(", ")"];
    assert texts[1..] == ["(", ")"] && texts[1..][1..] == [")"];
    assert Join([")"]) == ")";
    assert Join(["(", ")"]) == "(" + (" " + ")");
    assert "SELECT" + (" " + ("(" + (" " + ")"))) == "SELECT ( )";
  }

  lemma ShownWords()
    ensures IsShown("SELECT") && IsShown("(") && IsShown(")")
  {
    assert Upper("SELECT")[0] == 'S';
  }

  lemma NestThree(texts: seq<string>, ts: seq<Token>)
    requires texts == ["SELECT", "(", ")"] && ts == [Token("SELECT", 0), Token("(", 0), Token(")", 0)]
    ensures Nest(texts, 0) == Some(ts) && Count(texts, "(", 2) == 1 && Count(texts, ")", 2) == 0
  {
    var rest, last := texts[1..], texts[1..][1..];
    assert rest == ["(", ")"] && last == [")"];
    assert Count(texts, "(", 0) == 0 && Count(texts, ")", 0) == 0;
    assert Count(rest, "(", 0) == 0 && Count(rest, ")", 0) == 0;
    assert Count(last, "(", 0) == 0 && Count(last, ")", 0) == 0;
    assert Count(last[1..], ")", 0) == 0 && Count(last[1..], "(", 0) == 0;
    assert Count(last, "(", 1) == 0 && Count(last, ")", 1) == 1;
    assert Count(rest, "(", 1) == 1 && Count(rest, ")", 1) == 0;
    assert Count(rest, "(", 2) == 1 && Count(rest, ")", 2) == 1;
    assert Count(texts, "(", 1) == 0 && Count(texts, ")", 1) == 0;
    assert Count(texts, "(", 2) == 1 && Count(texts, ")", 2) == 0;
    assert Count(texts, "(", 3) == 1 && Count(texts, ")", 3) == 1;
    hide Count;
    NestExact(texts, 0, ts);
  }

  lemma PairSupported(ts: seq<Token>)
    requires ts == [Token("SELECT", 0), Token("(", 0), Token(")", 0)]
    ensures StatementsSupported(ts, 0)
  {
    assert Upper("(") == "(" by { assert Upper("(")[0] == '('; }
    SelectSupported(ts);
  }
}
