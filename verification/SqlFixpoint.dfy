/** The shape of a query is its own shape. */
module SqlFixpoint {
  import opened Bytes
  import opened SqlLexicon
  import opened SqlShape

  /** The texts a span can show. */
  ghost predicate IsShown(text: string) {
    || (text != "" && IsIdentStart(text[0]) && (forall k :: 0 <= k < |text| ==> IsIdentContinue(text[k]))
        && !IsLiteralWord(text))
    || (|text| == 1 && (IsBracketOrEnd(text[0]) || IsOperator(text[0])))
    || text == "::"
  }

  lemma LexShows(c: Context, t: string)
    requires t != [] && Lex(c, t).Span? && !Silent(Lex(c, t).kind)
    ensures IsShown(Lex(c, t).shown)
  {
    if Lex(c, t).kind == Word && Lex(c, t).shown != "?" {
      assert IsIdentContinue(t[0]);
    }
  }

  lemma {:induction false} LexemesShow(s: string, i: nat)
    requires i <= |s| && Lexemes(s, i).Some?
    ensures forall k :: 0 <= k < |Shown(Lexemes(s, i).value)| ==> IsShown(Shown(Lexemes(s, i).value)[k])
    decreases |s| - i
  {
    hide Lex;
    if i < |s| {
      var step := Lex(ContextAt(s, i), s[i..]);
      var rest := Lexemes(s, i + step.len).value;
      LexemesShow(s, i + step.len);
      if !Silent(step.kind) { LexShows(ContextAt(s, i), s[i..]); }
      assert Lexemes(s, i).value[1..] == rest;
    }
  }

  /** A shown text followed by a space, or by nothing, is recognised as itself. */
  lemma RelexWord(c: Context, x: string, tail: string)
    requires x != "" && IsIdentStart(x[0]) && (forall k :: 0 <= k < |x| ==> IsIdentContinue(x[k])) && !IsLiteralWord(x)
    requires tail == "" || !IsIdentContinue(tail[0])
    ensures Lex(c, x + tail) == Span(Word, |x|, x)
  {
    var t := x + tail;
    RunEndIs(t, 0, IsIdentContinue, |x|);
    assert t[..|x|] == x;
  }

  lemma RelexMark(c: Context, x: string, tail: string)
    requires (|x| == 1 && (IsBracketOrEnd(x[0]) || IsOperator(x[0]))) || x == "::"
    requires tail == "" || tail[0] == ' '
    ensures Lex(c, x + tail) == Span(Mark, |x|, x)
  {
    hide BlockEnd, QuoteEnd, NumberEnd, LexDollar, LexParameter, LexWord, RunEnd;
    var t := x + tail;
    assert t[0] == x[0] && (|x| == 1 && |t| > 1 ==> t[1] == ' ');
    assert x == "::" ==> t[1] == ':';
    assert t[..|x|] == x;
  }

  lemma Relex(c: Context, x: string, tail: string)
    requires IsShown(x) && (tail == "" || tail[0] == ' ')
    ensures var r := Lex(c, x + tail); r.Span? && !Silent(r.kind) && r.len == |x| && r.shown == x
  {
    if (|x| == 1 && (IsBracketOrEnd(x[0]) || IsOperator(x[0]))) || x == "::" {
      RelexMark(c, x, tail);
    } else {
      RelexWord(c, x, tail);
    }
  }

  lemma LexemesCons(s: string, i: nat, step: Step)
    requires i < |s| && step == Lex(ContextAt(s, i), s[i..]) && step.Span?
    requires Lexemes(s, i + step.len).Some?
    ensures Lexemes(s, i).Some?
    ensures Shown(Lexemes(s, i).value)
         == (if Silent(step.kind) then [] else [step.shown]) + Shown(Lexemes(s, i + step.len).value)
  {
    hide Lex;
    var rest := Lexemes(s, i + step.len).value;
    var l := Lexeme(step.kind, s[i..i + step.len], step.shown);
    assert ([l] + rest)[1..] == rest;
  }

  lemma RescanText(s: string, i: nat, x: string, tail: string)
    requires i <= |s| && s[i..] == x + tail && IsShown(x) && (tail == "" || tail[0] == ' ')
    requires Lexemes(s, i + |x|).Some?
    ensures Lexemes(s, i).Some? && Shown(Lexemes(s, i).value) == [x] + Shown(Lexemes(s, i + |x|).value)
  {
    hide Lex, Lexemes, Shown, IsShown;
    Relex(ContextAt(s, i), x, tail);
    LexemesCons(s, i, Lex(ContextAt(s, i), s[i..]));
  }

  lemma LexSpace(c: Context, t: string)
    requires t != [] && t[0] == ' '
    ensures Lex(c, t) == Span(Blank, 1, "")
  {}

  lemma RescanSpace(s: string, i: nat)
    requires i < |s| && s[i] == ' ' && Lexemes(s, i + 1).Some?
    ensures Lexemes(s, i).Some? && Shown(Lexemes(s, i).value) == Shown(Lexemes(s, i + 1).value)
  {
    hide Lex;
    LexSpace(ContextAt(s, i), s[i..]);
    LexemesCons(s, i, Span(Blank, 1, ""));
  }

  lemma {:induction false} Rescan(s: string, i: nat, texts: seq<string>)
    requires texts != [] && forall k :: 0 <= k < |texts| ==> IsShown(texts[k])
    requires i <= |s| && s[i..] == Join(texts)
    ensures Lexemes(s, i).Some? && Shown(Lexemes(s, i).value) == texts
    decreases |texts|
  {
    hide Lexemes, Shown, IsShown;
    if |texts| == 1 {
      assert texts == [texts[0]];
      RescanLast(s, i, texts[0]);
    } else {
      RescanTail(s, i, texts[0], Join(texts[1..]));
      Rescan(s, i + |texts[0]| + 1, texts[1..]);
      RescanSpaced(s, i, texts[0], Join(texts[1..]));
    }
  }

  lemma RescanLast(s: string, i: nat, x: string)
    requires i <= |s| && s[i..] == x && IsShown(x)
    ensures Lexemes(s, i).Some? && Shown(Lexemes(s, i).value) == [x]
  {
    hide Lex;
    assert s[i..] == x + "";
    RescanText(s, i, x, "");
  }

  lemma RescanTail(s: string, i: nat, x: string, rest: string)
    requires i <= |s| && s[i..] == x + (" " + rest)
    ensures i + |x| < |s| && s[i + |x|] == ' '
    ensures s[i + |x|..] == " " + rest && s[i + |x| + 1..] == rest
  {
    assert s[i..][|x|] == ' ';
    assert s[i + |x|..] == s[i..][|x|..];
    assert s[i + |x| + 1..] == s[i..][|x|..][1..];
  }

  lemma RescanSpaced(s: string, i: nat, x: string, rest: string)
    requires i <= |s| && s[i..] == x + (" " + rest) && IsShown(x)
    requires i + |x| + 1 <= |s| && Lexemes(s, i + |x| + 1).Some?
    ensures Lexemes(s, i).Some? && Shown(Lexemes(s, i).value) == [x] + Shown(Lexemes(s, i + |x| + 1).value)
  {
    hide Lex;
    RescanTail(s, i, x, rest);
    RescanSpace(s, i + |x|);
    RescanText(s, i, x, " " + rest);
  }

  lemma {:induction false} JoinIsPlain(texts: seq<string>)
    requires texts != [] && forall k :: 0 <= k < |texts| ==> IsShown(texts[k])
    ensures Join(texts) != "" && IsAscii(Join(texts)) && '\0' !in Join(texts)
  {
    assert IsAscii(texts[0]) && '\0' !in texts[0];
    if |texts| > 1 { JoinIsPlain(texts[1..]); }
  }

  lemma {:induction false} TextsFit(ts: seq<Token>, texts: seq<string>)
    requires |ts| == |texts| && forall k :: 0 <= k < |ts| ==> ts[k].text == texts[k]
    ensures Texts(ts) == texts
  {}

  /** Scanning the joined texts of a lexed input again shows the same texts. */
  lemma ShownFixpoint(s: string)
    requires Lexemes(s, 0).Some? && Shown(Lexemes(s, 0).value) != []
    ensures var texts := Shown(Lexemes(s, 0).value);
            Lexemes(Join(texts), 0).Some? && Shown(Lexemes(Join(texts), 0).value) == texts
    ensures var out := Join(Shown(Lexemes(s, 0).value)); Admissible(out) <==> |out| <= MAX_INPUT
  {
    hide Lex;
    var texts := Shown(Lexemes(s, 0).value);
    LexemesShow(s, 0);
    var out := Join(texts);
    assert out[0..] == out;
    Rescan(out, 0, texts);
    JoinIsPlain(texts);
    AsciiIsValidUtf8(out, 0);
  }

  lemma OutcomeByTexts(a: seq<Lexeme>, b: seq<Lexeme>)
    requires Shown(a) == Shown(b)
    ensures Outcome([], 0, Some(a)) == Outcome([], 0, Some(b))
  {}

  /** Scanning an accepted query's shape again gives the same tokens at the same depths. */
  lemma TokensFixpoint(s: string)
    requires Sanitize(s).Some?
    ensures SqlShape.Tokens(Sanitize(s).value) == SqlShape.Tokens(s)
    ensures Admissible(Sanitize(s).value) <==> |Sanitize(s).value| <= MAX_INPUT
  {
    hide Lex;
    var ls := Lexemes(s, 0).value;
    var texts := Shown(ls);
    var ts := SqlShape.Tokens(s).value;
    TextsFit(ts, texts);
    ShownFixpoint(s);
    OutcomeByTexts(ls, Lexemes(Join(texts), 0).value);
  }

  /** A second call returns the first call's output, exactly when that output is not over the input limit. */
  lemma ShapeFixpoint(s: string)
    requires Sanitize(s).Some?
    ensures var out := Sanitize(s).value;
            Sanitize(out) == if |out| <= MAX_INPUT then Some(out) else None
  {
    TokensFixpoint(s);
  }

  // ---------- an accepted query whose shape is rejected ----------

  function Repeat(n: nat): (w: string)
    ensures |w| == n && forall k :: 0 <= k < n ==> w[k] == 'a'
  {
    seq(n, _ => 'a')
  }

  /** `SELECT w=`: one character below the printed length of its shape. */
  function Crowded(w: string): string { "SELECT " + w + "=" }

  lemma CrowdedWord(w: string)
    requires |w| > 10 && forall k :: 0 <= k < |w| ==> w[k] == 'a'
    ensures Lexemes(Crowded(w), 7).Some? && Shown(Lexemes(Crowded(w), 7).value) == [w, "="]
  {
    hide Lex;
    var s := Crowded(w);
    CrowdedTail(w);
    assert s[7..] == w + "=";
    assert |Upper(w)| == |w|;
    RelexWord(ContextAt(s, 7), w, "=");
    LexemesCons(s, 7, Span(Word, |w|, w));
  }

  lemma CrowdedShown(w: string)
    requires |w| > 10 && forall k :: 0 <= k < |w| ==> w[k] == 'a'
    ensures Lexemes(Crowded(w), 0).Some? && Shown(Lexemes(Crowded(w), 0).value) == ["SELECT", w, "="]
  {
    hide Lex, Lexemes;
    var s := Crowded(w);
    CrowdedWord(w);
    RescanSpace(s, 6);
    assert s[0..] == "SELECT" + (" " + w + "=");
    assert Upper("SELECT")[0] == 'S';
    RescanText(s, 0, "SELECT", " " + w + "=");
  }

  lemma CrowdedTail(w: string)
    ensures var s := Crowded(w); Lexemes(s, |s| - 1).Some? && Shown(Lexemes(s, |s| - 1).value) == ["="]
  {
    var s := Crowded(w);
    assert s[|s| - 1..] == "=" + "";
    RescanText(s, |s| - 1, "=", "");
  }

  lemma SelectIsUpper()
    ensures Upper("SELECT") == "SELECT"
  {
    assert forall k :: 0 <= k < 6 ==> UpperChar("SELECT"[k]) == "SELECT"[k];
  }

  /** One statement that starts with `SELECT` and does not end there. */
  lemma SelectSupported(ts: seq<Token>)
    requires |ts| >= 2 && ts[0] == Token("SELECT", 0) && forall k :: 0 <= k < |ts| ==> ts[k].text != ";"
    requires !EndsSelect(Upper(ts[1].text))
    ensures StatementsSupported(ts, 0)
  {
    hide Upper, EndsSelect;
    SelectIsUpper();
    assert FirstSemicolon(ts, 0) == |ts|;
    assert ts[0..] == ts;
  }

  lemma CrowdedSupported(w: string, ts: seq<Token>)
    requires |w| > 10 && forall k :: 0 <= k < |w| ==> w[k] == 'a'
    requires ts == [Token("SELECT", 0), Token(w, 0), Token("=", 0)]
    ensures StatementsSupported(ts, 0)
  {
    assert !EndsSelect(Upper(w)) by { assert |Upper(w)| == |w|; }
    SelectSupported(ts);
  }

  lemma AsciiAdmissible(s: string)
    requires 0 < |s| <= MAX_INPUT && IsAscii(s) && '\0' !in s
    ensures Admissible(s)
  {
    AsciiIsValidUtf8(s, 0);
  }

  lemma {:induction false} NestFlat(texts: seq<string>, ts: seq<Token>)
    requires forall k :: 0 <= k < |texts| ==> texts[k] == "" || !IsBracketOrEnd(texts[k][0])
    requires |ts| == |texts| && forall k :: 0 <= k < |ts| ==> ts[k] == Token(texts[k], 0)
    ensures Nest(texts, 0) == Some(ts)
  {
    if texts != [] {
      NestFlat(texts[1..], ts[1..]);
      assert ts == [ts[0]] + ts[1..];
    }
  }

  lemma CrowdedJoin(w: string)
    ensures |Join(["SELECT", w, "="])| == |w| + 9
  {
    assert ["SELECT", w, "="][1..] == [w, "="] && [w, "="][1..] == ["="];
    assert Join(["="]) == "=";
    assert Join([w, "="]) == w + (" " + "=");
  }

  lemma CrowdedAccepted(w: string)
    requires 10 < |w| <= MAX_INPUT - 8 && forall k :: 0 <= k < |w| ==> w[k] == 'a'
    ensures Sanitize(Crowded(w)) == Some(Join(["SELECT", w, "="]))
  {
    hide Lex, Lexemes, Nest, StatementsSupported, Join, ValidUtf8From;
    var s, texts := Crowded(w), ["SELECT", w, "="];
    CrowdedShown(w);
    var ts := [Token("SELECT", 0), Token(w, 0), Token("=", 0)];
    NestFlat(texts, ts);
    CrowdedSupported(w, ts);
    assert [] + ts == ts;
    CrowdedIsAscii(w);
    AsciiIsValidUtf8(s, 0);
    TextsFit(ts, texts);
  }

  lemma CrowdedIsAscii(w: string)
    requires forall k :: 0 <= k < |w| ==> w[k] == 'a'
    ensures IsAscii(Crowded(w)) && '\0' !in Crowded(w)
  {}

  /** The fixpoint does fail beyond the limit: this query is accepted, but not its own shape. */
  lemma ShapeCanOutgrowTheLimit() returns (s: string)
    ensures Sanitize(s).Some? && Sanitize(Sanitize(s).value).None?
  {
    hide Sanitize, Join;
    var w := Repeat(MAX_INPUT - 8);
    s := Crowded(w);
    CrowdedAccepted(w);
    CrowdedJoin(w);
    ShapeFixpoint(s);
  }
}
