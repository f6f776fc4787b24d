/** Queries in which replacing a parameter or a number does matter. */
module SqlExamples {
  import opened Bytes
  import opened SqlLexicon
  import opened SqlShape
  import opened SqlSpans
  import opened SqlLiterals
  import opened SqlParameters
  import opened SqlFixpoint
  import opened SqlDepth

  // ---------- the name of a parameter ----------

  /** `SELECT :e'\''`, with the parameter's name as given. */
  function Selecting(name: char): string { "SELECT :" + ([name] + "'\\''") }

  lemma SelectingParts(name: char)
    requires IsLetter(name)
    ensures var s := Selecting(name);
            && |s| == 13 && s[0..] == "SELECT" + (" :" + ([name] + "'\\''")) && s[6] == ' '
            && s[7..9] == [':', name] && s[9..] == "'\\''"
            && ContextAt(s, 9) == Context(true, name == 'E' || name == 'e') && !ContextAt(s, 7).glued
  {
    var s := Selecting(name);
    assert s[9..] == "'\\''";
    assert s[7..9] == [':', name];
  }

  lemma StringRead(escaped: bool)
    ensures Lex(Context(true, escaped), "'\\''") == if escaped then Span(Quoted, 4, "?") else Reject
  {
    var t := "'\\''";
    LexSingle(Context(true, escaped), t);
    hide Lex;
    assert escaped ==> QuoteEnd(t, 3, '\'', true) == Some(4);
  }

  lemma ParameterAt(name: char)
    requires IsLetter(name)
    ensures var s := Selecting(name); Lex(ContextAt(s, 7), s[7..]) == Span(Hidden, 2, "?") && |s| == 13
  {
    var s := Selecting(name);
    SelectingParts(name);
    hide Lex;
    TakeOfDrop(s, 7, 2);
    LexParameterNew(ContextAt(s, 7), [':', name], s[7..]);
  }

  lemma NothingWithout(name: char)
    requires IsLetter(name) && name != 'E' && name != 'e'
    ensures Lexemes(Selecting(name), 0) == None
  {
    hide Lex, ContextAt, Selecting;
    var s := Selecting(name);
    SelectingParts(name);
    StringRead(false);
    RejectedHere(s, 9);
    ParameterAt(name);
    LexemesStep(s, 7, Span(Hidden, 2, "?"));
    LexSpace(ContextAt(s, 6), s[6..]);
    LexemesStep(s, 6, Span(Blank, 1, ""));
    SelectShown();
    Relex(ContextAt(s, 0), "SELECT", " :" + ([name] + "'\\''"));
    LexemesStep(s, 0, Lex(ContextAt(s, 0), s[0..]));
  }

  lemma SelectShown()
    ensures IsShown("SELECT")
  {
    assert Upper("SELECT")[0] == 'S';
  }

  lemma ShownWith()
    ensures Lexemes(Selecting('e'), 0).Some? && Shown(Lexemes(Selecting('e'), 0).value) == ["SELECT", "?", "?"]
  {
    hide Lex, ContextAt, Selecting, Lexemes, IsShown, Shown;
    var s := Selecting('e');
    SelectingParts('e');
    NothingAtEnd(s);
    StringRead(true);
    LexemesCons(s, 9, Span(Quoted, 4, "?"));
    ParameterAt('e');
    LexemesCons(s, 7, Span(Hidden, 2, "?"));
    RescanSpace(s, 6);
    SelectShown();
    RescanText(s, 0, "SELECT", " :" + (['e'] + "'\\''"));
  }

  lemma NothingAtEnd(s: string)
    ensures Lexemes(s, |s|) == Some([]) && Shown([]) == []
  {}

  lemma SelectingSupported(ts: seq<Token>)
    requires ts == [Token("SELECT", 0), Token("?", 0), Token("?", 0)]
    ensures StatementsSupported(ts, 0)
  {
    assert Upper("?") == "?" by { assert Upper("?")[0] == '?'; }
    SelectSupported(ts);
  }

  lemma SelectingAdmissible(name: char)
    requires IsLetter(name)
    ensures Admissible(Selecting(name))
  {
    AsciiAdmissible(Selecting(name));
  }

  lemma SelectingAccepted()
    ensures Sanitize(Selecting('e')).Some?
  {
    hide *;
    BothAdmissible();
    ShownWith();
    var texts, ts := ["SELECT", "?", "?"], [Token("SELECT", 0), Token("?", 0), Token("?", 0)];
    FlatSelect(texts, ts);
    TokensAre(Selecting('e'), texts, ts);
    SelectingSupported(ts);
    Accepted(Selecting('e'), ts);
  }

  lemma FlatSelect(texts: seq<string>, ts: seq<Token>)
    requires texts == ["SELECT", "?", "?"] && ts == [Token("SELECT", 0), Token("?", 0), Token("?", 0)]
    ensures Nest(texts, 0) == Some(ts) && |ts| <= MAX_TOKENS
  {
    NestFlat(texts, ts);
  }

  lemma SelectingTexts()
    ensures Selecting('e') == "SELECT :e'\\''" && Selecting('x') == "SELECT :x'\\''"
  {}

  /** Two queries that differ only in the name of a parameter: the first is accepted, the second is not. */
  lemma ParameterNameCanMatter() returns (s: string, s': string)
    ensures s == "SELECT :e'\\''" && s' == "SELECT :x'\\''"
    ensures Sanitize(s).Some? && Admissible(s') && Sanitize(s').None?
  {
    hide *;
    s, s' := Selecting('e'), Selecting('x');
    SelectingTexts();
    SelectingAccepted();
    BothAdmissible();
    NamedX();
    NothingLexed(s');
  }

  lemma BothAdmissible()
    ensures Admissible(Selecting('e')) && Admissible(Selecting('x'))
  {
    hide Admissible, Selecting;
    SelectingAdmissible('e');
    SelectingAdmissible('x');
  }

  lemma NamedX()
    ensures Lexemes(Selecting('x'), 0) == None
  {
    NothingWithout('x');
  }

  // ---------- a number that is glued to a word ----------

  lemma AcceptedShape(s: string, texts: seq<string>, ts: seq<Token>)
    requires Admissible(s) && Lexemes(s, 0).Some? && Shown(Lexemes(s, 0).value) == texts && Nest(texts, 0) == Some(ts)
    requires |ts| <= MAX_TOKENS && ts != [] && StatementsSupported(ts, 0)
    ensures Sanitize(s) == Some(Join(texts))
  {
    hide Admissible, Lexemes, Shown, Nest, StatementsSupported, Join;
    TokensAre(s, texts, ts);
    NestKeepsTexts(ts, texts, 0);
    hide SqlShape.Tokens;
  }

  /** `SELECT a` and what follows it. */
  function Selected(tail: string): string { "SELECT " + ("a" + tail) }

  lemma SelectedParts(tail: string)
    ensures var s := Selected(tail);
            && |s| == 8 + |tail| && s[6] == ' ' && s[8..] == tail
            && s[0..] == "SELECT" + (" a" + tail) && s[7..] == "a" + tail
  {}

  /** The word before a number is read, and then the number. */
  lemma NumberShown()
    ensures Lexemes(Selected(".5"), 0).Some? && Shown(Lexemes(Selected(".5"), 0).value) == ["SELECT", "a", "?"]
  {
    hide Lex, ContextAt, Selected, Lexemes, IsShown, Shown;
    var s := Selected(".5");
    SelectedParts(".5");
    NothingAtEnd(s);
    NumberRead();
    LexNumber(ContextAt(s, 8), s[8..], 2);
    LexemesCons(s, 8, Span(Hidden, 2, "?"));
    ShortWord();
    RelexWord(ContextAt(s, 7), "a", ".5");
    LexemesCons(s, 7, Span(Word, 1, "a"));
    RescanSpace(s, 6);
    SelectShown();
    RescanText(s, 0, "SELECT", " a.5");
  }

  lemma NumberRead()
    ensures StartsNumber(".5") && NumberEnd(".5", 0) == Some(2)
  {
    RunEndIs(".5", 0, IsDigit, 0);
    RunEndIs(".5", 1, IsDigit, 2);
  }

  lemma ShortWord()
    ensures !IsLiteralWord("a") && !IsLiteralWord("a5")
  {
    assert |Upper("a")| == 1 && |Upper("a5")| == 2;
  }

  lemma WordShown()
    ensures IsShown("SELECT") && IsShown("a5") && IsShown("a") && IsShown("?")
  {
    ShortWord();
    SelectShown();
  }

  lemma TwoTexts()
    ensures Join(["SELECT", "a5"]) == "SELECT a5" == Selected("5")
    ensures Join(["SELECT", "a", "?"]) == "SELECT a ?" && Selected(".5") == "SELECT a.5"
  {
    assert ["SELECT", "a5"][1..] == ["a5"] && ["SELECT", "a", "?"][1..] == ["a", "?"] && ["a", "?"][1..] == ["?"];
    assert Join(["?"]) == "?" && Join(["a5"]) == "a5";
    assert Join(["a", "?"]) == "a" + (" " + "?");
  }

  lemma SelectedAdmissible()
    ensures Admissible("SELECT a.5") && Admissible("SELECT a5")
  {
    hide Admissible;
    AsciiAdmissible("SELECT a.5");
    AsciiAdmissible("SELECT a5");
  }

  lemma SelectedSupported(texts: seq<string>, ts: seq<Token>)
    requires texts == ["SELECT", "a5"] || texts == ["SELECT", "a", "?"]
    requires |ts| == |texts| && forall k :: 0 <= k < |ts| ==> ts[k] == Token(texts[k], 0)
    ensures Nest(texts, 0) == Some(ts) && |ts| <= MAX_TOKENS && ts != [] && StatementsSupported(ts, 0)
  {
    NestFlat(texts, ts);
    hide Nest, StatementsSupported;
    assert Upper("a")[0] == 'A' && Upper("a5")[0] == 'A';
    SelectSupported(ts);
  }

  lemma DottedAccepted(s: string)
    requires s == "SELECT a.5"
    ensures Sanitize(s) == Some("SELECT a ?")
  {
    hide *;
    TwoTexts();
    SelectedAdmissible();
    NumberShown();
    var texts, ts := ["SELECT", "a", "?"], [Token("SELECT", 0), Token("a", 0), Token("?", 0)];
    SelectedSupported(texts, ts);
    AcceptedShape(s, texts, ts);
  }

  lemma DigitAccepted(s: string)
    requires s == "SELECT a5"
    ensures Sanitize(s) == Some("SELECT a5")
  {
    hide *;
    TwoTexts();
    SelectedAdmissible();
    WordShown();
    var texts, ts := ["SELECT", "a5"], [Token("SELECT", 0), Token("a5", 0)];
    assert s[0..] == s;
    Rescan(s, 0, texts);
    SelectedSupported(texts, ts);
    AcceptedShape(s, texts, ts);
  }

  /** Two queries that differ only in a number, `.5` and `5`, and have different shapes: the digit joins the word. */
  lemma GluedNumberCanMatter() returns (s: string, s': string)
    ensures s == "SELECT a.5" && s' == "SELECT a5"
    ensures Sanitize(s) == Some("SELECT a ?") && Sanitize(s') == Some("SELECT a5")
  {
    hide *;
    s, s' := "SELECT a.5", "SELECT a5";
    DottedAccepted(s);
    DigitAccepted(s');
  }
}
