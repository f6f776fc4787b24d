/** What the spans of a query are made of, apart from how they are scanned: quoted content, nested comments, numerals,
    parameters and dollar quotes. The scanners find exactly these. */
module SqlGrammar {
  import opened Bytes
  import opened SqlLexicon

  // ---------- quoted spans ----------

  /** `t[i..j]` is quoted content: plain characters, doubled closing quotes, and, outside brackets,
      backslash pairs, which may hide the closing quote only in an E-string. */
  ghost predicate Content(t: string, i: nat, j: nat, open: char, e: bool)
    requires i <= j <= |t|
    decreases j - i
  {
    || i == j
    || (t[i] != Closing(open) && (t[i] != '\\' || open == '[') && Content(t, i + 1, j, open, e))
    || (i + 1 < j && t[i] == Closing(open) && t[i + 1] == Closing(open) && Content(t, i + 2, j, open, e))
    || (i + 1 < j && t[i] == '\\' && open != '[' && (e || t[i + 1] != Closing(open)) && Content(t, i + 2, j, open, e))
  }

  lemma {:induction false} QuoteEndSound(t: string, i: nat, open: char, e: bool)
    requires i <= |t| && IsQuote(open) && QuoteEnd(t, i, open, e).Some?
    ensures var n := QuoteEnd(t, i, open, e).value;
            Content(t, i, n - 1, open, e) && (n < |t| ==> t[n] != Closing(open))
    decreases |t| - i
  {
    if t[i] == '\\' && open != '[' && (e || t[i + 1] == '\\') {
      QuoteEndSound(t, i + 2, open, e);
    } else if t[i] == '\\' && open != '[' {
      QuoteEndSound(t, i + 2, open, e);
    } else if t[i] != Closing(open) {
      QuoteEndSound(t, i + 1, open, e);
    } else if i + 1 < |t| && t[i + 1] == Closing(open) {
      QuoteEndSound(t, i + 2, open, e);
    }
  }

  lemma {:induction false} QuoteEndComplete(t: string, i: nat, n: nat, open: char, e: bool)
    requires i < n <= |t| && IsQuote(open)
    requires Content(t, i, n - 1, open, e) && t[n - 1] == Closing(open) && (n < |t| ==> t[n] != Closing(open))
    ensures QuoteEnd(t, i, open, e) == Some(n)
    decreases n - i
  {
    if i < n - 1 {
      if t[i] != Closing(open) && (t[i] != '\\' || open == '[') {
        QuoteEndComplete(t, i + 1, n, open, e);
      } else {
        QuoteEndComplete(t, i + 2, n, open, e);
      }
    }
  }

  /** The quote scanner finds exactly the quoted spans of the grammar. */
  lemma QuoteEndExact(t: string, i: nat, n: nat, open: char, e: bool)
    requires i < n <= |t| && IsQuote(open)
    ensures QuoteEnd(t, i, open, e) == Some(n) <==>
            Content(t, i, n - 1, open, e) && t[n - 1] == Closing(open) && (n < |t| ==> t[n] != Closing(open))
  {
    if QuoteEnd(t, i, open, e) == Some(n) {
      QuoteEndSound(t, i, open, e);
    } else if Content(t, i, n - 1, open, e) && t[n - 1] == Closing(open) && (n < |t| ==> t[n] != Closing(open)) {
      QuoteEndComplete(t, i, n, open, e);
    }
  }

  lemma {:induction false} ContentAgree(t: string, u: string, i: nat, j: nat, open: char, e: bool)
    requires i <= j <= |u| && j <= |t| && Content(t, i, j, open, e)
    requires forall k :: i <= k < j ==> t[k] == u[k]
    ensures Content(u, i, j, open, e)
    decreases j - i
  {
    if i < j {
      if t[i] != Closing(open) && (t[i] != '\\' || open == '[') {
        ContentAgree(t, u, i + 1, j, open, e);
      } else {
        ContentAgree(t, u, i + 2, j, open, e);
      }
    }
  }

  // ---------- nested comments ----------

  /** The inside of a block comment: characters and further comments. */
  datatype Inside = Nil | Text(c: char, rest: Inside) | Nested(inner: Inside, rest: Inside)

  /** The first character of the text and of the mark that closes it. */
  function First(x: Inside): char {
    match x
    case Nil => '*'
    case Text(c, _) => c
    case Nested(_, _) => '/'
  }

  /** No character makes an opening or closing mark with the one after it. */
  predicate IsPlain(x: Inside) {
    match x
    case Nil => true
    case Text(c, rest) =>
      !(c == '/' && First(rest) == '*') && !(c == '*' && First(rest) == '/') && IsPlain(rest)
    case Nested(inner, rest) => IsPlain(inner) && IsPlain(rest)
  }

  /** How many comments are nested at most, this one included. */
  function Deepest(x: Inside): nat {
    match x
    case Nil => 1
    case Text(_, rest) => Deepest(rest)
    case Nested(inner, rest) => if 1 + Deepest(inner) > Deepest(rest) then 1 + Deepest(inner) else Deepest(rest)
  }

  function Print(x: Inside): string {
    match x
    case Nil => "*/"
    case Text(c, rest) => [c] + Print(rest)
    case Nested(inner, rest) => "/*" + (Print(inner) + Print(rest))
  }

  lemma FirstPrinted(x: Inside)
    ensures |Print(x)| >= 2 && Print(x)[0] == First(x)
  {}

  /** Where the scanner goes on after the mark that closes the comment at `depth`, which ends at `j`. */
  function Closed(t: string, j: nat, depth: nat): Option<nat>
    requires j <= |t| && depth > 0
  {
    if depth == 1 then Some(j) else BlockEnd(t, j, depth - 1)
  }

  lemma ClosedInside(t: string, j: nat, depth: nat)
    requires j <= |t| && depth > 0
    ensures Closed(t, j, depth + 1) == BlockEnd(t, j, depth)
  {}

  lemma BlockEndStep(t: string, i: nat, depth: nat)
    requires i + 1 < |t| && depth > 0
    ensures BlockEnd(t, i, depth) == if t[i] == '/' && t[i + 1] == '*' then
                                       if depth + 1 > MAX_NESTING then None else BlockEnd(t, i + 2, depth + 1)
                                     else if t[i] == '*' && t[i + 1] == '/' then Closed(t, i + 2, depth)
                                     else BlockEnd(t, i + 1, depth)
  {}

  /** The parts of what is printed. */
  lemma PrintedText(t: string, i: nat, c: char, rest: Inside)
    requires At(t, i, Print(Text(c, rest)))
    ensures i + 1 < |t| && t[i] == c && t[i + 1] == First(rest) && At(t, i + 1, Print(rest))
  {
    FirstPrinted(rest);
    AtChar(t, i, [c] + Print(rest), 0);
    AtSplit(t, i, [c], Print(rest));
    AtChar(t, i + 1, Print(rest), 0);
    AtInside(t, i + 1, Print(rest));
  }

  lemma PrintedNested(t: string, i: nat, inner: Inside, rest: Inside)
    requires At(t, i, Print(Nested(inner, rest)))
    ensures i + 1 < |t| && t[i] == '/' && t[i + 1] == '*'
    ensures At(t, i + 2, Print(inner)) && At(t, i + 2 + |Print(inner)|, Print(rest))
  {
    AtSplit(t, i, "/*", Print(inner) + Print(rest));
    AtSplit(t, i + 2, Print(inner), Print(rest));
    OpeningAt(t, i);
  }

  lemma OpeningAt(t: string, i: nat)
    requires At(t, i, "/*")
    ensures i + 1 < |t| && t[i] == '/' && t[i + 1] == '*'
  {
    AtChar(t, i, "/*", 0);
    AtChar(t, i, "/*", 1);
  }

  lemma PrintedNil(t: string, i: nat)
    requires At(t, i, Print(Nil))
    ensures i + 1 < |t| && t[i] == '*' && t[i + 1] == '/'
  {
    AtChar(t, i, "*/", 0);
    AtChar(t, i, "*/", 1);
  }

  lemma PrintedLength(x: Inside)
    ensures |Print(x)| == match x
                          case Nil => 2
                          case Text(_, rest) => 1 + |Print(rest)|
                          case Nested(inner, rest) => 2 + |Print(inner)| + |Print(rest)|
  {}

  /** Reading a printed comment brings the scanner to the end of it. */
  lemma {:induction false} CommentRuns(t: string, i: nat, depth: nat, x: Inside)
    requires At(t, i, Print(x)) && IsPlain(x) && depth > 0 && depth - 1 + Deepest(x) <= MAX_NESTING
    ensures i + |Print(x)| <= |t| && BlockEnd(t, i, depth) == Closed(t, i + |Print(x)|, depth)
    decreases x
  {
    hide At, BlockEnd, Print, Closed, First;
    AtInside(t, i, Print(x));
    PrintedLength(x);
    match x
    case Nil =>
      PrintedNil(t, i);
      BlockEndStep(t, i, depth);
    case Text(c, rest) =>
      PrintedText(t, i, c, rest);
      BlockEndStep(t, i, depth);
      CommentRuns(t, i + 1, depth, rest);
    case Nested(inner, rest) =>
      PrintedNested(t, i, inner, rest);
      BlockEndStep(t, i, depth);
      DeepestPositive(inner);
      var j := i + 2 + |Print(inner)|;
      CommentRuns(t, i + 2, depth + 1, inner);
      ClosedInside(t, j, depth);
      CommentRuns(t, j, depth, rest);
      assert j + |Print(rest)| == i + |Print(x)|;
  }

  lemma {:induction false} DeepestPositive(x: Inside)
    ensures Deepest(x) >= 1
    decreases x
  {
    match x
    case Nil =>
    case Text(_, rest) => DeepestPositive(rest);
    case Nested(_, rest) => DeepestPositive(rest);
  }

  /** Building up what is printed at a position. */
  lemma NilAt(t: string, i: nat)
    requires i + 1 < |t| && t[i] == '*' && t[i + 1] == '/'
    ensures At(t, i, Print(Nil)) && |Print(Nil)| == 2
  {
    assert t[i..i + 2] == "*/";
  }

  lemma TextAt(t: string, i: nat, rest: Inside)
    requires i < |t| && At(t, i + 1, Print(rest))
    ensures At(t, i, Print(Text(t[i], rest))) && |Print(Text(t[i], rest))| == 1 + |Print(rest)|
    ensures i + 1 < |t| && t[i + 1] == First(rest)
  {
    FirstPrinted(rest);
    AtChar(t, i + 1, Print(rest), 0);
    assert t[i..i + 1] == [t[i]];
    AtAppend(t, i, [t[i]], Print(rest));
  }

  lemma NestedAt(t: string, i: nat, inner: Inside, rest: Inside)
    requires i + 1 < |t| && t[i] == '/' && t[i + 1] == '*'
    requires At(t, i + 2, Print(inner)) && At(t, i + 2 + |Print(inner)|, Print(rest))
    ensures At(t, i, Print(Nested(inner, rest)))
    ensures |Print(Nested(inner, rest))| == 2 + |Print(inner)| + |Print(rest)|
  {
    assert t[i..i + 2] == "/*";
    AtAppend(t, i + 2, Print(inner), Print(rest));
    AtAppend(t, i, "/*", Print(inner) + Print(rest));
  }

  /** What the scanner reads up to the end of a comment was printed from one. */
  lemma {:induction false} CommentParses(t: string, i: nat, depth: nat) returns (x: Inside)
    requires i <= |t| && depth > 0 && depth <= MAX_NESTING && BlockEnd(t, i, depth).Some?
    ensures At(t, i, Print(x)) && IsPlain(x) && depth - 1 + Deepest(x) <= MAX_NESTING
    ensures i + |Print(x)| <= |t| && BlockEnd(t, i, depth) == Closed(t, i + |Print(x)|, depth)
    decreases |t| - i
  {
    hide At, BlockEnd, Print, Closed, First;
    BlockEndSome(t, i, depth);
    BlockEndStep(t, i, depth);
    if t[i] == '/' && t[i + 1] == '*' {
      var inner := CommentParses(t, i + 2, depth + 1);
      var j := i + 2 + |Print(inner)|;
      ClosedInside(t, j, depth);
      var rest := CommentParses(t, j, depth);
      x := Nested(inner, rest);
      NestedAt(t, i, inner, rest);
      assert j + |Print(rest)| == i + |Print(x)|;
    } else if t[i] == '*' && t[i + 1] == '/' {
      x := Nil;
      NilAt(t, i);
    } else {
      var rest := CommentParses(t, i + 1, depth);
      x := Text(t[i], rest);
      TextAt(t, i, rest);
      assert i + 1 + |Print(rest)| == i + |Print(x)|;
    }
  }

  lemma BlockEndSome(t: string, i: nat, depth: nat)
    requires i <= |t| && depth > 0 && BlockEnd(t, i, depth).Some?
    ensures i + 1 < |t|
  {}

  lemma AtAppend(s: string, i: nat, x: string, y: string)
    requires At(s, i, x) && At(s, i + |x|, y)
    ensures At(s, i, x + y)
  {
    SliceSplit(s, i, i + |x|, i + |x| + |y|);
  }

  /** A block comment nested at most 64 deep. */
  ghost predicate IsBlockComment(q: string) {
    exists x: Inside :: IsPlain(x) && Deepest(x) <= MAX_NESTING && q == "/*" + Print(x)
  }

  /** The comment scanner stops exactly at the end of such a comment. */
  lemma CommentExact(t: string, n: nat)
    requires At(t, 0, "/*") && n <= |t|
    ensures BlockEnd(t, 2, 1) == Some(n) <==> IsBlockComment(t[..n])
  {
    hide BlockEnd, At;
    AtInside(t, 0, "/*");
    assert t[..2] == "/*" by { TwoCharacters(t); }
    if BlockEnd(t, 2, 1) == Some(n) {
      var x := CommentParses(t, 2, 1);
      PrefixAt(t, Print(x), n);
    }
    if IsBlockComment(t[..n]) {
      var x: Inside :| IsPlain(x) && Deepest(x) <= MAX_NESTING && t[..n] == "/*" + Print(x);
      assert At(t, 2, Print(x)) by { AtPrefix(t, Print(x), n); }
      CommentRuns(t, 2, 1, x);
    }
  }

  lemma TwoCharacters(t: string)
    requires At(t, 0, "/*")
    ensures |t| >= 2 && t[..2] == "/*"
  {
    assert t[0..2] == t[..2];
  }

  lemma PrefixAt(t: string, x: string, n: nat)
    requires |t| >= 2 && t[..2] == "/*" && At(t, 2, x) && n == 2 + |x| && n <= |t|
    ensures t[..n] == "/*" + x
  {
    assert t[..n] == t[..2] + t[2..n];
  }

  lemma AtPrefix(t: string, x: string, n: nat)
    requires n <= |t| && t[..n] == "/*" + x
    ensures At(t, 2, x)
  {
    assert t[2..n] == t[..n][2..];
  }

  // ---------- numerals ----------

  predicate DigitsIn(t: string, i: nat, j: nat) { i <= j <= |t| && forall k :: i <= k < j ==> IsDigit(t[k]) }

  predicate IsSign(c: char) { c == '+' || c == '-' }

  /** The first `n` characters of `t` are a hexadecimal or binary numeral. */
  predicate IsRadix(t: string, n: nat) {
    2 < n <= |t| && t[0] == '0'
    && (((t[1] == 'x' || t[1] == 'X') && forall k :: 2 <= k < n ==> IsHex(t[k]))
        || ((t[1] == 'b' || t[1] == 'B') && forall k :: 2 <= k < n ==> IsBinary(t[k])))
  }

  /** An exponent from `f` to `n`: its mark, an optional sign, digits. */
  predicate IsExponent(t: string, f: nat, n: nat) {
    f < n <= |t| && (t[f] == 'e' || t[f] == 'E')
    && var g := if f + 1 < n && IsSign(t[f + 1]) then f + 2 else f + 1;
       g < n && DigitsIn(t, g, n)
  }

  /** Digits to `i`, a fraction to `f`, an exponent to `n`; the last two may be missing. */
  predicate IsDecimalCut(t: string, n: nat, i: nat, f: nat) {
    i <= f <= n <= |t| && DigitsIn(t, 0, i)
    && (f == i || (t[i] == '.' && DigitsIn(t, i + 1, f)))
    && (f == n || IsExponent(t, f, n))
  }

  /** The first `n` characters of `t` are a decimal numeral. */
  ghost predicate IsDecimal(t: string, n: nat) { n > 0 && exists i: nat, f: nat :: IsDecimalCut(t, n, i, f) }

  ghost predicate IsNumeral(t: string, n: nat) { IsRadix(t, n) || IsDecimal(t, n) }

  /** The whole of `q` is a numeric literal. */
  ghost predicate IsNumber(q: string) { StartsNumber(q) && IsNumeral(q, |q|) }

  lemma NumeralAgree(t: string, u: string, n: nat)
    requires IsNumeral(t, n) && n <= |u| && forall k :: 0 <= k < n ==> u[k] == t[k]
    ensures IsNumeral(u, n)
  {
    if !IsRadix(t, n) {
      var i: nat, f: nat :| IsDecimalCut(t, n, i, f);
      assert IsDecimalCut(u, n, i, f);
    }
  }

  /** The radix of a text is the radix of every numeral in it that is not cut short. */
  lemma RadixExact(t: string, n: nat)
    requires StartsNumber(t) && n <= |t| && HasRadix(t, 0)
    ensures NumberEnd(t, 0) == Some(n) <==> IsNumeral(t, n) && EndsNumber(t, n)
  {
    hide RunEnd;
    var p := if t[1] == 'b' || t[1] == 'B' then IsBinary else IsHex;
    if IsRadix(t, n) && EndsNumber(t, n) {
      RunEndIs(t, 2, p, n);
    }
    if IsDecimal(t, n) && EndsNumber(t, n) {
      var i: nat, f: nat :| IsDecimalCut(t, n, i, f);
      RadixNotDecimal(t, n, i, f);
    }
  }

  /** After `0x` or `0b` no decimal numeral ends properly. */
  lemma RadixNotDecimal(t: string, n: nat, i: nat, f: nat)
    requires HasRadix(t, 0) && IsDecimalCut(t, n, i, f) && n > 0
    ensures !EndsNumber(t, n)
  {
    assert i <= 1;
  }

  lemma DecimalScanned(t: string, n: nat)
    requires DecimalEnd(t, 0) == Some(n)
    ensures var i := RunEnd(t, 0, IsDigit); IsDecimalCut(t, n, i, FractionEnd(t, i))
  {}

  lemma DecimalIsScanned(t: string, n: nat, i: nat, f: nat)
    requires IsDecimalCut(t, n, i, f) && EndsNumber(t, n)
    ensures DecimalEnd(t, 0) == Some(n)
  {
    hide RunEnd;
    RunEndIs(t, 0, IsDigit, i);
    FractionIsScanned(t, n, i, f);
    ExponentIsScanned(t, n, f);
  }

  lemma FractionIsScanned(t: string, n: nat, i: nat, f: nat)
    requires IsDecimalCut(t, n, i, f) && EndsNumber(t, n)
    ensures FractionEnd(t, i) == f
  {
    if i < |t| && t[i] == '.' {
      if f == i { assert false; }
      RunEndIs(t, i + 1, IsDigit, f);
    }
  }

  lemma ExponentIsScanned(t: string, n: nat, f: nat)
    requires f <= n <= |t| && (f == n || IsExponent(t, f, n)) && EndsNumber(t, n)
    ensures ExponentEnd(t, f) == Some(n)
  {
    if f < n {
      RunEndIs(t, if f + 1 < n && IsSign(t[f + 1]) then f + 2 else f + 1, IsDigit, n);
    }
  }

  /** The number scanner stops exactly at the end of a numeral that does not run into a word or a dot. */
  lemma NumberExact(t: string, n: nat)
    requires StartsNumber(t) && n <= |t|
    ensures NumberEnd(t, 0) == Some(n) <==> IsNumeral(t, n) && EndsNumber(t, n)
  {
    if HasRadix(t, 0) {
      RadixExact(t, n);
    } else {
      hide RunEnd, DecimalEnd;
      if NumberEnd(t, 0) == Some(n) {
        DecimalScanned(t, n);
      }
      if IsNumeral(t, n) && EndsNumber(t, n) {
        var i: nat, f: nat :| IsDecimalCut(t, n, i, f);
        DecimalIsScanned(t, n, i, f);
      }
    }
  }

  // ---------- parameters and dollar quotes ----------

  /** `$name`, `:name`, `@name` or `@@name`. */
  predicate IsParameter(q: string) {
    q != "" && (q[0] == '$' || q[0] == ':' || q[0] == '@')
    && var k := if |q| > 1 && q[0] == '@' && q[1] == '@' then 2 else 1;
       k < |q| && forall j :: k <= j < |q| ==> IsIdentContinue(q[j])
  }

  /** A dollar-quoted text: a delimiter of `n` characters, a body in which it does not occur, the delimiter. */
  ghost predicate IsDollarQuoted(q: string, n: nat) {
    && 2 <= n && 2 * n <= |q| && q[0] == '$' && q[n - 1] == '$' && (n > 2 ==> IsIdentStart(q[1]))
    && (forall k :: 1 <= k < n - 1 ==> IsIdentContinue(q[k]))
    && q[|q| - n..] == q[..n] && forall p: nat :: n <= p < |q| - n ==> !At(q, p, q[..n])
  }
}
