/** Locality of the SQL scanners: dropping text before a position shifts their result, and their
    result depends on at most one character after what they consume. */
module SqlLocality {
  import opened Bytes
  import opened SqlLexicon

  // ---------- shifting ----------

  lemma DropAt(t: string, n: nat, u: string, k: nat)
    requires IsDrop(u, t, n) && n <= k
    ensures |t| == n + |u| && (k < |t| ==> t[k] == u[k - n])
  {}

  lemma DropSlice(t: string, n: nat, u: string, i: nat, j: nat)
    requires IsDrop(u, t, n) && n <= i <= j <= |t|
    ensures u[i - n..j - n] == t[i..j]
  {}

  lemma {:induction false} BlockEndShift(t: string, n: nat, u: string, i: nat, depth: nat)
    requires IsDrop(u, t, n) && n <= i <= |t| && depth > 0
    ensures BlockEnd(t, i, depth) == Plus(n, BlockEnd(u, i - n, depth))
    decreases |t| - i
  {
    DropAt(t, n, u, i);
    DropAt(t, n, u, i + 1);
    hide IsDrop;
    if i + 1 >= |t| {
    } else if t[i] == '/' && t[i + 1] == '*' {
      BlockEndShift(t, n, u, i + 2, depth + 1);
    } else if t[i] == '*' && t[i + 1] == '/' {
      if depth > 1 { BlockEndShift(t, n, u, i + 2, depth - 1); }
    } else {
      BlockEndShift(t, n, u, i + 1, depth);
    }
  }

  /** What the quote scanner does at a character, given the one after it. */
  datatype Turn = Fails | Stops | Moves(width: nat)

  function QuoteTurn(c: char, next: Option<char>, open: char, e: bool): Turn {
    if c == '\\' && open != '[' && next.None? then Fails
    else if c == '\\' && open != '[' && (e || next == Some('\\')) then Moves(2)
    else if c == '\\' && open != '[' && next == Some(Closing(open)) then Fails
    else if c != Closing(open) then Moves(1)
    else if next == Some(Closing(open)) then Moves(2)
    else Stops
  }

  function Next(t: string, i: nat): Option<char> { if i < |t| then Some(t[i]) else None }

  lemma QuoteEndStep(t: string, i: nat, open: char, e: bool)
    requires i < |t|
    ensures var turn := QuoteTurn(t[i], Next(t, i + 1), open, e);
            match turn
            case Fails => QuoteEnd(t, i, open, e) == None
            case Stops => QuoteEnd(t, i, open, e) == Some(i + 1)
            case Moves(n) => 0 < n && i + n <= |t| && QuoteEnd(t, i, open, e) == QuoteEnd(t, i + n, open, e)
  {}

  lemma {:induction false} QuoteEndShift(t: string, n: nat, u: string, i: nat, open: char, e: bool)
    requires IsDrop(u, t, n) && n <= i <= |t|
    ensures QuoteEnd(t, i, open, e) == Plus(n, QuoteEnd(u, i - n, open, e))
    decreases |t| - i
  {
    DropAt(t, n, u, i);
    DropAt(t, n, u, i + 1);
    hide IsDrop, QuoteTurn;
    if i < |t| {
      QuoteEndStep(t, i, open, e);
      QuoteEndStep(u, i - n, open, e);
      hide QuoteEnd;
      assert Next(t, i + 1) == Next(u, i + 1 - n);
      var turn := QuoteTurn(t[i], Next(t, i + 1), open, e);
      if turn.Moves? { QuoteEndShift(t, n, u, i + turn.width, open, e); }
    }
  }

  lemma FindStep(t: string, i: nat, d: string)
    requires i <= |t|
    ensures Find(t, i, d) == if i + |d| > |t| then None else if t[i..i + |d|] == d then Some(i)
                             else if i == |t| then None else Find(t, i + 1, d)
  {}

  lemma {:induction false} FindShift(t: string, n: nat, u: string, i: nat, d: string)
    requires IsDrop(u, t, n) && n <= i <= |t|
    ensures Find(t, i, d) == Plus(n, Find(u, i - n, d))
    decreases |t| - i
  {
    DropAt(t, n, u, i);
    FindStep(t, i, d);
    FindStep(u, i - n, d);
    if i + |d| <= |t| { DropSlice(t, n, u, i, i + |d|); }
    hide Find, IsDrop;
    if i < |t| { FindShift(t, n, u, i + 1, d); }
  }

  lemma DelimiterEndShift(t: string, n: nat, u: string)
    requires n < |t| && IsDrop(u, t, n)
    ensures DelimiterEnd(t, n) == Plus(n, DelimiterEnd(u, 0))
  {
    RunEndShift(t, n, u, n + 1, IsIdentContinue);
  }

  lemma FractionEndShift(t: string, n: nat, u: string, i: nat)
    requires IsDrop(u, t, n) && n <= i <= |t|
    ensures FractionEnd(t, i) == n + FractionEnd(u, i - n)
  {
    if i < |t| { RunEndShift(t, n, u, i + 1, IsDigit); }
  }

  lemma ExponentEndShift(t: string, n: nat, u: string, i: nat)
    requires IsDrop(u, t, n) && n <= i <= |t|
    ensures ExponentEnd(t, i) == Plus(n, ExponentEnd(u, i - n))
  {
    hide RunEnd, IsDrop;
    DropAt(t, n, u, i);
    DropAt(t, n, u, i + 1);
    if i < |t| { RunEndShift(t, n, u, i + 1, IsDigit); }
    if i + 1 < |t| { RunEndShift(t, n, u, i + 2, IsDigit); }
  }

  lemma DecimalEndShift(t: string, n: nat, u: string)
    requires IsDrop(u, t, n)
    ensures DecimalEnd(t, n) == Plus(n, DecimalEnd(u, 0))
  {
    RunEndShift(t, n, u, n, IsDigit);
    var w := RunEnd(t, n, IsDigit);
    FractionEndShift(t, n, u, w);
    ExponentEndShift(t, n, u, FractionEnd(t, w));
  }

  lemma EndsNumberShift(t: string, n: nat, u: string, e: nat)
    requires IsDrop(u, t, n) && n <= e <= |t|
    ensures EndsNumber(t, e) == EndsNumber(u, e - n)
  {
    DropAt(t, n, u, e);
  }

  lemma NumberEndShift(t: string, n: nat, u: string)
    requires IsDrop(u, t, n)
    ensures NumberEnd(t, n) == Plus(n, NumberEnd(u, 0))
  {
    DropAt(t, n, u, n);
    DropAt(t, n, u, n + 1);
    hide IsDrop, EndsNumber, RunEnd, DecimalEnd;
    if HasRadix(t, n) {
      RunEndShift(t, n, u, n + 2, if t[n + 1] == 'b' || t[n + 1] == 'B' then IsBinary else IsHex);
      EndsNumberShift(t, n, u, RadixEnd(t, n));
    } else {
      DecimalEndShift(t, n, u);
      if DecimalEnd(t, n).Some? { EndsNumberShift(t, n, u, DecimalEnd(t, n).value); }
    }
  }

  // ---------- looking ahead at most one character ----------

  /** What a number or a parameter starts with. */
  predicate IsStarter(c: char) { IsDigit(c) || c == '.' || c == ':' || c == '@' || c == '$' }

  /** The same character, or both start a number or a parameter. */
  predicate Alike(x: char, y: char) { x == y || (IsStarter(x) && IsStarter(y)) }

  /** What stands after such a character may belong to it. */
  predicate Glues(c: char) { IsIdentContinue(c) || c == '.' }

  /** `t` and `u` have the same characters before position `m`, and alike ones there. */
  ghost predicate Agree(t: string, u: string, m: nat) {
    m < |t| && m < |u| && (forall k :: 0 <= k < m ==> t[k] == u[k]) && Alike(t[m], u[m])
  }

  lemma RunEndAgree(t: string, u: string, m: nat, i: nat, p: char -> bool)
    requires Agree(t, u, m) && i <= m && RunEnd(t, i, p) <= m && (RunEnd(t, i, p) == m ==> !p(u[m]))
    ensures RunEnd(u, i, p) == RunEnd(t, i, p)
  {
    RunEndIs(u, i, p, RunEnd(t, i, p));
  }

  lemma {:induction false} BlockEndAgree(t: string, u: string, m: nat, i: nat, depth: nat)
    requires Agree(t, u, m) && i <= m && depth > 0
    requires BlockEnd(t, i, depth).Some? && BlockEnd(t, i, depth).value <= m
    ensures BlockEnd(u, i, depth) == BlockEnd(t, i, depth)
    decreases m - i
  {
    if t[i] == '/' && t[i + 1] == '*' {
      BlockEndAgree(t, u, m, i + 2, depth + 1);
    } else if t[i] == '*' && t[i + 1] == '/' {
      if depth > 1 { BlockEndAgree(t, u, m, i + 2, depth - 1); }
    } else {
      BlockEndAgree(t, u, m, i + 1, depth);
    }
  }

  lemma {:induction false} QuoteEndAgree(t: string, u: string, m: nat, i: nat, open: char, e: bool)
    requires Agree(t, u, m) && i <= m && IsQuote(open)
    requires QuoteEnd(t, i, open, e).Some? && QuoteEnd(t, i, open, e).value <= m
    ensures QuoteEnd(u, i, open, e) == QuoteEnd(t, i, open, e)
    decreases m - i
  {
    if t[i] == '\\' && open != '[' && (e || t[i + 1] == '\\') {
      QuoteEndAgree(t, u, m, i + 2, open, e);
    } else if t[i] != Closing(open) {
      QuoteEndAgree(t, u, m, i + 1, open, e);
    } else if t[i + 1] == Closing(open) {
      QuoteEndAgree(t, u, m, i + 2, open, e);
    }
  }

  lemma {:induction false} FindAgree(t: string, u: string, m: nat, i: nat, d: string)
    requires Agree(t, u, m) && i <= m && d != []
    requires Find(t, i, d).Some? && Find(t, i, d).value + |d| <= m
    ensures Find(u, i, d) == Find(t, i, d)
    decreases m - i
  {
    assert u[i..i + |d|] == t[i..i + |d|];
    if t[i..i + |d|] != d { FindAgree(t, u, m, i + 1, d); }
  }

  lemma DollarAgree(t: string, u: string, m: nat, glued: bool)
    requires Agree(t, u, m) && m > 0 && LexDollar(glued, t).Span? && LexDollar(glued, t).len <= m
    requires t[m] == u[m] || (LexDollar(glued, t).len == m && !Glues(t[m - 1]))
    ensures LexDollar(glued, u) == LexDollar(glued, t)
  {
    if DelimiterEnd(t, 0).Some? {
      var d := DelimiterEnd(t, 0).value;
      RunEndAgree(t, u, m, 1, IsIdentContinue);
      assert t[..d] == u[..d];
      FindAgree(t, u, m, d, t[..d]);
    } else {
      RunEndAgree(t, u, m, 1, IsIdentContinue);
    }
  }

  lemma FractionEndAgree(t: string, u: string, m: nat, i: nat)
    requires Agree(t, u, m) && t[m] == u[m] && i <= m && FractionEnd(t, i) <= m
    ensures FractionEnd(u, i) == FractionEnd(t, i)
  {
    if t[i] == '.' { RunEndAgree(t, u, m, i + 1, IsDigit); }
  }

  lemma ExponentEndAgree(t: string, u: string, m: nat, i: nat)
    requires Agree(t, u, m) && t[m] == u[m] && i <= m && ExponentEnd(t, i).Some? && ExponentEnd(t, i).value <= m
    ensures ExponentEnd(u, i) == ExponentEnd(t, i)
  {
    if t[i] == 'e' || t[i] == 'E' {
      RunEndAgree(t, u, m, if t[i + 1] == '+' || t[i + 1] == '-' then i + 2 else i + 1, IsDigit);
    }
  }

  lemma NumberAgree(t: string, u: string, m: nat)
    requires Agree(t, u, m) && t[m] == u[m] && NumberEnd(t, 0).Some? && NumberEnd(t, 0).value <= m
    ensures NumberEnd(u, 0) == NumberEnd(t, 0)
  {
    if HasRadix(t, 0) {
      RunEndAgree(t, u, m, 2, if t[1] == 'b' || t[1] == 'B' then IsBinary else IsHex);
    } else {
      RunEndAgree(t, u, m, 0, IsDigit);
      var w := RunEnd(t, 0, IsDigit);
      FractionEndAgree(t, u, m, w);
      ExponentEndAgree(t, u, m, FractionEnd(t, w));
    }
  }

  lemma NumberGlues(t: string)
    requires NumberEnd(t, 0).Some?
    ensures Glues(t[NumberEnd(t, 0).value - 1])
  {}

  /** The last character of a number, a word or a parameter. */
  lemma LastGlues(c: Context, t: string)
    requires t != [] && Lex(c, t).Span? && !IsSpace(t[0]) && !StartsComment(t)
    requires !(|t| > 1 && t[0] == '/' && t[1] == '*')
    requires !IsQuote(t[0]) && t[0] != '$' && (StartsParameter(t) || StartsNumber(t) || IsIdentStart(t[0]))
    ensures Glues(t[Lex(c, t).len - 1])
  {
    hide BlockEnd, QuoteEnd, NumberEnd, Find, RunEnd, Upper;
    if !StartsParameter(t) && StartsNumber(t) { NumberGlues(t); }
  }

  /** A lexical step sees at most one character beyond the span it takes; and after a span that does not glue it does
      not see what starts a number or a parameter there. */
  lemma LexAgree(c: Context, t: string, u: string, m: nat)
    requires Agree(t, u, m) && Lex(c, t).Span? && Lex(c, t).len <= m
    requires t[m] == u[m] || (Lex(c, t).len == m && !Glues(t[m - 1]))
    ensures Lex(c, u) == Lex(c, t)
  {
    if IsSpace(t[0]) || t[0] as int < 0x20 || t[0] as int >= 0x80 {
    } else if StartsComment(t) {
      RunEndAgree(t, u, m, 0, NotLineBreak);
    } else if t[0] == '/' && t[1] == '*' {
      BlockEndAgree(t, u, m, 2, 1);
    } else if IsQuote(t[0]) {
      QuoteEndAgree(t, u, m, 1, t[0], t[0] == '\'' && c.escaped);
    } else if t[0] == '$' {
      DollarAgree(t, u, m, c.glued);
    } else if StartsParameter(t) || StartsNumber(t) || IsIdentStart(t[0]) {
      LastGlues(c, t);
      GluedAgree(c, t, u, m);
    } else {
      assert t[..1] == u[..1];
    }
  }

  lemma GluedAgree(c: Context, t: string, u: string, m: nat)
    requires Agree(t, u, m) && t[m] == u[m] && Lex(c, t).Span? && Lex(c, t).len <= m
    requires !IsSpace(t[0]) && !StartsComment(t) && !(t[0] == '/' && t[1] == '*') && !IsQuote(t[0]) && t[0] != '$'
    requires StartsParameter(t) || StartsNumber(t) || IsIdentStart(t[0])
    ensures Lex(c, u) == Lex(c, t)
  {
    hide BlockEnd, QuoteEnd, Find, DelimiterEnd;
    if StartsParameter(t) {
      RunEndAgree(t, u, m, if t[0] == '@' && t[1] == '@' then 2 else 1, IsIdentContinue);
    } else if StartsNumber(t) {
      NumberAgree(t, u, m);
    } else {
      RunEndAgree(t, u, m, 0, IsIdentContinue);
      assert t[..RunEnd(t, 0, IsIdentContinue)] == u[..RunEnd(t, 0, IsIdentContinue)];
    }
  }
}
