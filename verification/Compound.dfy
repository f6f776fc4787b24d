/** The end of a compound value in `text.go`: a loop over a fixed stack against a grammar of balanced terms. */
module Compound {
  import opened Bytes
  import opened Quoting

  const MAX_DEPTH := 24

  predicate IsQuote(c: char) { c == '"' || c == '\'' }

  predicate IsOpen(c: char) { c == '{' || c == '[' }

  predicate IsClose(c: char) { c == '}' || c == ']' }

  function CloseOf(open: char): char { if open == '{' then '}' else ']' }

  // ---------- the grammar ----------

  datatype Item = Plain(c: char) | Quoted(quote: char, units: seq<Unit>) | Group(open: char, items: Items)

  datatype Items = Nil | Cons(head: Item, tail: Items)

  predicate Valid(x: Item) {
    match x
    case Plain(c) => !IsQuote(c) && !IsOpen(c) && !IsClose(c)
    case Quoted(q, us) => IsQuote(q) && UnitsValid(q, us)
    case Group(o, xs) => IsOpen(o) && AllValid(xs)
  }

  predicate AllValid(xs: Items) {
    match xs
    case Nil => true
    case Cons(x, rest) => Valid(x) && AllValid(rest)
  }

  function Depth(x: Item): nat {
    match x
    case Group(_, xs) => 1 + MaxDepth(xs)
    case _ => 0
  }

  function MaxDepth(xs: Items): nat {
    match xs
    case Nil => 0
    case Cons(x, rest) => if Depth(x) > MaxDepth(rest) then Depth(x) else MaxDepth(rest)
  }

  function Print(x: Item): string {
    match x
    case Plain(c) => [c]
    case Quoted(q, us) => [q] + (PrintUnits(us) + [q])
    case Group(o, xs) => [o] + (PrintAll(xs) + [CloseOf(o)])
  }

  function PrintAll(xs: Items): string {
    match xs
    case Nil => ""
    case Cons(x, rest) => Print(x) + PrintAll(rest)
  }

  /** `s[i..j]` is a balanced term nested at most 24 deep. */
  ghost predicate IsTerm(s: string, i: nat, j: nat) {
    exists g: Item :: g.Group? && Valid(g) && Depth(g) <= 24 && i <= j <= |s| && s[i..j] == Print(g)
  }

  // ---------- the loop ----------

  /** Where the loop returns when it reaches `i` with this stack and open quote (0 for none). */
  function Scan(s: string, i: nat, stack: seq<char>, quote: char): (r: Option<nat>)
    requires i <= |s|
    ensures r.Some? ==> i < r.value <= |s|
    decreases |s| - i
  {
    if i == |s| then None
    else if quote != '\0' then
      if s[i] == '\\' then (if i + 1 == |s| then None else Scan(s, i + 2, stack, quote))
      else Scan(s, i + 1, stack, if s[i] == quote then '\0' else quote)
    else if IsQuote(s[i]) then Scan(s, i + 1, stack, s[i])
    else if IsOpen(s[i]) then
      if |stack| == MAX_DEPTH then None else Scan(s, i + 1, stack + [s[i]], quote)
    else if IsClose(s[i]) then
      if stack == [] || s[i] != CloseOf(stack[|stack| - 1]) then None
      else if |stack| == 1 then Some(i + 1)
      else Scan(s, i + 1, stack[..|stack| - 1], quote)
    else Scan(s, i + 1, stack, quote)
  }

  /** `compoundSensitiveEnd`. */
  method CompoundSensitiveEnd(s: string, start: nat) returns (end: nat, ok: bool)
    requires start < |s| && IsOpen(s[start])
    ensures ok ==> IsTerm(s, start, end)
    ensures !ok ==> end == |s| && forall j: nat :: !IsTerm(s, start, j)
    ensures Scan(s, start, [], '\0') == if ok then Some(end) else None
  {
    var stack := new char[24];
    var depth := 0;
    var quote := '\0';
    var i := start;
    TermExact(s, start);
    while i < |s|
      invariant start <= i <= |s| && 0 <= depth <= 24
      invariant forall k :: 0 <= k < depth ==> IsOpen(stack[k])
      invariant Scan(s, start, [], '\0') == Scan(s, i, stack[..depth], quote)
    {
      if quote != '\0' {
        if s[i] == '\\' {
          if i + 1 >= |s| { return |s|, false; }
          i := i + 2;
          continue;
        }
        if s[i] == quote { quote := '\0'; }
        i := i + 1;
        continue;
      }
      if s[i] == '"' || s[i] == '\'' {
        quote := s[i];
      } else if s[i] == '{' || s[i] == '[' {
        if depth == stack.Length { return |s|, false; }
        ghost var below := stack[..depth];
        stack[depth] := s[i];
        depth := depth + 1;
        assert stack[..depth] == below + [s[i]];
      } else if s[i] == '}' || s[i] == ']' {
        if depth == 0 || (s[i] == '}' && stack[depth - 1] != '{') || (s[i] == ']' && stack[depth - 1] != '[') {
          return |s|, false;
        }
        depth := depth - 1;
        assert stack[..depth] == stack[..depth + 1][..depth];
        if depth == 0 { return i + 1, true; }
      }
      i := i + 1;
    }
    return |s|, false;
  }

  // ---------- the loop accepts what the grammar prints ----------

  lemma {:induction false} RunUnits(s: string, i: nat, stack: seq<char>, q: char, us: seq<Unit>)
    requires IsQuote(q) && UnitsValid(q, us) && At(s, i, PrintUnits(us) + [q])
    ensures i + |PrintUnits(us)| + 1 <= |s|
    ensures Scan(s, i, stack, q) == Scan(s, i + |PrintUnits(us)| + 1, stack, '\0')
    decreases us
  {
    var t := PrintUnits(us) + [q];
    AtChar(s, i, t, 0);
    AtInside(s, i, t);
    if us != [] {
      var u := us[0];
      var head := match u case Char(c) => [c] case Escape(c) => ['\\', c];
      assert t == head + (PrintUnits(us[1..]) + [q]);
      AtSplit(s, i, head, PrintUnits(us[1..]) + [q]);
      AtInside(s, i + |head|, PrintUnits(us[1..]) + [q]);
      hide At;
      RunUnits(s, i + |head|, stack, q, us[1..]);
    }
  }

  lemma {:induction false} RunItem(s: string, i: nat, stack: seq<char>, x: Item)
    requires Valid(x) && stack != [] && |stack| + Depth(x) <= MAX_DEPTH && At(s, i, Print(x))
    ensures i + |Print(x)| <= |s| && Scan(s, i, stack, '\0') == Scan(s, i + |Print(x)|, stack, '\0')
    decreases x, 1
  {
    hide At;
    var t := Print(x);
    AtChar(s, i, t, 0);
    AtInside(s, i, t);
    match x
    case Plain(c) =>
    case Quoted(q, us) =>
      AtSplit(s, i, [q], PrintUnits(us) + [q]);
      RunUnits(s, i + 1, stack, q, us);
    case Group(o, xs) =>
      RunGroup(s, i, stack, o, xs);
      assert (stack + [o])[..|stack|] == stack;
  }

  /** A group runs through its items with its opening bracket on top of the stack. */
  lemma {:induction false} RunGroup(s: string, i: nat, stack: seq<char>, o: char, xs: Items)
    requires IsOpen(o) && AllValid(xs) && |stack| + 1 + MaxDepth(xs) <= MAX_DEPTH && At(s, i, Print(Group(o, xs)))
    ensures var j := i + |Print(Group(o, xs))| - 1;
            j < |s| && s[j] == CloseOf(o) && Scan(s, i, stack, '\0') == Scan(s, j, stack + [o], '\0')
    decreases xs, 1
  {
    hide At;
    var body := PrintAll(xs);
    AtSplit(s, i, [o], body + [CloseOf(o)]);
    AtSplit(s, i + 1, body, [CloseOf(o)]);
    AtChar(s, i, [o], 0);
    AtChar(s, i + 1 + |body|, [CloseOf(o)], 0);
    AtInside(s, i + 1 + |body|, [CloseOf(o)]);
    RunItems(s, i + 1, stack + [o], xs);
  }

  lemma {:induction false} RunItems(s: string, i: nat, stack: seq<char>, xs: Items)
    requires AllValid(xs) && stack != [] && |stack| + MaxDepth(xs) <= MAX_DEPTH && At(s, i, PrintAll(xs))
    ensures i + |PrintAll(xs)| <= |s| && Scan(s, i, stack, '\0') == Scan(s, i + |PrintAll(xs)|, stack, '\0')
    decreases xs, 0
  {
    AtInside(s, i, PrintAll(xs));
    hide At, Scan;
    match xs
    case Nil =>
    case Cons(x, rest) =>
      AtSplit(s, i, Print(x), PrintAll(rest));
      RunItem(s, i, stack, x);
      RunItems(s, i + |Print(x)|, stack, rest);
  }

  // ---------- the grammar prints what the loop accepts ----------

  lemma {:induction false} ParseUnits(s: string, i: nat, stack: seq<char>, q: char) returns (us: seq<Unit>, j: nat)
    requires i <= |s| && IsQuote(q) && Scan(s, i, stack, q).Some?
    ensures UnitsValid(q, us) && i <= j < |s| && s[j] == q && s[i..j] == PrintUnits(us)
    ensures Scan(s, i, stack, q) == Scan(s, j + 1, stack, '\0')
    decreases |s| - i
  {
    if s[i] == '\\' {
      us, j := ParseUnits(s, i + 2, stack, q);
      assert s[i..j] == ['\\', s[i + 1]] + s[i + 2..j];
      us := [Escape(s[i + 1])] + us;
    } else if s[i] == q {
      us, j := [], i;
    } else {
      us, j := ParseUnits(s, i + 1, stack, q);
      assert s[i..j] == [s[i]] + s[i + 1..j];
      us := [Char(s[i])] + us;
    }
  }

  /** Where the loop goes on after the bracket at `j` closed the top of the stack. */
  function AfterClose(s: string, j: nat, stack: seq<char>): Option<nat>
    requires j < |s| && stack != []
  {
    if |stack| == 1 then Some(j + 1) else Scan(s, j + 1, stack[..|stack| - 1], '\0')
  }

  lemma {:induction false} ParseItems(s: string, i: nat, stack: seq<char>) returns (xs: Items, j: nat)
    requires i <= |s| && 0 < |stack| <= MAX_DEPTH && Scan(s, i, stack, '\0').Some?
    ensures AllValid(xs) && |stack| + MaxDepth(xs) <= MAX_DEPTH
    ensures i <= j < |s| && s[j] == CloseOf(stack[|stack| - 1]) && s[i..j] == PrintAll(xs)
    ensures Scan(s, i, stack, '\0') == AfterClose(s, j, stack)
    decreases |s| - i
  {
    if IsClose(s[i]) {
      return Nil, i;
    }
    var x, k := ParseItem(s, i, stack);
    var rest;
    rest, j := ParseItems(s, k, stack);
    SliceSplit(s, i, k, j);
    xs := Cons(x, rest);
  }

  lemma {:induction false} ParseItem(s: string, i: nat, stack: seq<char>) returns (x: Item, k: nat)
    requires i < |s| && !IsClose(s[i]) && 0 < |stack| <= MAX_DEPTH && Scan(s, i, stack, '\0').Some?
    ensures Valid(x) && |stack| + Depth(x) <= MAX_DEPTH
    ensures i < k <= |s| && s[i..k] == Print(x) && Scan(s, i, stack, '\0') == Scan(s, k, stack, '\0')
    decreases |s| - i, 0
  {
    if IsQuote(s[i]) {
      var us, j := ParseUnits(s, i + 1, stack, s[i]);
      SliceWrapped(s, i, j);
      x, k := Quoted(s[i], us), j + 1;
    } else if IsOpen(s[i]) {
      var inner := stack + [s[i]];
      var xs, j := ParseItems(s, i + 1, inner);
      assert inner[..|inner| - 1] == stack;
      SliceWrapped(s, i, j);
      x, k := Group(s[i], xs), j + 1;
    } else {
      x, k := Plain(s[i]), i + 1;
    }
  }

  /** From an opening bracket the loop ends exactly at the end of the balanced term that starts there, and
      fails exactly when no term of at most 24 levels starts there; so a term's end is unique. */
  lemma TermExact(s: string, start: nat)
    requires start < |s| && IsOpen(s[start])
    ensures forall j: nat :: IsTerm(s, start, j) <==> Scan(s, start, [], '\0') == Some(j)
  {
    forall j: nat
      ensures IsTerm(s, start, j) <==> Scan(s, start, [], '\0') == Some(j)
    {
      if IsTerm(s, start, j) {
        var g: Item :| g.Group? && Valid(g) && Depth(g) <= MAX_DEPTH && start <= j <= |s| && s[start..j] == Print(g);
        TermRuns(s, start, j, g);
      }
      if Scan(s, start, [], '\0') == Some(j) {
        TermParses(s, start, j);
      }
    }
  }

  lemma LastClose(s: string, j: nat, o: char)
    requires j < |s| && IsOpen(o) && s[j] == CloseOf(o)
    ensures Scan(s, j, [o], '\0') == Some(j + 1)
  {}

  lemma GroupShape(g: Item)
    requires g.Group? && Valid(g) && Depth(g) <= MAX_DEPTH
    ensures g == Group(g.open, g.items) && IsOpen(g.open) && AllValid(g.items) && 1 + MaxDepth(g.items) <= MAX_DEPTH
    ensures |Print(g)| >= 2
  {}

  lemma TermRuns(s: string, start: nat, j: nat, g: Item)
    requires start < |s| && g.Group? && Valid(g) && Depth(g) <= MAX_DEPTH
    requires start <= j <= |s| && s[start..j] == Print(g)
    ensures Scan(s, start, [], '\0') == Some(j)
  {
    hide Scan, Print, CloseOf, Valid, Depth;
    GroupShape(g);
    assert At(s, start, Print(g)) && j == start + |Print(g)|;
    RunGroup(s, start, [], g.open, g.items);
    assert [] + [g.open] == [g.open];
    LastClose(s, j - 1, g.open);
  }

  lemma TermParses(s: string, start: nat, j: nat)
    requires start < |s| && IsOpen(s[start]) && Scan(s, start, [], '\0') == Some(j)
    ensures IsTerm(s, start, j)
  {
    assert [] + [s[start]] == [s[start]];
    var xs, k := ParseItems(s, start + 1, [s[start]]);
    var g := Group(s[start], xs);
    SliceWrapped(s, start, k);
    assert Valid(g) && Depth(g) <= MAX_DEPTH && s[start..j] == Print(g);
  }
}
