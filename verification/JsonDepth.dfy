/** The flat depth scan of `sanitizer.go` over any serialisation of a JSON document. */
module JsonDepth {
  import opened Bytes
  import opened Quoting

  /** A character that the scan passes over outside strings. */
  predicate Quiet(c: char) { c != '"' && c != '{' && c != '}' && c != '[' && c != ']' }

  predicate AllQuiet(t: string) { forall k :: 0 <= k < |t| ==> Quiet(t[k]) }

  /** A document as written. A gap holds the whitespace, commas and colons between values. */
  datatype Doc = Scalar(text: string) | Quoted(units: seq<Unit>) | List(elems: Elems) | Dict(members: Members)

  datatype Elems = NoElem(gap: string) | Elem(gap: string, doc: Doc, rest: Elems)

  datatype Members = NoMember(gap: string) | Member(gap: string, key: seq<Unit>, colon: string, doc: Doc, rest: Members)

  predicate Valid(d: Doc) {
    match d
    case Scalar(t) => AllQuiet(t)
    case Quoted(us) => UnitsValid('\"', us)
    case List(es) => ElemsValid(es)
    case Dict(ms) => MembersValid(ms)
  }

  predicate ElemsValid(es: Elems) {
    match es
    case NoElem(g) => AllQuiet(g)
    case Elem(g, d, rest) => AllQuiet(g) && Valid(d) && ElemsValid(rest)
  }

  predicate MembersValid(ms: Members) {
    match ms
    case NoMember(g) => AllQuiet(g)
    case Member(g, k, c, d, rest) => AllQuiet(g) && UnitsValid('\"', k) && AllQuiet(c) && Valid(d) && MembersValid(rest)
  }

  function Max(a: nat, b: nat): nat { if a > b then a else b }

  /** Levels of `d`, when a scalar counts `leaf` of them. */
  function Levels(d: Doc, leaf: nat): nat {
    match d
    case List(es) => 1 + ElemsLevels(es, leaf)
    case Dict(ms) => 1 + MembersLevels(ms, leaf)
    case _ => leaf
  }

  function ElemsLevels(es: Elems, leaf: nat): nat {
    match es
    case NoElem(_) => 0
    case Elem(_, d, rest) => Max(Levels(d, leaf), ElemsLevels(rest, leaf))
  }

  function MembersLevels(ms: Members, leaf: nat): nat {
    match ms
    case NoMember(_) => 0
    case Member(_, _, _, d, rest) => Max(Levels(d, leaf), MembersLevels(rest, leaf))
  }

  /** How deep containers nest in `d`. */
  function Nest(d: Doc): nat { Levels(d, 0) }

  /** How many levels `d` has when every value counts, scalars and empty containers too. */
  function Height(d: Doc): nat { Levels(d, 1) }

  function PrintQuoted(us: seq<Unit>): string { "\"" + (PrintUnits(us) + "\"") }

  function Print(d: Doc): string {
    match d
    case Scalar(t) => t
    case Quoted(us) => PrintQuoted(us)
    case List(es) => "[" + (PrintElems(es) + "]")
    case Dict(ms) => "{" + (PrintMembers(ms) + "}")
  }

  function PrintElems(es: Elems): string {
    match es
    case NoElem(g) => g
    case Elem(g, d, rest) => g + (Print(d) + PrintElems(rest))
  }

  function PrintMembers(ms: Members): string {
    match ms
    case NoMember(g) => g
    case Member(g, k, c, d, rest) => g + (PrintQuoted(k) + (c + (Print(d) + PrintMembers(rest))))
  }

  // ---------- the scan ----------

  /** The verdict of the scan that reaches `i` in this state. */
  predicate Flat(s: string, i: nat, depth: int, quoted: bool, escaped: bool, max: nat)
    requires i <= |s|
    decreases |s| - i
  {
    if i == |s| then true
    else if quoted then
      if escaped then Flat(s, i + 1, depth, true, false, max)
      else if s[i] == '\\' then Flat(s, i + 1, depth, true, true, max)
      else Flat(s, i + 1, depth, s[i] != '"', false, max)
    else if s[i] == '"' then Flat(s, i + 1, depth, true, escaped, max)
    else if s[i] == '{' || s[i] == '[' then depth + 1 <= max && Flat(s, i + 1, depth + 1, false, escaped, max)
    else if s[i] == '}' || s[i] == ']' then Flat(s, i + 1, depth - 1, false, escaped, max)
    else Flat(s, i + 1, depth, false, escaped, max)
  }

  predicate DepthAllowed(s: string, initial: int, max: nat) { Flat(s, 0, initial, false, false, max) }

  /** `jsonDepthAllowed`. */
  method JsonDepthAllowed(input: string, initial: int, max: nat) returns (ok: bool)
    ensures ok == DepthAllowed(input, initial, max)
  {
    var depth, quoted, escaped := initial, false, false;
    for i := 0 to |input|
      invariant DepthAllowed(input, initial, max) == Flat(input, i, depth, quoted, escaped, max)
    {
      var r := input[i];
      if quoted {
        if escaped {
          escaped := false;
        } else if r == '\\' {
          escaped := true;
        } else if r == '"' {
          quoted := false;
        }
        continue;
      }
      if r == '"' {
        quoted := true;
      } else if r == '{' || r == '[' {
        depth := depth + 1;
        if depth > max { return false; }
      } else if r == '}' || r == ']' {
        depth := depth - 1;
      }
    }
    return true;
  }

  // ---------- the scan measures the document ----------

  lemma {:induction false} FlatQuiet(s: string, i: nat, t: string, depth: int, max: nat)
    requires At(s, i, t) && AllQuiet(t)
    ensures i + |t| <= |s| && Flat(s, i, depth, false, false, max) == Flat(s, i + |t|, depth, false, false, max)
    decreases |t|
  {
    if t != "" {
      AtChar(s, i, t, 0);
      assert t == t[..1] + t[1..];
      AtSplit(s, i, t[..1], t[1..]);
      FlatQuiet(s, i + 1, t[1..], depth, max);
    }
  }

  lemma {:induction false} FlatUnits(s: string, i: nat, us: seq<Unit>, depth: int, max: nat)
    requires UnitsValid('\"', us) && At(s, i, PrintUnits(us) + "\"")
    ensures i + |PrintUnits(us)| + 1 <= |s|
    ensures Flat(s, i, depth, true, false, max) == Flat(s, i + |PrintUnits(us)| + 1, depth, false, false, max)
    decreases |us|
  {
    var t := PrintUnits(us) + "\"";
    AtChar(s, i, t, 0);
    if us != [] {
      var u := us[0];
      var head := match u case Char(c) => [c] case Escape(c) => ['\\', c];
      assert t == head + (PrintUnits(us[1..]) + "\"");
      if u.Escape? { AtChar(s, i, t, 1); }
      AtSplit(s, i, head, PrintUnits(us[1..]) + "\"");
      FlatUnits(s, i + |head|, us[1..], depth, max);
    }
  }

  lemma FlatQuoted(s: string, i: nat, us: seq<Unit>, depth: int, max: nat)
    requires UnitsValid('\"', us) && At(s, i, PrintQuoted(us))
    ensures i + |PrintQuoted(us)| <= |s|
    ensures Flat(s, i, depth, false, false, max) == Flat(s, i + |PrintQuoted(us)|, depth, false, false, max)
  {
    AtChar(s, i, PrintQuoted(us), 0);
    AtSplit(s, i, "\"", PrintUnits(us) + "\"");
    FlatUnits(s, i + 1, us, depth, max);
  }

  /** Containers nested `nest` deep fit below `depth`. */
  predicate Fits(nest: nat, depth: int, max: nat) { nest == 0 || depth + nest <= max }

  /** A bracketed body: the scan goes one deeper for the body, and back after it. */
  lemma FlatBrackets(s: string, i: nat, open: string, body: string, close: string, depth: int, max: nat)
    requires (open == "[" || open == "{") && (close == "]" || close == "}")
    requires At(s, i, open + (body + close))
    ensures i + |body| + 2 <= |s| && At(s, i + 1, body)
    ensures Flat(s, i, depth, false, false, max) <==> depth + 1 <= max && Flat(s, i + 1, depth + 1, false, false, max)
    ensures Flat(s, i + 1 + |body|, depth + 1, false, false, max) == Flat(s, i + |body| + 2, depth, false, false, max)
  {
    AtSplit(s, i, open, body + close);
    AtSplit(s, i + 1, body, close);
    AtChar(s, i, open, 0);
    AtChar(s, i + 1 + |body|, close, 0);
    AtInside(s, i + 1 + |body|, close);
  }

  lemma {:induction false} FlatDoc(s: string, i: nat, d: Doc, depth: int, max: nat)
    requires Valid(d) && At(s, i, Print(d))
    ensures i + |Print(d)| <= |s|
    ensures Flat(s, i, depth, false, false, max)
        <==> Fits(Nest(d), depth, max) && Flat(s, i + |Print(d)|, depth, false, false, max)
    decreases d
  {
    hide At, PrintQuoted, AllQuiet, UnitsValid, Flat;
    match d {
      case Scalar(t) => FlatQuiet(s, i, t, depth, max);
      case Quoted(us) => FlatQuoted(s, i, us, depth, max);
      case List(es) =>
        FlatBrackets(s, i, "[", PrintElems(es), "]", depth, max);
        FlatElems(s, i + 1, es, depth + 1, max);
      case Dict(ms) =>
        FlatBrackets(s, i, "{", PrintMembers(ms), "}", depth, max);
        FlatMembers(s, i + 1, ms, depth + 1, max);
    }
  }

  lemma {:induction false} FlatElems(s: string, i: nat, es: Elems, depth: int, max: nat)
    requires ElemsValid(es) && At(s, i, PrintElems(es))
    ensures i + |PrintElems(es)| <= |s|
    ensures Flat(s, i, depth, false, false, max)
        <==> Fits(ElemsLevels(es, 0), depth, max) && Flat(s, i + |PrintElems(es)|, depth, false, false, max)
    decreases es
  {
    hide At, PrintQuoted, AllQuiet, UnitsValid, Levels, Flat;
    match es {
      case NoElem(g) => FlatQuiet(s, i, g, depth, max);
      case Elem(g, d, rest) =>
        AtSplit(s, i, g, Print(d) + PrintElems(rest));
        AtSplit(s, i + |g|, Print(d), PrintElems(rest));
        FlatQuiet(s, i, g, depth, max);
        FlatDoc(s, i + |g|, d, depth, max);
        FlatElems(s, i + |g| + |Print(d)|, rest, depth, max);
    }
  }

  lemma {:induction false} FlatMembers(s: string, i: nat, ms: Members, depth: int, max: nat)
    requires MembersValid(ms) && At(s, i, PrintMembers(ms))
    ensures i + |PrintMembers(ms)| <= |s|
    ensures Flat(s, i, depth, false, false, max)
        <==> Fits(MembersLevels(ms, 0), depth, max) && Flat(s, i + |PrintMembers(ms)|, depth, false, false, max)
    decreases ms
  {
    hide At, PrintQuoted, AllQuiet, UnitsValid, Levels, Flat;
    match ms {
      case NoMember(g) => FlatQuiet(s, i, g, depth, max);
      case Member(g, k, c, d, rest) =>
        var key := PrintQuoted(k);
        AtSplit(s, i, g, key + (c + (Print(d) + PrintMembers(rest))));
        AtSplit(s, i + |g|, key, c + (Print(d) + PrintMembers(rest)));
        AtSplit(s, i + |g| + |key|, c, Print(d) + PrintMembers(rest));
        AtSplit(s, i + |g| + |key| + |c|, Print(d), PrintMembers(rest));
        FlatQuiet(s, i, g, depth, max);
        FlatQuoted(s, i + |g|, k, depth, max);
        FlatQuiet(s, i + |g| + |key|, c, depth, max);
        FlatDoc(s, i + |g| + |key| + |c|, d, depth, max);
        FlatMembers(s, i + |g| + |key| + |c| + |Print(d)|, rest, depth, max);
    }
  }

  /** `t` is some writing of `d`, with quiet text around it. */
  ghost predicate Writes(t: string, d: Doc) {
    Valid(d) && exists before: string, after: string ::
      AllQuiet(before) && AllQuiet(after) && t == before + (Print(d) + after)
  }

  lemma FlatEnd(t: string, depth: int, max: nat)
    ensures Flat(t, |t|, depth, false, false, max)
  {}

  lemma FlatAround(before: string, d: Doc, after: string, initial: int, max: nat)
    requires AllQuiet(before) && AllQuiet(after) && Valid(d)
    ensures DepthAllowed(before + (Print(d) + after), initial, max) <==> Fits(Nest(d), initial, max)
  {
    var t := before + (Print(d) + after);
    FlatEnd(t, initial, max);
    assert t[0..0 + |t|] == t;
    assert At(t, 0, t);
    hide At, AllQuiet, Valid, Flat, Levels;
    AtSplit(t, 0, before, Print(d) + after);
    AtSplit(t, |before|, Print(d), after);
    FlatQuiet(t, 0, before, initial, max);
    FlatDoc(t, |before|, d, initial, max);
    FlatQuiet(t, |before| + |Print(d)|, after, initial, max);
  }

  /** On any writing of a document the scan holds exactly when the document's containers fit. */
  lemma DepthAllowedExact(t: string, d: Doc, initial: int, max: nat)
    requires Writes(t, d)
    ensures DepthAllowed(t, initial, max) <==> Fits(Nest(d), initial, max)
  {
    var before: string, after: string :|
      AllQuiet(before) && AllQuiet(after) && t == before + (Print(d) + after);
    FlatAround(before, d, after, initial, max);
  }
}
