/** Byte strings and the ASCII character classes shared by the scanners.
    A `char` stands for one byte of a Go string. */
module Bytes {
  datatype Option<+T> = None | Some(value: T)

  /** A length seen after `n` more characters, when there is one. */
  function Plus(n: nat, o: Option<nat>): (r: Option<nat>) {
    match o
    case None => None
    case Some(k) => Some(n + k)
  }

  predicate IsDigit(c: char) { '0' <= c <= '9' }

  predicate AllDigits(t: string) { forall i :: 0 <= i < |t| ==> IsDigit(t[i]) }

  predicate IsLetter(c: char) { 'a' <= c <= 'z' || 'A' <= c <= 'Z' }

  predicate IsIdentStart(c: char) { IsLetter(c) || c == '_' }

  predicate IsIdentContinue(c: char) { IsIdentStart(c) || IsDigit(c) }

  predicate IsHex(c: char) { IsDigit(c) || 'a' <= c <= 'f' || 'A' <= c <= 'F' }

  predicate IsBinary(c: char) { c == '0' || c == '1' }

  function UpperChar(c: char): char {
    if 'a' <= c <= 'z' then (c as int - 32) as char else c
  }

  function LowerChar(c: char): char {
    if 'A' <= c <= 'Z' then (c as int + 32) as char else c
  }

  function Upper(s: string): (r: string)
    ensures |r| == |s|
    ensures forall i :: 0 <= i < |s| ==> r[i] == UpperChar(s[i])
  {
    if s == [] then [] else [UpperChar(s[0])] + Upper(s[1..])
  }

  function Lower(s: string): (r: string)
    ensures |r| == |s|
    ensures forall i :: 0 <= i < |s| ==> r[i] == LowerChar(s[i])
  {
    if s == [] then [] else [LowerChar(s[0])] + Lower(s[1..])
  }

  /** The first position from `i` on whose character does not satisfy `p`. */
  function RunEnd(t: string, i: nat, p: char -> bool): (e: nat)
    requires i <= |t|
    ensures i <= e <= |t|
    ensures forall k :: i <= k < e ==> p(t[k])
    ensures e < |t| ==> !p(t[e])
    decreases |t| - i
  {
    if i < |t| && p(t[i]) then RunEnd(t, i + 1, p) else i
  }

  /** `RunEnd` is the only position with its properties. */
  lemma RunEndIs(t: string, i: nat, p: char -> bool, e: nat)
    requires i <= e <= |t|
    requires forall k :: i <= k < e ==> p(t[k])
    requires e < |t| ==> !p(t[e])
    ensures RunEnd(t, i, p) == e
  {}

  /** `u` is `t` without its first `n` characters. */
  ghost predicate IsDrop(u: string, t: string, n: nat) {
    |t| == n + |u|
    && (forall k :: n <= k < |t| ==> t[k] == u[k - n])
    && (forall k :: 0 <= k < |u| ==> u[k] == t[n + k])
  }

  lemma RunEndShift(t: string, n: nat, u: string, i: nat, p: char -> bool)
    requires IsDrop(u, t, n) && n <= i <= |t|
    ensures RunEnd(t, i, p) == n + RunEnd(u, i - n, p)
  {
    RunEndIs(u, i - n, p, RunEnd(t, i, p) - n);
  }

  predicate IsLowerHex(c: char) { IsDigit(c) || 'a' <= c <= 'f' }

  /** A SHA-256 digest with its prefix. */
  predicate IsDigest(s: string) {
    |s| == 71 && s[..7] == "sha256:" && forall i :: 7 <= i < |s| ==> IsLowerHex(s[i])
  }

  predicate Continuation(s: string, i: nat) { i < |s| && 0x80 <= s[i] as int < 0xC0 }

  /** Length of the well-formed UTF-8 sequence at `i` (Unicode 15, table 3-7), or 0. */
  function RuneLen(s: string, i: nat): (n: nat)
    requires i < |s|
    ensures n <= 4 && i + n <= |s|
  {
    var b := s[i] as int;
    if b < 0x80 then 1
    else if 0xC2 <= b < 0xE0 then (if Continuation(s, i + 1) then 2 else 0)
    else if 0xE0 <= b < 0xF0 then
      if Continuation(s, i + 1) && Continuation(s, i + 2)
         && (b == 0xE0 ==> s[i + 1] as int >= 0xA0) && (b == 0xED ==> (s[i + 1] as int) < 0xA0)
      then 3 else 0
    else if 0xF0 <= b < 0xF5 then
      if Continuation(s, i + 1) && Continuation(s, i + 2) && Continuation(s, i + 3)
         && (b == 0xF0 ==> s[i + 1] as int >= 0x90) && (b == 0xF4 ==> (s[i + 1] as int) < 0x90)
      then 4 else 0
    else 0
  }

  predicate ValidUtf8From(s: string, i: nat)
    requires i <= |s|
    decreases |s| - i
  {
    i == |s| || (RuneLen(s, i) > 0 && ValidUtf8From(s, i + RuneLen(s, i)))
  }

  predicate ValidUtf8(s: string) { ValidUtf8From(s, 0) }

  predicate IsAscii(s: string) { forall i :: 0 <= i < |s| ==> s[i] as int < 0x80 }

  lemma {:induction false} AsciiIsValidUtf8(s: string, i: nat)
    requires i <= |s| && IsAscii(s)
    ensures ValidUtf8From(s, i)
    decreases |s| - i
  {
    if i < |s| {
      assert RuneLen(s, i) == 1;
      AsciiIsValidUtf8(s, i + 1);
    }
  }

  lemma SliceSlice<T>(s: seq<T>, i: nat, j: nat, a: nat, b: nat)
    requires i <= j <= |s| && a <= b <= j - i
    ensures s[i..j][a..b] == s[i + a..i + b]
  {
    forall k | 0 <= k < b - a ensures s[i..j][a..b][k] == s[i + a..i + b][k] {}
    assert |s[i..j][a..b]| == |s[i + a..i + b]|;
  }

  lemma SliceSplit<T>(s: seq<T>, i: nat, k: nat, j: nat)
    requires i <= k <= j <= |s|
    ensures s[i..j] == s[i..k] + s[k..j]
  {}

  lemma SliceWrapped<T>(s: seq<T>, i: nat, j: nat)
    requires i < j < |s|
    ensures s[i..j + 1] == [s[i]] + (s[i + 1..j] + [s[j]])
  {}

  /** `t` stands at position `i` of `s`. */
  predicate At(s: string, i: nat, t: string) { i + |t| <= |s| && s[i..i + |t|] == t }

  lemma AtSplit(s: string, i: nat, x: string, y: string)
    requires At(s, i, x + y)
    ensures At(s, i, x) && At(s, i + |x|, y)
  {
    SliceSlice(s, i, i + |x + y|, 0, |x|);
    SliceSlice(s, i, i + |x + y|, |x|, |x + y|);
    assert (x + y)[..|x|] == x && (x + y)[|x|..] == y;
  }

  lemma AtChar(s: string, i: nat, t: string, k: nat)
    requires At(s, i, t) && k < |t|
    ensures s[i + k] == t[k]
  {
    assert s[i..i + |t|][k] == t[k];
  }

  lemma AtInside(s: string, i: nat, t: string)
    requires At(s, i, t)
    ensures i + |t| <= |s|
  {}

  /** Where the first `c` of `t` is, or its length. */
  function Cut(t: string, c: char): (k: nat)
    ensures k <= |t|
  {
    RunEnd(t, 0, x => x != c)
  }

  /** A separator that does not occur in `x` cuts `x + [c] + y` after `x`. */
  lemma CutAt(x: string, c: char, y: string)
    requires forall i :: 0 <= i < |x| ==> x[i] != c
    ensures Cut(x, c) == |x| && Cut(x + [c] + y, c) == |x|
  {
    RunEndIs(x, 0, z => z != c, |x|);
    RunEndIs(x + [c] + y, 0, z => z != c, |x|);
  }
}
