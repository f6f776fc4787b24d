/** Quoted text with backslash escapes, as written by logs and JSON alike. */
module Quoting {
  /** A piece of quoted text: a plain character, or a backslash and the character after it. */
  datatype Unit = Char(c: char) | Escape(c: char)

  /** No plain character ends the quote or starts an escape. */
  predicate UnitsValid(q: char, us: seq<Unit>) {
    forall k :: 0 <= k < |us| ==> us[k].Char? ==> us[k].c != q && us[k].c != '\\'
  }

  function PrintUnits(us: seq<Unit>): string {
    if us == [] then ""
    else (match us[0] case Char(c) => [c] case Escape(c) => ['\\', c]) + PrintUnits(us[1..])
  }
}
