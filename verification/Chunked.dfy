/** The request-body reader of `sink.py`: exact lengths and chunked coding (section 7.1 of RFC 9112). */
module Chunked {
  import opened Bytes
  import opened Decimals

  const MAX_BODY: nat := 0x80_0000
  const MAX_CHUNK_LINE: nat := 1024
  const MAX_CHUNK_FRAMING: nat := 65536
  const MAX_CHUNKS: nat := 65536
  const MAX_TRAILER_LINES: nat := 32
  const MAX_TRAILER_BYTES: nat := 16384
  const PIECE: nat := 65536
  const CRLF: string := "\r\n"

  /** Bytes read and where the next read starts, or the status of `BodyError`. */
  datatype Read = Got(bytes: string, at: nat) | Fail(status: nat)

  // ---------- what is read when the deadline never passes ----------

  function Exact(data: string, pos: nat, length: nat): (r: Read)
    ensures r.Got? ==> |r.bytes| == length && r.at == pos + length <= |data|
  {
    if pos + length <= |data| then Got(data[pos..pos + length], pos + length) else Fail(400)
  }

  /** `_read_chunk_line`: up to the first line feed, which must follow a carriage return. */
  function Line(data: string, pos: nat): (r: Read)
    requires pos <= |data|
    ensures r.Got? ==> 2 <= |r.bytes| <= MAX_CHUNK_LINE && pos + |r.bytes| == r.at <= |data|
    ensures r.Got? ==> r.bytes == data[pos..r.at]
    ensures r.Fail? ==> r.status == 400
  {
    var n := RunEnd(data, pos, c => c != '\n');
    if n < |data| && n + 1 - pos <= MAX_CHUNK_LINE && n > pos && data[n - 1] == '\r'
    then Got(data[pos..n + 1], n + 1) else Fail(400)
  }

  function HexDigit(c: char): nat
    requires IsHex(c)
  {
    if IsDigit(c) then c as int - '0' as int else UpperChar(c) as int - 'A' as int + 10
  }

  predicate AllHex(t: string) { forall i :: 0 <= i < |t| ==> IsHex(t[i]) }

  function HexVal(t: string): nat
    requires AllHex(t)
  {
    if t == "" then 0 else 16 * HexVal(t[..|t| - 1]) + HexDigit(t[|t| - 1])
  }

  function After(t: string, k: nat): string { if k < |t| then t[k + 1..] else "" }

  predicate IsSize(t: string) { t != "" && AllHex(t) }

  predicate IsExtension(t: string) { forall i :: 0 <= i < |t| ==> 32 <= t[i] as int <= 126 }

  predicate IsTokenChar(c: char) {
    IsDigit(c) || IsLetter(c) || c == '!' || ('#' <= c <= '\'') || c == '*' || c == '+' || c == '-' || c == '.'
    || c == '^' || c == '_' || c == '`' || c == '|' || c == '~'
  }

  /** A trailer may not be named like the headers that frame a body, in any case. */
  predicate IsTrailerName(t: string) {
    t != "" && (forall i :: 0 <= i < |t| ==> IsTokenChar(t[i]))
    && Upper(t) != "CONTENT-LENGTH" && Upper(t) != "TRANSFER-ENCODING"
  }

  predicate IsTrailerValue(t: string) {
    forall i :: 0 <= i < |t| ==> (t[i] as int >= 32 || t[i] == '\t') && t[i] as int != 127
  }

  predicate IsTrailer(t: string) {
    var k := Cut(t, ':');
    k < |t| && IsTrailerName(t[..k]) && IsTrailerValue(t[k + 1..])
  }

  /** What a trailer line does: it ends the message, is skipped, or is refused with a status. */
  datatype Verdict = End | Skip | Deny(status: nat)

  /** The line after `number` others that used up `used` bytes. */
  function Judge(line: string, used: nat, number: nat): (v: Verdict)
    requires |line| >= 2
    ensures v.Skip? ==> number < MAX_TRAILER_LINES
    ensures v.Deny? ==> v.status == 400 || v.status == 413
  {
    if used + |line| > MAX_TRAILER_BYTES then Deny(413)
    else if line == CRLF then End
    else if number >= MAX_TRAILER_LINES then Deny(413)
    else if !IsTrailer(line[..|line| - 2]) then Deny(400)
    else Skip
  }

  /** The trailer section, `number` lines and `used` bytes into it. */
  function Trailers(data: string, pos: nat, body: string, used: nat, number: nat): (r: Read)
    requires pos <= |data| && number <= MAX_TRAILER_LINES
    ensures r.Got? ==> r.bytes == body && pos <= r.at <= |data|
    ensures r.Fail? ==> r.status == 400 || r.status == 413
    decreases MAX_TRAILER_LINES - number
  {
    var line := Line(data, pos);
    if line.Fail? then Fail(400)
    else match Judge(line.bytes, used, number)
      case End => Got(body, line.at)
      case Deny(status) => Fail(status)
      case Skip => Trailers(data, line.at, body, used + |line.bytes|, number + 1)
  }

  /** What a chunk line announces, or the status it is refused with. */
  datatype Announced = Size(size: nat) | Refused(status: nat)

  function Announcement(line: string, have: nat, framing: nat): (r: Announced)
    requires |line| >= 2 && have <= MAX_BODY
    ensures r.Size? ==> have + r.size <= MAX_BODY
    ensures r.Refused? ==> r.status == 400 || r.status == 413
  {
    var t := line[..|line| - 2];
    var k := Cut(t, ';');
    if framing + |line| + 2 > MAX_CHUNK_FRAMING then Refused(413)
    else if !IsSize(t[..k]) then Refused(400)
    else if !IsExtension(After(t, k)) then Refused(400)
    else if HexVal(t[..k]) > MAX_BODY - have then Refused(413)
    else Size(HexVal(t[..k]))
  }

  /** `_read_chunked` after `n` chunks with contents `body` and `framing` bytes of framing. */
  function Chunks(data: string, pos: nat, body: string, framing: nat, n: nat): (r: Read)
    requires pos <= |data| && |body| <= MAX_BODY && n <= MAX_CHUNKS
    ensures r.Got? ==> body <= r.bytes && |r.bytes| <= MAX_BODY && pos <= r.at <= |data|
    ensures r.Fail? ==> r.status == 400 || r.status == 413
    decreases MAX_CHUNKS - n
  {
    if n == MAX_CHUNKS then Fail(413)
    else
      var line := Line(data, pos);
      if line.Fail? then Fail(400)
      else
        var a := Announcement(line.bytes, |body|, framing);
        if a.Refused? then Fail(a.status)
        else if a.size == 0 then Trailers(data, line.at, body, 0, 0)
        else
          var content := Exact(data, line.at, a.size);
          if content.Fail? then Fail(400)
          else
            var end := Exact(data, content.at, 2);
            if end.Fail? || end.bytes != CRLF then Fail(400)
            else Chunks(data, end.at, body + content.bytes, framing + |line.bytes| + 2, n + 1)
  }

  // ---------- framing by headers ----------

  /** Whitespace of a Latin-1 header value. */
  predicate IsBlank(c: char) {
    '\t' <= c <= '\r' || 28 <= c as int <= 32 || c as int == 0x85 || c as int == 0xA0
  }

  function Strip(t: string): string
    decreases |t|
  {
    if t != "" && IsBlank(t[0]) then Strip(t[1..])
    else if t != "" && IsBlank(t[|t| - 1]) then Strip(t[..|t| - 1])
    else t
  }

  /** `_read_body`. */
  function Body(lengths: seq<string>, transfers: seq<string>, data: string, pos: nat): (r: Read)
    requires pos <= |data|
    ensures r.Got? ==> |r.bytes| <= MAX_BODY && pos <= r.at <= |data|
    ensures r.Fail? ==> r.status == 400 || r.status == 413
  {
    if |lengths| > 1 || |transfers| > 1 || (lengths != [] && transfers != []) then Fail(400)
    else if transfers != [] then
      if Upper(Strip(transfers[0])) != "CHUNKED" then Fail(400) else Chunks(data, pos, "", 0, 0)
    else if lengths == [] then Got("", pos)
    else
      var length := Strip(lengths[0]);
      if length == "" || !AllDigits(length) then Fail(400)
      else if |length| > 20 || Val(length) > MAX_BODY then Fail(413)
      else Exact(data, pos, Val(length))
  }

  // ---------- reading from a connection ----------

  predicate NoFeed(data: string, i: nat, j: nat): (v: bool)
    ensures j <= i ==> v
  {
    forall k :: i <= k < j && k < |data| ==> data[k] != '\n'
  }

  predicate Ended(value: string) { |value| >= 2 && value[|value| - 2..] == CRLF }

  /** What the byte at `at` decides about the line that starts at `pos`. */
  lemma LineStep(data: string, pos: nat, at: nat)
    requires pos <= at < |data| && NoFeed(data, pos, at)
    ensures at + 1 - pos > MAX_CHUNK_LINE ==> Line(data, pos) == Fail(400)
    ensures at + 1 - pos <= MAX_CHUNK_LINE ==>
              if Ended(data[pos..at + 1]) then Line(data, pos) == Got(data[pos..at + 1], at + 1)
              else if data[at] == '\n' then Line(data, pos) == Fail(400)
              else NoFeed(data, pos, at + 1)
  {
    var value := data[pos..at + 1];
    if data[at] == '\n' { RunEndIs(data, pos, c => c != '\n', at); }
    if |value| >= 2 { assert value[|value| - 2..] == [data[at - 1], data[at]]; }
  }

  lemma LineStops(data: string, pos: nat, e: nat)
    requires pos <= e <= |data| && NoFeed(data, pos, e) && (e == |data| || e - pos > MAX_CHUNK_LINE)
    ensures Line(data, pos) == Fail(400)
  {}

  /** A connection. `plan(k)` bounds what the `k`-th read returns; 0 means that the deadline has passed by then. */
  class Connection {
    const data: string
    const plan: nat -> nat
    var pos: nat
    var count: nat
    var late: bool

    ghost predicate Valid(): (v: bool)
      reads this
      ensures v ==> pos <= |data|
    {
      pos <= |data| && (late <==> exists k: nat :: k < count && plan(k) == 0)
    }

    constructor (data: string, plan: nat -> nat)
      ensures Valid() && this.data == data && this.plan == plan && pos == 0 && !late
    {
      this.data, this.plan, pos, count, late := data, plan, 0, 0, false;
    }

    /** `_read_piece`. */
    method ReadPiece(maximum: nat) returns (r: Read)
      requires Valid() && !late && maximum > 0
      modifies this
      ensures Valid() && old(pos) <= pos
      ensures late ==> r == Fail(400)
      ensures !late ==> if old(pos) == |data| then r == Fail(400)
                        else 0 < pos - old(pos) <= maximum && r == Got(data[old(pos)..pos], pos)
    {
      var offered := plan(count);
      count := count + 1;
      if offered == 0 {
        late := true;
        return Fail(400);
      }
      var end := if offered < maximum then pos + offered else pos + maximum;
      end := if end < |data| then end else |data|;
      if end == pos { return Fail(400); }
      r := Got(data[pos..end], end);
      pos := end;
    }

    /** `_read_exact`: however the bytes arrive, exactly `length` of them are taken. */
    method ReadExact(length: nat) returns (r: Read)
      requires Valid() && !late
      modifies this
      ensures Valid() && old(pos) <= pos
      ensures r == if late then Fail(400) else Exact(data, old(pos), length)
      ensures r.Got? ==> pos == r.at
    {
      var value := "";
      while |value| < length
        invariant Valid() && !late && pos == old(pos) + |value| && |value| <= length
        invariant value == data[old(pos)..pos]
      {
        var want := length - |value|;
        var piece := ReadPiece(if want < PIECE then want else PIECE);
        if piece.Fail? { return Fail(400); }
        value := value + piece.bytes;
      }
      return Got(value, pos);
    }

    method ReadChunkLine() returns (r: Read)
      requires Valid() && !late
      modifies this
      ensures Valid() && old(pos) <= pos
      ensures r == if late then Fail(400) else Line(data, old(pos))
      ensures r.Got? ==> pos == r.at
    {
      hide Valid, Line, NoFeed, Ended;
      var value := "";
      while |value| <= MAX_CHUNK_LINE
        invariant Valid() && !late && pos == old(pos) + |value|
        invariant value == data[old(pos)..pos] && NoFeed(data, old(pos), pos)
        decreases MAX_CHUNK_LINE + 1 - |value|
      {
        ghost var at := pos;
        var piece := ReadPiece(1);
        if piece.Fail? {
          if !late { LineStops(data, old(pos), at); }
          return Fail(400);
        }
        LineStep(data, old(pos), at);
        value := value + piece.bytes;
        assert value == data[old(pos)..at + 1];
        if |value| > MAX_CHUNK_LINE { return Fail(400); }
        if Ended(value) { return Got(value, pos); }
        if value[|value| - 1] == '\n' { return Fail(400); }
      }
      LineStops(data, old(pos), pos);
      return Fail(400);
    }

    /** The trailer loop of `_read_chunked`. */
    method ReadTrailers(body: string) returns (r: Read)
      requires Valid() && !late
      modifies this
      ensures Valid() && old(pos) <= pos
      ensures r == if late then Fail(400) else Trailers(data, old(pos), body, 0, 0)
      ensures r.Got? ==> pos == r.at
    {
      hide Valid, Line, Judge;
      var used: nat, number: nat := 0, 0;
      while number <= MAX_TRAILER_LINES
        invariant Valid() && !late && old(pos) <= pos && number <= MAX_TRAILER_LINES
        invariant Trailers(data, old(pos), body, 0, 0) == Trailers(data, pos, body, used, number)
        decreases MAX_TRAILER_LINES + 1 - number
      {
        var trailer := ReadChunkLine();
        if trailer.Fail? { return Fail(400); }
        var verdict := Judge(trailer.bytes, used, number);
        if verdict.End? { return Got(body, pos); }
        if verdict.Deny? { return Fail(verdict.status); }
        used := used + |trailer.bytes|;
        number := number + 1;
      }
      assert false;
    }

    /** `_read_chunked`: the result does not depend on how the reads were cut. */
    method ReadChunked() returns (r: Read)
      requires Valid() && !late
      modifies this
      ensures Valid() && old(pos) <= pos
      ensures r == if late then Fail(400) else Chunks(data, old(pos), "", 0, 0)
      ensures r.Got? ==> pos == r.at
    {
      hide Valid, Line, Trailers, Announcement, Exact;
      var body := "";
      var framing: nat := 0;
      for n := 0 to MAX_CHUNKS
        invariant Valid() && !late && old(pos) <= pos && |body| <= MAX_BODY
        invariant Chunks(data, old(pos), "", 0, 0) == Chunks(data, pos, body, framing, n)
      {
        var line := ReadChunkLine();
        if line.Fail? { return Fail(400); }
        var a := Announcement(line.bytes, |body|, framing);
        if a.Refused? { return Fail(a.status); }
        framing := framing + |line.bytes| + 2;
        if a.size == 0 {
          r := ReadTrailers(body);
          return;
        }
        var content := ReadExact(a.size);
        if content.Fail? { return Fail(400); }
        var end := ReadExact(2);
        if end.Fail? || end.bytes != CRLF { return Fail(400); }
        body := body + content.bytes;
      }
      return Fail(413);
    }

    /** `_read_body`. */
    method ReadBody(lengths: seq<string>, transfers: seq<string>) returns (r: Read)
      requires Valid() && !late
      modifies this
      ensures Valid() && old(pos) <= pos
      ensures r == if late then Fail(400) else Body(lengths, transfers, data, old(pos))
      ensures r.Got? ==> pos == r.at && |r.bytes| <= MAX_BODY
    {
      if |lengths| > 1 || |transfers| > 1 || (lengths != [] && transfers != []) { return Fail(400); }
      if transfers != [] {
        if Upper(Strip(transfers[0])) != "CHUNKED" { return Fail(400); }
        r := ReadChunked();
        return;
      }
      if lengths == [] { return Got("", pos); }
      var length := Strip(lengths[0]);
      if length == "" || !AllDigits(length) { return Fail(400); }
      if |length| > 20 || Val(length) > MAX_BODY { return Fail(413); }
      r := ReadExact(Val(length));
    }
  }
}
