/** The reader accepts exactly the chunked messages within its limits, and returns their contents. */
module ChunkedWire {
  import opened Bytes
  import opened Chunked

  // ---------- messages ----------

  /** A chunk with the hexadecimal text of its size and its extension, if any, from the semicolon on. */
  datatype Chunk = Chunk(size: string, tail: string, content: string)

  datatype Field = Field(name: string, value: string)

  datatype Message = Message(chunks: seq<Chunk>, last: Chunk, fields: seq<Field>)

  function Head(c: Chunk): string { c.size + c.tail + CRLF }

  function ChunkText(c: Chunk): string { Head(c) + (c.content + CRLF) }

  function ChunksText(cs: seq<Chunk>): string {
    if cs == [] then "" else ChunkText(cs[0]) + ChunksText(cs[1..])
  }

  function Contents(cs: seq<Chunk>): string {
    if cs == [] then "" else cs[0].content + Contents(cs[1..])
  }

  function FieldLine(f: Field): string { f.name + ":" + f.value }

  function FieldsText(fs: seq<Field>): string {
    if fs == [] then CRLF else FieldLine(fs[0]) + CRLF + FieldsText(fs[1..])
  }

  function Text(m: Message): string { ChunksText(m.chunks) + (Head(m.last) + FieldsText(m.fields)) }

  /** Chunk lines, and the two bytes charged with each. */
  function Framing(cs: seq<Chunk>): nat {
    if cs == [] then 0 else |Head(cs[0])| + 2 + Framing(cs[1..])
  }

  predicate Legal(c: Chunk) {
    && IsSize(c.size) && HexVal(c.size) == |c.content|
    && (c.tail == "" || (c.tail[0] == ';' && IsExtension(c.tail[1..])))
    && |Head(c)| <= MAX_CHUNK_LINE
  }

  predicate LegalField(f: Field) {
    IsTrailerName(f.name) && IsTrailerValue(f.value) && |FieldLine(f)| + 2 <= MAX_CHUNK_LINE
  }

  predicate LegalMessage(m: Message) {
    && (forall c :: c in m.chunks ==> Legal(c) && c.content != "")
    && Legal(m.last) && m.last.content == ""
    && (forall f :: f in m.fields ==> LegalField(f))
  }

  predicate FieldsFit(fs: seq<Field>, used: nat, number: nat) {
    number + |fs| <= MAX_TRAILER_LINES && used + |FieldsText(fs)| <= MAX_TRAILER_BYTES
  }

  /** The message stays within every limit after `n` chunks with `have` bytes of content. */
  predicate Fits(m: Message, have: nat, framing: nat, n: nat) {
    && n + |m.chunks| < 65536 && have + |Contents(m.chunks)| <= 8388608
    && framing + Framing(m.chunks) + |Head(m.last)| + 2 <= 65536
    && FieldsFit(m.fields, 0, 0)
  }

  // ---------- lines ----------

  lemma AtJoin(s: string, i: nat, x: string, y: string)
    requires At(s, i, x) && At(s, i + |x|, y)
    ensures At(s, i, x + y)
  {
    SliceSplit(s, i, i + |x|, i + |x| + |y|);
  }

  predicate OneLine(t: string) { forall i :: 0 <= i < |t| ==> t[i] != '\n' }

  lemma LineRead(data: string, pos: nat, t: string)
    requires pos <= |data| && OneLine(t) && |t| + 2 <= MAX_CHUNK_LINE && At(data, pos, t + CRLF)
    ensures Line(data, pos) == Got(t + CRLF, pos + |t| + 2)
  {
    AtInside(data, pos, t + CRLF);
    var line := data[pos..pos + |t| + 2];
    forall k | pos <= k < pos + |t| ensures data[k] != '\n' { assert line[k - pos] == t[k - pos]; }
    var e := pos + |t| + 1;
    assert line[|t|] == '\r' && line[|t| + 1] == '\n';
    assert NoFeed(data, pos, e);
    LineStep(data, pos, e);
    assert line[|line| - 2..] == CRLF;
  }

  lemma LineFound(data: string, pos: nat)
    requires pos <= |data| && Line(data, pos).Got?
    ensures var l := Line(data, pos).bytes; l == l[..|l| - 2] + CRLF && OneLine(l[..|l| - 2]) && At(data, pos, l)
  {
    var l := Line(data, pos).bytes;
    assert l[|l| - 2] == '\r' && l[|l| - 1] == '\n';
  }

  // ---------- chunk lines ----------

  lemma HeadRead(c: Chunk, have: nat, framing: nat)
    requires Legal(c) && have + |c.content| <= MAX_BODY && framing + |Head(c)| + 2 <= MAX_CHUNK_FRAMING
    ensures Announcement(Head(c), have, framing) == Size(|c.content|) && OneLine(c.size + c.tail)
  {
    var t := c.size + c.tail;
    assert Head(c)[..|Head(c)| - 2] == t;
    CutAt(c.size, ';', if c.tail == "" then "" else c.tail[1..]);
    if c.tail != "" { assert t == c.size + [';'] + c.tail[1..] && After(t, |c.size|) == c.tail[1..]; }
    assert t[..|c.size|] == c.size;
    forall i | 0 <= i < |t| ensures t[i] != '\n' {
      if i > |c.size| { assert t[i] == c.tail[1..][i - |c.size| - 1]; }
    }
  }

  function HeadOf(t: string, content: string): Chunk {
    var k := Cut(t, ';');
    Chunk(t[..k], t[k..], content)
  }

  lemma HeadFound(t: string, content: string, have: nat, framing: nat)
    requires have <= MAX_BODY && |t| + 2 <= MAX_CHUNK_LINE
    requires Announcement(t + CRLF, have, framing) == Size(|content|)
    ensures var c := HeadOf(t, content);
            && Legal(c) && Head(c) == t + CRLF
            && have + |content| <= MAX_BODY && framing + |Head(c)| + 2 <= MAX_CHUNK_FRAMING
  {
    var k := Cut(t, ';');
    assert (t + CRLF)[..|t + CRLF| - 2] == t && t[..k] + t[k..] == t;
    if k < |t| { assert t[k..][1..] == t[k + 1..]; }
  }

  // ---------- trailers ----------

  lemma FieldIsTrailer(f: Field)
    requires LegalField(f)
    ensures IsTrailer(FieldLine(f)) && OneLine(FieldLine(f))
  {
    var t := FieldLine(f);
    CutAt(f.name, ':', f.value);
    assert t == f.name + [':'] + f.value && t[..|f.name|] == f.name && t[|f.name| + 1..] == f.value;
  }

  function FieldOf(t: string): Field
    requires IsTrailer(t)
  {
    Field(t[..Cut(t, ':')], t[Cut(t, ':') + 1..])
  }

  lemma {:induction false} FieldsRead(data: string, pos: nat, body: string, used: nat, number: nat, fs: seq<Field>)
    requires pos <= |data| && At(data, pos, FieldsText(fs)) && FieldsFit(fs, used, number)
    requires forall f :: f in fs ==> LegalField(f)
    ensures Trailers(data, pos, body, used, number) == Got(body, pos + |FieldsText(fs)|)
    decreases |fs|
  {
    hide Line, IsTrailer, At, LegalField;
    if fs == [] {
      assert "" + CRLF == CRLF;
      LineRead(data, pos, "");
    } else {
      var t := FieldLine(fs[0]);
      FieldIsTrailer(fs[0]);
      assert LegalField(fs[0]) ==> |t| + 2 <= MAX_CHUNK_LINE by { LineLimit(fs[0]); }
      AtSplit(data, pos, t + CRLF, FieldsText(fs[1..]));
      AtInside(data, pos, t + CRLF);
      LineRead(data, pos, t);
      assert (t + CRLF)[..|t|] == t && t + CRLF != CRLF;
      FieldsRead(data, pos + |t| + 2, body, used + |t| + 2, number + 1, fs[1..]);
    }
  }

  lemma LineLimit(f: Field)
    ensures LegalField(f) ==> |FieldLine(f)| + 2 <= MAX_CHUNK_LINE
  {}

  ghost predicate FieldsStand(data: string, pos: nat, e: nat, used: nat, number: nat, fs: seq<Field>) {
    && (forall f :: f in fs ==> LegalField(f)) && FieldsFit(fs, used, number)
    && At(data, pos, FieldsText(fs)) && e == pos + |FieldsText(fs)|
  }

  lemma NoFieldStands(data: string, pos: nat, used: nat, number: nat)
    requires pos <= |data| && Line(data, pos).Got? && Line(data, pos).bytes == CRLF
    requires number <= MAX_TRAILER_LINES && used + 2 <= MAX_TRAILER_BYTES
    ensures FieldsStand(data, pos, pos + 2, used, number, [])
  {
    LineFound(data, pos);
  }

  lemma FieldStands(data: string, pos: nat, e: nat, used: nat, number: nat, t: string, fs: seq<Field>)
    requires pos <= |data| && Line(data, pos).Got? && TextOf(Line(data, pos).bytes) == t && IsTrailer(t)
    requires FieldsStand(data, pos + |t| + 2, e, used + |t| + 2, number + 1, fs)
    ensures FieldsStand(data, pos, e, used, number, [FieldOf(t)] + fs)
  {
    LineFound(data, pos);
    hide At, Line, IsTrailerName, IsTrailerValue;
    var f := FieldOf(t);
    var all := [f] + fs;
    assert t[..Cut(t, ':')] + ":" + t[Cut(t, ':') + 1..] == t;
    assert FieldLine(f) == t && all[1..] == fs && all[0] == f;
    assert FieldsText(all) == t + CRLF + FieldsText(fs);
    AtJoin(data, pos, t + CRLF, FieldsText(fs));
  }

  /** A line without its ending. */
  function TextOf(line: string): (t: string)
    ensures |line| >= 2 ==> |t| + 2 == |line|
  {
    if |line| >= 2 then line[..|line| - 2] else ""
  }

  /** What one line of an accepted trailer section is. */
  lemma TrailersStep(data: string, pos: nat, body: string, used: nat, number: nat)
    requires pos <= |data| && number <= MAX_TRAILER_LINES && Trailers(data, pos, body, used, number).Got?
    ensures var line, r := Line(data, pos), Trailers(data, pos, body, used, number);
            && line.Got? && used + |line.bytes| <= MAX_TRAILER_BYTES
            && if line.bytes == CRLF then r.at == line.at
               else number < MAX_TRAILER_LINES && IsTrailer(TextOf(line.bytes))
                    && r == Trailers(data, line.at, body, used + |line.bytes|, number + 1)
  {
    hide Line, IsTrailer;
  }

  lemma {:induction false} FieldsFound(data: string, pos: nat, body: string, used: nat, number: nat)
    returns (fs: seq<Field>)
    requires pos <= |data| && number <= MAX_TRAILER_LINES && Trailers(data, pos, body, used, number).Got?
    ensures FieldsStand(data, pos, Trailers(data, pos, body, used, number).at, used, number, fs)
    decreases MAX_TRAILER_LINES - number
  {
    hide Line, IsTrailer, FieldsStand, FieldOf, TextOf;
    TrailersStep(data, pos, body, used, number);
    hide Trailers;
    var line := Line(data, pos);
    if line.bytes == CRLF {
      NoFieldStands(data, pos, used, number);
      fs := [];
    } else {
      fs := FieldsFound(data, line.at, body, used + |line.bytes|, number + 1);
      var end := Trailers(data, pos, body, used, number).at;
      FieldStands(data, pos, end, used, number, TextOf(line.bytes), fs);
      fs := [FieldOf(TextOf(line.bytes))] + fs;
    }
  }

  // ---------- whole messages ----------

  function Rest(m: Message): Message
    requires m.chunks != []
  {
    m.(chunks := m.chunks[1..])
  }

  lemma TextSplit(m: Message)
    requires m.chunks != []
    ensures Text(m) == Head(m.chunks[0]) + (m.chunks[0].content + (CRLF + Text(Rest(m))))
  {
    hide Head;
  }

  lemma RestFits(m: Message, have: nat, framing: nat, n: nat)
    requires m.chunks != [] && LegalMessage(m) && Fits(m, have, framing, n)
    ensures var c := m.chunks[0];
            && Legal(c) && c.content != "" && n < MAX_CHUNKS
            && have + |c.content| <= MAX_BODY && framing + |Head(c)| + 2 <= MAX_CHUNK_FRAMING
            && LegalMessage(Rest(m)) && Fits(Rest(m), have + |c.content|, framing + |Head(c)| + 2, n + 1)
  {
    hide Legal, LegalField, FieldsFit, Head;
  }

  /** One chunk is read. */
  lemma ReadsChunk(data: string, pos: nat, body: string, framing: nat, n: nat, c: Chunk, rest: string)
    requires pos <= |data| && |body| <= MAX_BODY && n < MAX_CHUNKS && Legal(c) && c.content != ""
    requires |body| + |c.content| <= MAX_BODY && framing + |Head(c)| + 2 <= MAX_CHUNK_FRAMING
    requires At(data, pos, Head(c) + (c.content + (CRLF + rest)))
    ensures var q := pos + |Head(c)| + |c.content| + 2;
            && q <= |data| && At(data, q, rest)
            && Chunks(data, pos, body, framing, n) == Chunks(data, q, body + c.content, framing + |Head(c)| + 2, n + 1)
  {
    hide Line, At, Announcement, Legal, Trailers, Head, Exact, Chunks;
    AtSplit(data, pos, Head(c), c.content + (CRLF + rest));
    AtSplit(data, pos + |Head(c)|, c.content, CRLF + rest);
    AtSplit(data, pos + |Head(c)| + |c.content|, CRLF, rest);
    AtInside(data, pos + |Head(c)| + |c.content| + 2, rest);
    HeadLine(data, pos, c, |body|, framing);
    AtExact(data, pos + |Head(c)|, c.content);
    AtExact(data, pos + |Head(c)| + |c.content|, CRLF);
    ChunkStep(data, pos, body, framing, n, Head(c), c.content);
  }

  /** A turn of the loop in which everything is read. */
  lemma ChunkStep(data: string, pos: nat, body: string, framing: nat, n: nat, head: string, content: string)
    requires pos <= |data| && |body| + |content| <= MAX_BODY && n < MAX_CHUNKS && content != ""
    requires Line(data, pos) == Got(head, pos + |head|) && Announcement(head, |body|, framing) == Size(|content|)
    requires pos + |head| + |content| + 2 <= |data|
    requires Exact(data, pos + |head|, |content|) == Got(content, pos + |head| + |content|)
    requires Exact(data, pos + |head| + |content|, 2) == Got(CRLF, pos + |head| + |content| + 2)
    ensures Chunks(data, pos, body, framing, n)
         == Chunks(data, pos + |head| + |content| + 2, body + content, framing + |head| + 2, n + 1)
  {
    hide Line, Announcement, Exact, Trailers;
  }

  lemma ReadsLast(data: string, pos: nat, body: string, framing: nat, n: nat, last: Chunk, fs: seq<Field>)
    requires pos <= |data| && |body| <= MAX_BODY && n < MAX_CHUNKS && Legal(last) && last.content == ""
    requires framing + |Head(last)| + 2 <= MAX_CHUNK_FRAMING && FieldsFit(fs, 0, 0)
    requires (forall f :: f in fs ==> LegalField(f)) && At(data, pos, Head(last) + FieldsText(fs))
    ensures Chunks(data, pos, body, framing, n) == Got(body, pos + |Head(last)| + |FieldsText(fs)|)
  {
    hide Line, At, Announcement, Legal, LegalField, Trailers, FieldsText, FieldsFit, Head;
    AtSplit(data, pos, Head(last), FieldsText(fs));
    AtInside(data, pos, Head(last));
    HeadLine(data, pos, last, |body|, framing);
    FieldsRead(data, pos + |Head(last)|, body, 0, 0, fs);
  }

  /** A message within the limits is read to its last byte and no further, and yields its contents. */
  lemma {:induction false} Reads(data: string, pos: nat, body: string, framing: nat, n: nat, m: Message)
    requires pos <= |data| && |body| <= MAX_BODY && n <= MAX_CHUNKS
    requires LegalMessage(m) && Fits(m, |body|, framing, n) && At(data, pos, Text(m))
    ensures Chunks(data, pos, body, framing, n) == Got(body + Contents(m.chunks), pos + |Text(m)|)
    decreases |m.chunks|
  {
    hide At, Chunks, Legal, LegalField, FieldsText, Head;
    if m.chunks == [] {
      assert Text(m) == Head(m.last) + FieldsText(m.fields);
      ReadsLast(data, pos, body, framing, n, m.last, m.fields);
      assert body + "" == body;
    } else {
      hide LegalMessage, Fits;
      var c := m.chunks[0];
      TextSplit(m);
      RestFits(m, |body|, framing, n);
      ReadsChunk(data, pos, body, framing, n, c, Text(Rest(m)));
      Reads(data, pos + |Head(c)| + |c.content| + 2, body + c.content, framing + |Head(c)| + 2, n + 1, Rest(m));
      assert body + (c.content + Contents(m.chunks[1..])) == body + c.content + Contents(m.chunks[1..]);
    }
  }

  lemma HeadLine(data: string, pos: nat, c: Chunk, have: nat, framing: nat)
    requires pos <= |data| && Legal(c) && At(data, pos, Head(c))
    requires have + |c.content| <= MAX_BODY && framing + |Head(c)| + 2 <= MAX_CHUNK_FRAMING
    ensures Line(data, pos) == Got(Head(c), pos + |Head(c)|)
    ensures Announcement(Head(c), have, framing) == Size(|c.content|)
  {
    hide Line, At, Announcement;
    HeadRead(c, have, framing);
    LineRead(data, pos, c.size + c.tail);
  }

  lemma AtExact(data: string, pos: nat, t: string)
    requires At(data, pos, t)
    ensures Exact(data, pos, |t|) == Got(t, pos + |t|)
  {}

  ghost predicate Stands(data: string, pos: nat, e: nat, out: string, body: string, framing: nat, n: nat, m: Message) {
    && LegalMessage(m) && Fits(m, |body|, framing, n)
    && At(data, pos, Text(m)) && e == pos + |Text(m)| && out == body + Contents(m.chunks)
  }

  lemma LastStands(data: string, pos: nat, q: nat, e: nat, body: string, framing: nat, n: nat, last: Chunk,
          fs: seq<Field>)
    requires Legal(last) && last.content == "" && At(data, pos, Head(last)) && q == pos + |Head(last)|
    requires framing + |Head(last)| + 2 <= MAX_CHUNK_FRAMING && n < MAX_CHUNKS && |body| <= MAX_BODY
    requires FieldsStand(data, q, e, 0, 0, fs)
    ensures Stands(data, pos, e, body, body, framing, n, Message([], last, fs))
  {
    hide At, Legal, LegalField, Head, FieldsText;
    var m := Message([], last, fs);
    AtJoin(data, pos, Head(last), FieldsText(fs));
    assert Text(m) == Head(last) + FieldsText(fs);
    assert body + Contents(m.chunks) == body;
  }

  lemma ChunkStands(data: string, pos: nat, e: nat, out: string, body: string, framing: nat, n: nat, c: Chunk,
          m: Message)
    requires Legal(c) && c.content != "" && At(data, pos, Head(c))
    requires At(data, pos + |Head(c)|, c.content) && At(data, pos + |Head(c)| + |c.content|, CRLF)
    requires Stands(data, pos + |Head(c)| + |c.content| + 2, e, out, body + c.content, framing + |Head(c)| + 2,
                    n + 1, m)
    ensures Stands(data, pos, e, out, body, framing, n, m.(chunks := [c] + m.chunks))
  {
    hide At, Legal, LegalField, Head, FieldsText;
    var all := m.(chunks := [c] + m.chunks);
    assert all.chunks[1..] == m.chunks && Rest(all) == m;
    AtJoin(data, pos + |Head(c)| + |c.content|, CRLF, Text(m));
    AtJoin(data, pos + |Head(c)|, c.content, CRLF + Text(m));
    AtJoin(data, pos, Head(c), c.content + (CRLF + Text(m)));
    TextSplit(all);
    assert body + Contents(all.chunks) == body + c.content + Contents(m.chunks);
  }

  /** Whatever is accepted is a message within the limits. */
  lemma {:induction false} Found(data: string, pos: nat, body: string, framing: nat, n: nat) returns (m: Message)
    requires pos <= |data| && |body| <= MAX_BODY && n <= MAX_CHUNKS && Chunks(data, pos, body, framing, n).Got?
    ensures var r := Chunks(data, pos, body, framing, n); Stands(data, pos, r.at, r.bytes, body, framing, n, m)
    decreases MAX_CHUNKS - n
  {
    hide Line, At, Announcement, Legal, LegalField, Trailers, FieldsText, Head, Stands, FieldsStand, Exact;
    LineFound(data, pos);
    var line := Line(data, pos);
    var t := line.bytes[..|line.bytes| - 2];
    var r := Chunks(data, pos, body, framing, n);
    var a := Announcement(line.bytes, |body|, framing);
    if a.size == 0 {
      HeadFound(t, "", |body|, framing);
      var fs := FieldsFound(data, line.at, body, 0, 0);
      LastStands(data, pos, line.at, r.at, body, framing, n, HeadOf(t, ""), fs);
      m := Message([], HeadOf(t, ""), fs);
    } else {
      var content := Exact(data, line.at, a.size).bytes;
      HeadFound(t, content, |body|, framing);
      ExactAt(data, line.at, a.size);
      ExactAt(data, line.at + a.size, 2);
      m := Found(data, line.at + a.size + 2, body + content, framing + |line.bytes| + 2, n + 1);
      ChunkStands(data, pos, r.at, r.bytes, body, framing, n, HeadOf(t, content), m);
      m := m.(chunks := [HeadOf(t, content)] + m.chunks);
    }
  }

  lemma ExactAt(data: string, pos: nat, length: nat)
    requires Exact(data, pos, length).Got?
    ensures var r := Exact(data, pos, length); At(data, pos, r.bytes) && |r.bytes| == length && r.at == pos + length
  {}

  /** The reader succeeds exactly on the messages within its limits, whatever follows them on the connection:
      it returns the contents and stops right after the message. */
  lemma AcceptsExactlyMessages(data: string, pos: nat, out: string, e: nat)
    requires pos <= |data|
    ensures Chunks(data, pos, "", 0, 0) == Got(out, e)
            <==> exists m :: LegalMessage(m) && Fits(m, 0, 0, 0) && At(data, pos, Text(m))
                             && e == pos + |Text(m)| && out == Contents(m.chunks)
  {
    hide Line, At, Announcement, LegalMessage, Fits, Chunks, Text, Contents;
    if Chunks(data, pos, "", 0, 0) == Got(out, e) {
      var m := Found(data, pos, "", 0, 0);
      assert "" + Contents(m.chunks) == Contents(m.chunks);
    }
    forall m | LegalMessage(m) && Fits(m, 0, 0, 0) && At(data, pos, Text(m))
      ensures Chunks(data, pos, "", 0, 0) == Got(Contents(m.chunks), pos + |Text(m)|)
    {
      Reads(data, pos, "", 0, 0, m);
      assert "" + Contents(m.chunks) == Contents(m.chunks);
    }
  }

  /** Two messages that both start at one place are the same length and carry the same body. */
  lemma NoSecondReading(data: string, pos: nat, m: Message, k: Message)
    requires LegalMessage(m) && LegalMessage(k) && Fits(m, 0, 0, 0) && Fits(k, 0, 0, 0)
    requires pos <= |data| && At(data, pos, Text(m)) && At(data, pos, Text(k))
    ensures |Text(m)| == |Text(k)| && Contents(m.chunks) == Contents(k.chunks)
  {
    hide *;
    Reads(data, pos, "", 0, 0, m);
    Reads(data, pos, "", 0, 0, k);
    assert "" + Contents(m.chunks) == Contents(m.chunks);
    assert "" + Contents(k.chunks) == Contents(k.chunks);
  }
}
