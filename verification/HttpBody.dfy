/** Bodies of HTTP/1.1 responses: chunked, of known length, or up to the end of the connection. */
module HttpBody {
  import opened Common
  import opened HttpChunks

  // ---------------------------------------------------------------- the grammar

  datatype Chunk = Chunk(digits: bytes, ext: bytes, data: bytes)

  /** A chunked body: chunks, the zero chunk, trailer lines. */
  datatype Message = Message(chunks: seq<Chunk>, zeros: bytes, ext: bytes, trailers: seq<bytes>)

  predicate SizeLineOk(digits: bytes, ext: bytes) {
    digits != [] && AllHex(digits) && ExtensionOk(ext) && |digits| + |ext| + 2 < LINE_SIZE
  }

  predicate ChunkOk(c: Chunk) {
    SizeLineOk(c.digits, c.ext) && HexValue(c.digits) == |c.data| && 0 < |c.data| <= HTTP_MAX_BODY
  }

  predicate TrailerOk(t: bytes) { t != [] && LineText(t) && |t| + 2 < LINE_SIZE }

  function Body(chunks: seq<Chunk>): bytes {
    if chunks == [] then [] else chunks[0].data + Body(chunks[1..])
  }

  function TrailerBytes(trailers: seq<bytes>): nat {
    if trailers == [] then 0 else |trailers[0]| + 2 + TrailerBytes(trailers[1..])
  }

  predicate TrailersOk(trailers: seq<bytes>) {
    trailers == [] || (TrailerOk(trailers[0]) && TrailersOk(trailers[1..]))
  }

  predicate ChunksOk(chunks: seq<Chunk>) {
    chunks == [] || (ChunkOk(chunks[0]) && ChunksOk(chunks[1..]))
  }

  /** Within the limits, `total` bytes of body having been read already. */
  predicate MessageOk(m: Message, total: nat) {
    && ChunksOk(m.chunks) && |Body(m.chunks)| + total <= HTTP_MAX_BODY
    && SizeLineOk(m.zeros, m.ext) && HexValue(m.zeros) == 0
    && TrailersOk(m.trailers) && |m.trailers| <= HTTP_MAX_HEADER_COUNT && TrailerBytes(m.trailers) <= HTTP_MAX_HEADER_BYTES
  }

  function WriteChunk(c: Chunk): bytes { c.digits + c.ext + CRLF + (c.data + CRLF) }

  function WriteChunks(chunks: seq<Chunk>): bytes {
    if chunks == [] then [] else WriteChunk(chunks[0]) + WriteChunks(chunks[1..])
  }

  function WriteTrailers(trailers: seq<bytes>): bytes {
    if trailers == [] then CRLF else trailers[0] + CRLF + WriteTrailers(trailers[1..])
  }

  function WriteMessage(m: Message): bytes {
    WriteChunks(m.chunks) + (m.zeros + m.ext + CRLF + WriteTrailers(m.trailers))
  }

  // ---------------------------------------------------------------- the decoder

  datatype Decoded = Decoded(body: bytes, rest: bytes)

  /** The trailer loop: what is left of the stream after it. */
  function ReadTrailers(s: bytes, count: nat, size: nat): (r: Option<bytes>)
    requires size <= HTTP_MAX_HEADER_BYTES
    decreases |s|
  {
    var l := StrictLine(s);
    if l.None? then None
    else if l.value.text == [] then Some(s[l.value.n..])
    else if count >= HTTP_MAX_HEADER_COUNT || l.value.n > HTTP_MAX_HEADER_BYTES - size then None
    else ReadTrailers(s[l.value.n..], count + 1, size + l.value.n)
  }

  /** The chunk loop, `total` bytes of body having been read already. */
  function ReadChunks(s: bytes, total: nat): (r: Option<Decoded>)
    requires total <= HTTP_MAX_BODY
    decreases |s|
  {
    var l := StrictLine(s);
    if l.None? then None else
      var size := ParseChunkSize(l.value.text);
      if size.None? then None else AfterSize(s[l.value.n..], size.value, total)
  }

  /** The stream after a size line. */
  function AfterSize(s: bytes, size: nat, total: nat): (r: Option<Decoded>)
    requires total <= HTTP_MAX_BODY
    decreases |s|
  {
    if size == 0 then
      var t := ReadTrailers(s, 0, 0);
      if t.None? then None else Some(Decoded([], t.value))
    else if size > HTTP_MAX_BODY - total then None
    else if |s| < size + 2 || s[size] != CR || s[size + 1] != LF then None
    else
      var d := ReadChunks(s[size + 2..], total + size);
      if d.None? then None else Some(Decoded(s[..size] + d.value.body, d.value.rest))
  }

  // ---------------------------------------------------------------- complete

  lemma {:induction false} TrailersRead(ts: seq<bytes>, rest: bytes, count: nat, size: nat)
    requires TrailersOk(ts) && count + |ts| <= HTTP_MAX_HEADER_COUNT && size + TrailerBytes(ts) <= HTTP_MAX_HEADER_BYTES
    ensures ReadTrailers(WriteTrailers(ts) + rest, count, size) == Some(rest)
    decreases |ts|
  {
    if ts == [] {
      StrictLineReads([], rest);
      assert [] + CRLF + rest == CRLF + rest;
    } else {
      var more := WriteTrailers(ts[1..]);
      StrictLineReads(ts[0], more + rest);
      assert WriteTrailers(ts) + rest == ts[0] + CRLF + (more + rest);
      TrailersRead(ts[1..], rest, count + 1, size + |ts[0]| + 2);
    }
  }

  lemma SizeLineReads(digits: bytes, ext: bytes, rest: bytes, total: nat)
    requires SizeLineOk(digits, ext) && HexValue(digits) <= SIZE_MAX && total <= HTTP_MAX_BODY
    ensures ReadChunks(digits + ext + CRLF + rest, total) == AfterSize(rest, HexValue(digits), total)
  {
    forall i | 0 <= i < |digits| ensures LineByte(digits[i]) { assert HexDigit(digits[i]) >= 0; }
    assert LineText(digits + ext);
    StrictLineReads(digits + ext, rest);
    ChunkSizeReads(digits, ext);
  }

  lemma ChunkReads(c: Chunk, more: bytes, total: nat)
    requires ChunkOk(c) && total + |c.data| <= HTTP_MAX_BODY
    ensures var d := ReadChunks(more, total + |c.data|);
            ReadChunks(WriteChunk(c) + more, total) == if d.None? then None else Some(Decoded(c.data + d.value.body, d.value.rest))
  {
    var s := c.data + CRLF + more;
    assert WriteChunk(c) + more == c.digits + c.ext + CRLF + s;
    SizeLineReads(c.digits, c.ext, s, total);
    assert s[..|c.data|] == c.data && s[|c.data|] == CR && s[|c.data| + 1] == LF && s[|c.data| + 2..] == more;
  }

  /** One more chunk in front. */
  function Front(c: Chunk, m: Message): Message { m.(chunks := [c] + m.chunks) }

  lemma FrontIs(c: Chunk, m: Message, rest: bytes, total: nat)
    ensures WriteMessage(Front(c, m)) + rest == WriteChunk(c) + (WriteMessage(m) + rest)
    ensures Body(Front(c, m).chunks) == c.data + Body(m.chunks)
    ensures MessageOk(Front(c, m), total) <==> ChunkOk(c) && MessageOk(m, total + |c.data|)
  {
    var f := Front(c, m);
    assert f.chunks[1..] == m.chunks && f.chunks[0] == c;
    Regroup(WriteChunk(c), WriteChunks(m.chunks), m.zeros + m.ext + CRLF + WriteTrailers(m.trailers), rest);
  }

  /** Any message within the limits decodes to its data, and exactly its own bytes are consumed. */
  lemma {:induction false} ChunkedComplete(m: Message, rest: bytes, total: nat)
    requires MessageOk(m, total)
    ensures ReadChunks(WriteMessage(m) + rest, total) == Some(Decoded(Body(m.chunks), rest))
    decreases |m.chunks|
  {
    if m.chunks == [] {
      EmptyReads(m, rest, total);
    } else {
      var c, m' := m.chunks[0], m.(chunks := m.chunks[1..]);
      assert m == Front(c, m') by { assert [c] + m'.chunks == m.chunks; }
      FrontIs(c, m', rest, total);
      ChunkReads(c, WriteMessage(m') + rest, total);
      ChunkedComplete(m', rest, total + |c.data|);
    }
  }

  lemma EmptyReads(m: Message, rest: bytes, total: nat)
    requires MessageOk(m, total) && m.chunks == []
    ensures ReadChunks(WriteMessage(m) + rest, total) == Some(Decoded([], rest))
  {
    TrailersRead(m.trailers, rest, 0, 0);
    SizeLineReads(m.zeros, m.ext, WriteTrailers(m.trailers) + rest, total);
    LastThen(m.zeros, m.ext, m.trailers, rest);
    assert m == Message([], m.zeros, m.ext, m.trailers);
  }

  lemma Regroup(a: bytes, b: bytes, c: bytes, d: bytes)
    ensures a + b + c + d == a + (b + c + d)
    ensures a + b + c == a + (b + c)
  {
  }

  // ---------------------------------------------------------------- sound

  lemma {:induction false} TrailersMean(s: bytes, count: nat, size: nat) returns (ts: seq<bytes>)
    requires size <= HTTP_MAX_HEADER_BYTES && count <= HTTP_MAX_HEADER_COUNT && ReadTrailers(s, count, size).Some?
    ensures TrailersOk(ts) && count + |ts| <= HTTP_MAX_HEADER_COUNT && size + TrailerBytes(ts) <= HTTP_MAX_HEADER_BYTES
    ensures s == WriteTrailers(ts) + ReadTrailers(s, count, size).value
    decreases |s|
  {
    StrictLineMeans(s);
    var l := StrictLine(s).value;
    if l.text == [] {
      ts := [];
      assert s == CRLF + s[l.n..];
    } else {
      var more := TrailersMean(s[l.n..], count + 1, size + l.n);
      ts := [l.text] + more;
      assert ts[1..] == more;
      var rest := ReadTrailers(s, count, size).value;
      assert l.text + CRLF + (WriteTrailers(more) + rest) == l.text + CRLF + WriteTrailers(more) + rest;
    }
  }

  lemma SizeLineMeans(s: bytes) returns (digits: bytes, ext: bytes)
    requires StrictLine(s).Some? && ParseChunkSize(StrictLine(s).value.text).Some?
    ensures SizeLineOk(digits, ext) && HexValue(digits) == ParseChunkSize(StrictLine(s).value.text).value
    ensures s == digits + ext + CRLF + s[StrictLine(s).value.n..]
  {
    StrictLineMeans(s);
    var l := StrictLine(s).value;
    var k := ChunkSizeMeans(l.text);
    digits, ext := l.text[..k], l.text[k..];
    assert l.text == digits + ext;
  }

  /** Everything accepted is such a message, and the result is its data and what follows it. */
  lemma {:induction false} ChunkedSound(s: bytes, total: nat) returns (m: Message)
    requires total <= HTTP_MAX_BODY && ReadChunks(s, total).Some?
    ensures MessageOk(m, total)
    ensures var d := ReadChunks(s, total).value; d.body == Body(m.chunks) && s == WriteMessage(m) + d.rest
    decreases |s|
  {
    var digits, ext := SizeLineMeans(s);
    var t := s[StrictLine(s).value.n..];
    assert ReadChunks(s, total) == AfterSize(t, HexValue(digits), total);
    m := AfterSizeSound(s, digits, ext, t, total);
  }

  lemma {:induction false} AfterSizeSound(s: bytes, digits: bytes, ext: bytes, t: bytes, total: nat) returns (m: Message)
    requires total <= HTTP_MAX_BODY && SizeLineOk(digits, ext) && s == digits + ext + CRLF + t
    requires AfterSize(t, HexValue(digits), total).Some?
    ensures MessageOk(m, total)
    ensures var d := AfterSize(t, HexValue(digits), total).value; d.body == Body(m.chunks) && s == WriteMessage(m) + d.rest
    decreases |t|
  {
    var size := HexValue(digits);
    if size == 0 {
      m := LastSound(digits, ext, t, total);
    } else {
      var more := t[size + 2..];
      var m' := ChunkedSound(more, total + size);
      var c := Chunk(digits, ext, t[..size]);
      m := Front(c, m');
      FrontIs(c, m', ReadChunks(more, total + size).value.rest, total);
      ChunkThen(digits, ext, t, size);
    }
  }

  lemma LastSound(zeros: bytes, ext: bytes, t: bytes, total: nat) returns (m: Message)
    requires total <= HTTP_MAX_BODY && SizeLineOk(zeros, ext) && HexValue(zeros) == 0 && ReadTrailers(t, 0, 0).Some?
    ensures MessageOk(m, total) && Body(m.chunks) == []
    ensures zeros + ext + CRLF + t == WriteMessage(m) + ReadTrailers(t, 0, 0).value
  {
    var ts := TrailersMean(t, 0, 0);
    m := Message([], zeros, ext, ts);
    LastThen(zeros, ext, ts, ReadTrailers(t, 0, 0).value);
  }

  lemma LastThen(zeros: bytes, ext: bytes, ts: seq<bytes>, rest: bytes)
    ensures zeros + ext + CRLF + (WriteTrailers(ts) + rest) == WriteMessage(Message([], zeros, ext, ts)) + rest
  {
  }

  lemma ChunkThen(digits: bytes, ext: bytes, t: bytes, size: nat)
    requires size + 2 <= |t| && t[size] == CR && t[size + 1] == LF
    ensures digits + ext + CRLF + t == WriteChunk(Chunk(digits, ext, t[..size])) + t[size + 2..]
  {
    assert t == t[..size] + CRLF + t[size + 2..];
  }

  // ---------------------------------------------------------------- framing

  const HTTP_INITIAL_BODY_CAP: nat := 16 * 1024

  datatype Framing = Chunked | Length(n: nat) | UntilClose

  /** The capacity of the body buffer at the start. */
  function InitialCap(f: Framing): (cap: nat)
    ensures 0 < cap <= HTTP_INITIAL_BODY_CAP
  {
    match f
    case Length(n) => if n == 0 then 1 else if n < HTTP_INITIAL_BODY_CAP then n else HTTP_INITIAL_BODY_CAP
    case _ => HTTP_INITIAL_BODY_CAP
  }

  /** The body that the bytes of the stream stand for; None when the response is rejected. */
  function BodyOf(f: Framing, s: bytes): Option<bytes> {
    match f
    case Chunked => (var d := ReadChunks(s, 0); if d.None? then None else Some(d.value.body))
    case Length(n) => if n > HTTP_MAX_BODY || |s| < n then None else Some(s[..n])
    case UntilClose => if |s| > HTTP_MAX_BODY then None else Some(s)
  }

  /** A body of up to 16 MiB is what its length, or the end of the connection, cuts out of the stream; others are rejected. */
  lemma FramedBody(b: bytes, rest: bytes)
    ensures BodyOf(Length(|b|), b + rest) == if |b| <= 0x100_0000 then Some(b) else None
    ensures forall n: nat :: |b| < n ==> BodyOf(Length(n), b) == None
    ensures BodyOf(UntilClose, b) == if |b| <= 0x100_0000 then Some(b) else None
  {
    assert (b + rest)[..|b|] == b;
  }

  // ---------------------------------------------------------------- Content-Length

  predicate IsDecimal(c: byte) { 0x30 <= c <= 0x39 }

  /** The guard of parse_content_length on one more digit. */
  predicate Exceeds(value: nat, digit: nat, limit: nat) {
    value > limit / 10 || (value == limit / 10 && digit > limit % 10)
  }

  lemma ExceedsExact(value: nat, digit: nat, limit: nat)
    requires digit < 10
    ensures Exceeds(value, digit, limit) <==> value * 10 + digit > limit
  {
  }

  function DecimalFrom(t: bytes, i: nat, value: nat, limit: nat): (r: Option<Size>)
    requires i <= |t|
    ensures r.Some? ==> i <= r.value.next <= |t|
    decreases |t| - i
  {
    if i == |t| || !IsDecimal(t[i]) then Some(Size(value, i))
    else if Exceeds(value, t[i] - 0x30, limit) then None
    else DecimalFrom(t, i + 1, value * 10 + (t[i] as int - 0x30), limit)
  }

  /** parse_content_length. */
  function ParseContentLength(t: bytes, limit: nat): Option<nat> {
    var i := SkipBlanks(t, 0);
    var d := DecimalFrom(t, i, 0, limit);
    if d.None? || d.value.next == i || SkipBlanks(t, d.value.next) != |t| then None else Some(d.value.value)
  }

  predicate AllDecimal(t: bytes) {
    forall i :: 0 <= i < |t| ==> IsDecimal(t[i])
  }

  function DecimalValue(t: bytes): nat
    requires AllDecimal(t)
  {
    if t == [] then 0 else 10 * DecimalValue(t[..|t| - 1]) + (t[|t| - 1] as int - 0x30)
  }

  predicate Blanks(t: bytes) {
    forall i :: 0 <= i < |t| ==> IsBlank(t[i])
  }

  lemma DecimalSnoc(t: bytes, i: nat)
    requires i < |t| && AllDecimal(t[..i + 1])
    ensures AllDecimal(t[..i]) && IsDecimal(t[i]) && DecimalValue(t[..i + 1]) == 10 * DecimalValue(t[..i]) + (t[i] as int - 0x30)
  {
    var u := t[..i + 1];
    assert u[..i] == t[..i] && u[i] == t[i];
    forall k | 0 <= k < i ensures IsDecimal(t[..i][k]) { assert t[..i][k] == u[k]; }
  }

  lemma {:induction false} DecimalGrows(t: bytes, i: nat)
    requires i <= |t| && AllDecimal(t)
    ensures AllDecimal(t[..i]) && DecimalValue(t[..i]) <= DecimalValue(t)
    decreases |t| - i
  {
    if i == |t| {
      assert t[..i] == t;
    } else {
      DecimalGrows(t, i + 1);
      DecimalSnoc(t, i);
    }
  }

  /** The digit loop over the text `a + d + z`, `d` being the digits, `i` of them read. */
  lemma {:induction false} DecimalReads(a: bytes, d: bytes, z: bytes, i: nat, limit: nat)
    requires AllDecimal(d) && (z != [] ==> !IsDecimal(z[0])) && i <= |d| && AllDecimal(d[..i])
    requires DecimalValue(d[..i]) <= limit
    ensures DecimalFrom(a + d + z, |a| + i, DecimalValue(d[..i]), limit)
         == if DecimalValue(d) <= limit then Some(Size(DecimalValue(d), |a| + |d|)) else None
    decreases |d| - i
  {
    var t := a + d + z;
    if i == |d| {
      assert d[..i] == d;
      if z != [] { assert t[|a| + i] == z[0]; }
    } else {
      assert t[|a| + i] == d[i] && IsDecimal(d[i]);
      DecimalGrows(d, i + 1);
      DecimalSnoc(d, i);
      ExceedsExact(DecimalValue(d[..i]), d[i] - 0x30, limit);
      if DecimalValue(d[..i + 1]) <= limit { DecimalReads(a, d, z, i + 1, limit); }
    }
  }

  lemma {:induction false} SkipsAll(a: bytes, b: bytes, z: bytes, i: nat)
    requires Blanks(b) && i <= |b| && (z != [] ==> !IsBlank(z[0]))
    ensures SkipBlanks(a + b + z, |a| + i) == |a| + |b|
    decreases |b| - i
  {
    var t := a + b + z;
    if i < |b| {
      assert t[|a| + i] == b[i];
      SkipsAll(a, b, z, i + 1);
    } else if z != [] {
      assert t[|a| + i] == z[0];
    }
  }

  /** Digits between blanks: accepted exactly when their value is within the limit, and then as that value. */
  lemma ContentLengthExact(left: bytes, digits: bytes, right: bytes, limit: nat)
    requires Blanks(left) && Blanks(right) && digits != [] && AllDecimal(digits)
    ensures ParseContentLength(left + digits + right, limit)
         == if DecimalValue(digits) <= limit then Some(DecimalValue(digits)) else None
  {
    var t := left + digits + right;
    assert IsDecimal(digits[0]);
    assert [] + left + (digits + right) == t;
    SkipsAll([], left, digits + right, 0);
    assert digits[..0] == [];
    if right != [] { assert IsBlank(right[0]); }
    DecimalReads(left, digits, right, 0, limit);
    assert left + digits + right + [] == t;
    SkipsAll(left + digits, right, [], 0);
  }
}
