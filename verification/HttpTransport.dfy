/**
 Reading a response body from a socket: the read buffer of src/http_transport.c, refilled by whatever pieces the
 socket delivers, and the body loops of src/http_response_parser.c over it.
 */
module HttpTransport {
  import opened Common
  import opened HttpChunks
  import opened HttpBody
  import BB = ByteBuffer

  const READ_BUF_SIZE: nat := 8192

  /** What one call of recv gives: some bytes, a reason to call again, or the end of the stream. */
  datatype Arrival = Data(piece: bytes) | Retry | Closed

  /** The bytes that arrive before the stream ends. */
  function Arriving(wire: seq<Arrival>): bytes {
    if wire == [] || wire[0].Closed? then []
    else (if wire[0].Data? then wire[0].piece else []) + Arriving(wire[1..])
  }

  predicate PiecesOk(wire: seq<Arrival>) {
    forall i :: 0 <= i < |wire| && wire[i].Data? ==> 0 < |wire[i].piece| <= READ_BUF_SIZE
  }

  method StoreByte(buf: array<byte>, i: nat, c: byte, ghost s: bytes)
    requires i < buf.Length && i < |s| && buf[..i] == s[..i] && c == s[i]
    modifies buf
    ensures buf[..i + 1] == s[..i + 1]
  {
    buf[i] := c;
    assert buf[..i + 1] == buf[..i] + [c] && s[..i + 1] == s[..i] + [c];
  }

  class Transport {
    const readBuf: array<byte>
    var readPos: nat
    var readEnd: nat
    var wire: seq<Arrival>       // what the socket will deliver

    ghost predicate Valid()
      reads this
    {
      readPos <= readEnd <= readBuf.Length == READ_BUF_SIZE && PiecesOk(wire)
    }

    /** The bytes still to be read, however they are cut into pieces. */
    ghost function Pending(): bytes
      reads this, readBuf
      requires Valid()
    {
      readBuf[readPos..readEnd] + Arriving(wire)
    }

    constructor (wire: seq<Arrival>)
      requires PiecesOk(wire)
      ensures Valid() && fresh(readBuf) && Pending() == Arriving(wire)
    {
      readBuf := new byte[READ_BUF_SIZE];
      readPos, readEnd := 0, 0;
      this.wire := wire;
    }

    /** recv until it gives bytes or the end. */
    method Refill() returns (ok: bool)
      requires Valid() && readPos == readEnd
      modifies this, readBuf
      ensures Valid() && Pending() == old(Pending()) && ok == (Pending() != [])
      ensures ok ==> readPos < readEnd
    {
      readPos, readEnd := 0, 0;
      while wire != [] && wire[0].Retry?
        invariant Valid() && readPos == readEnd == 0 && Arriving(wire) == old(Arriving(wire))
        decreases |wire|
      {
        assert Arriving(wire) == [] + Arriving(wire[1..]);
        wire := wire[1..];
      }
      if wire == [] || wire[0].Closed? {
        return false;
      }
      var piece := wire[0].piece;
      assert Arriving(wire) == piece + Arriving(wire[1..]);
      forall i | 0 <= i < |piece| { readBuf[i] := piece[i]; }
      readEnd := |piece|;
      wire := wire[1..];
      assert readBuf[0..readEnd] == piece;
      return true;
    }

    /** HttpTransport_getc: the next byte, or -1 at the end. */
    method Getc() returns (c: int)
      requires Valid()
      modifies this, readBuf
      ensures Valid()
      ensures if old(Pending()) == [] then c == -1 && Pending() == [] else c == old(Pending())[0] && Pending() == old(Pending())[1..]
    {
      if readPos >= readEnd {
        var ok := Refill();
        if !ok {
          return -1;
        }
      }
      assert Pending()[0] == readBuf[readPos];
      c := readBuf[readPos];
      readPos := readPos + 1;
    }

    /** Getc after `at` bytes of `s` have gone. */
    method GetcAt(ghost s: bytes, ghost at: nat) returns (c: int)
      requires Valid() && at <= |s| && Pending() == s[at..]
      modifies this, readBuf
      ensures Valid()
      ensures if at == |s| then c == -1 else c == s[at] && Pending() == s[at + 1..]
    {
      c := Getc();
    }

    /** HttpTransport_recv_line; the line is built in a buffer of `max` bytes. */
    method ReadLine(max: nat) returns (r: Option<Line>)
      requires Valid() && max >= 2
      modifies this, readBuf
      ensures Valid() && r == RecvLine(old(Pending()), max)
      ensures r.Some? ==> Pending() == old(Pending())[r.value.n..]
    {
      var lineBuf := new byte[max];
      ghost var s := Pending();
      var consumed := 0;
      while consumed < max - 1
        invariant Valid() && 0 <= consumed <= max - 1 && consumed <= |s| && Pending() == s[consumed..]
        invariant lineBuf[..consumed] == s[..consumed] && RecvLine(s, max) == RecvFrom(s, consumed, max)
      {
        var c := GetcAt(s, consumed);
        if c < 0 || c == 0 {
          return None;
        }
        if c == LF {
          return Some(Line(lineBuf[..consumed], consumed + 1));
        }
        if c == CR {
          if consumed + 1 >= max - 1 {
            return None;
          }
          var next := GetcAt(s, consumed + 1);
          if next != LF {
            return None;
          }
          return Some(Line(lineBuf[..consumed], consumed + 2));
        }
        StoreByte(lineBuf, consumed, c, s);
        consumed := consumed + 1;
      }
      return None;
    }
  }

  // ---------------------------------------------------------------- the body loops

  /** The body so far and what is still to come. */
  function With(a: bytes, d: Option<Decoded>): Option<Decoded> {
    if d.None? then None else Some(Decoded(a + d.value.body, d.value.rest))
  }

  /** The body buffer has room for `n` more bytes, whatever doubling it takes. */
  ghost predicate RoomFor(b: BB.Buffer, n: nat)
    reads b, b.data
  {
    b.Valid() && b.readPos == 0 && b.data.Length <= HTTP_MAX_BODY && |b.Contents()| + n <= BB.Reach(b.data.Length)
  }

  /** One byte goes into the body; the guard of the buffer never turns it down. */
  method AddByte(body: BB.Buffer, c: byte, ghost n: nat)
    requires RoomFor(body, n + 1)
    modifies body, body.data
    ensures RoomFor(body, n) && (body.data == old(body.data) || fresh(body.data)) && body.Contents() == old(body.Contents()) + [c]
  {
    BB.DoublingExact(body.data.Length, |body.Contents()| + 1);
    var ok := body.Write([c]);
    assert ok;
  }

  /** `n` bytes of the stream go into the body. */
  method ReadBytes(t: Transport, body: BB.Buffer, n: nat, ghost more: nat) returns (ok: bool)
    requires t.Valid() && RoomFor(body, n + more) && body.data != t.readBuf
    modifies t, t.readBuf, body, body.data
    ensures t.Valid() && body.data != t.readBuf && (body.data == old(body.data) || fresh(body.data))
    ensures body.Valid() && ok == (n <= |old(t.Pending())|)
    ensures ok ==> RoomFor(body, more) && body.Contents() == old(body.Contents()) + old(t.Pending())[..n] && t.Pending() == old(t.Pending())[n..]
  {
    ghost var s, was := t.Pending(), body.Contents();
    for i := 0 to n
      invariant t.Valid() && body.data != t.readBuf && (body.data == old(body.data) || fresh(body.data))
      invariant i <= |s| && t.Pending() == s[i..] && RoomFor(body, n - i + more) && body.Contents() == was + s[..i]
    {
      var c := t.Getc();
      if c < 0 {
        return false;
      }
      assert c == s[i] && s[..i + 1] == s[..i] + [s[i]];
      AddByte(body, c, n - i - 1 + more);
      assert was + s[..i] + [s[i]] == was + s[..i + 1];
    }
    return true;
  }

  /** The trailer loop. */
  method SkipTrailers(t: Transport) returns (ok: bool)
    requires t.Valid()
    modifies t, t.readBuf
    ensures t.Valid() && ok == ReadTrailers(old(t.Pending()), 0, 0).Some?
    ensures ok ==> t.Pending() == ReadTrailers(old(t.Pending()), 0, 0).value
  {
    var count, size := 0, 0;
    ghost var goal := ReadTrailers(t.Pending(), 0, 0);
    while true
      invariant t.Valid() && 0 <= count && 0 <= size <= HTTP_MAX_HEADER_BYTES && goal == ReadTrailers(t.Pending(), count, size)
      decreases HTTP_MAX_HEADER_COUNT - count
    {
      var l := t.ReadLine(LINE_SIZE);
      if l.None? || l.value.n - |l.value.text| != 2 {
        return false;
      }
      if |l.value.text| == 0 {
        return true;
      }
      if count >= HTTP_MAX_HEADER_COUNT || l.value.n > HTTP_MAX_HEADER_BYTES - size {
        return false;
      }
      count, size := count + 1, size + l.value.n;
    }
  }

  /** The digit loop and the checks of parse_chunk_size. */
  method ReadSize(t: bytes) returns (r: Option<nat>)
    requires LineText(t)
    ensures r == ParseChunkSize(t)
  {
    var i, value := 0, 0;
    while i < |t| && !EndsSize(t[i])
      invariant 0 <= i <= |t| && value >= 0 && SizeFrom(t, i, value) == SizeFrom(t, 0, 0)
    {
      var d := HexDigit(t[i]);
      if d < 0 || Overflows(value, d) {
        return None;
      }
      value := value * 16 + d;
      i := i + 1;
    }
    if i == 0 {
      return None;
    }
    var j := i;
    while j < |t| && IsBlank(t[j])
      invariant i <= j <= |t| && SkipBlanks(t, j) == SkipBlanks(t, i)
    {
      j := j + 1;
    }
    r := if j == |t| || t[j] == SEMICOLON then Some(value) else None;
  }

  /** One turn of the chunk loop: its size line. */
  method ReadSizeLine(t: Transport) returns (size: Option<nat>)
    requires t.Valid()
    modifies t, t.readBuf
    ensures t.Valid()
    ensures forall total: nat | total <= HTTP_MAX_BODY ::
              ReadChunks(old(t.Pending()), total) == if size.None? then None else AfterSize(t.Pending(), size.value, total)
    ensures size.Some? ==> |t.Pending()| < |old(t.Pending())|
  {
    ghost var s := t.Pending();
    var l := t.ReadLine(LINE_SIZE);
    if l.None? || l.value.n - |l.value.text| != 2 {
      return None;
    }
    StrictLineMeans(s);
    size := ReadSize(l.value.text);
  }

  /** The data of one chunk and the line end after it. */
  method ReadData(t: Transport, body: BB.Buffer, size: nat, total: nat) returns (ok: bool)
    requires t.Valid() && body.data != t.readBuf && 0 < size <= HTTP_MAX_BODY - total && RoomFor(body, HTTP_MAX_BODY - total)
    modifies t, t.readBuf, body, body.data
    ensures t.Valid() && body.Valid() && body.data != t.readBuf && (body.data == old(body.data) || fresh(body.data))
    ensures var s := old(t.Pending()); ok == (|s| >= size + 2 && s[size] == CR && s[size + 1] == LF)
    ensures ok ==> RoomFor(body, HTTP_MAX_BODY - total - size) && body.Contents() == old(body.Contents()) + old(t.Pending())[..size]
                   && t.Pending() == old(t.Pending())[size + 2..]
  {
    ok := ReadBytes(t, body, size, HTTP_MAX_BODY - total - size);
    if !ok {
      return;
    }
    var r1 := t.Getc();
    if r1 != CR {
      return false;
    }
    var r2 := t.Getc();
    ok := r2 == LF;
  }

  /** The chunk loop. */
  method ReadChunkedBody(t: Transport, body: BB.Buffer) returns (ok: bool)
    requires t.Valid() && body.data != t.readBuf && RoomFor(body, HTTP_MAX_BODY) && body.Contents() == []
    modifies t, t.readBuf, body, body.data
    ensures t.Valid() && body.Valid()
    ensures var d := ReadChunks(old(t.Pending()), 0);
            ok == d.Some? && (ok ==> body.readPos == 0 && body.Contents() == d.value.body && t.Pending() == d.value.rest)
  {
    ghost var goal := ReadChunks(t.Pending(), 0);
    var total := 0;
    WithNothing(goal);
    while true
      invariant t.Valid() && body.data != t.readBuf && (body.data == old(body.data) || fresh(body.data))
      invariant 0 <= total <= HTTP_MAX_BODY && RoomFor(body, HTTP_MAX_BODY - total)
      invariant Outstanding(t, body, total, goal)
      decreases |t.Pending()|
    {
      var size := ChunkTurn(t, body, total, goal);
      if size.None? {
        return false;
      }
      if size.value == 0 {
        return true;
      }
      total := total + size.value;
    }
  }

  /** What is still to come, after the chunks already in `body`, makes up the goal. */
  ghost predicate Outstanding(t: Transport, body: BB.Buffer, total: nat, goal: Option<Decoded>)
    requires t.Valid() && body.Valid() && total <= HTTP_MAX_BODY
    reads t, t.readBuf, body, body.data
  {
    goal == With(body.Contents(), ReadChunks(t.Pending(), total))
  }

  /** One turn of the chunk loop: None when it fails, 0 after the last chunk. */
  method ChunkTurn(t: Transport, body: BB.Buffer, total: nat, ghost goal: Option<Decoded>) returns (r: Option<nat>)
    requires t.Valid() && body.data != t.readBuf && total <= HTTP_MAX_BODY && RoomFor(body, HTTP_MAX_BODY - total)
    requires Outstanding(t, body, total, goal)
    modifies t, t.readBuf, body, body.data
    ensures t.Valid() && body.Valid() && body.data != t.readBuf && (body.data == old(body.data) || fresh(body.data))
    ensures match r
            case None => goal == None
            case Some(n) =>
              if n == 0 then body.readPos == 0 && goal == Some(Decoded(body.Contents(), t.Pending()))
              else
                && total + n <= HTTP_MAX_BODY && RoomFor(body, HTTP_MAX_BODY - total - n)
                && |t.Pending()| < |old(t.Pending())| && Outstanding(t, body, total + n, goal)
  {
    r := ReadSizeLine(t);
    if r.None? {
      return;
    }
    var ok;
    if r.value == 0 {
      ok := LastTurn(t, body.Contents(), total, goal);
    } else {
      ok := DataTurn(t, body, r.value, total, goal);
    }
    if !ok {
      return None;
    }
  }

  method LastTurn(t: Transport, ghost was: bytes, total: nat, ghost goal: Option<Decoded>) returns (ok: bool)
    requires t.Valid() && total <= HTTP_MAX_BODY && goal == With(was, AfterSize(t.Pending(), 0, total))
    modifies t, t.readBuf
    ensures t.Valid() && goal == if ok then Some(Decoded(was, t.Pending())) else None
  {
    ok := SkipTrailers(t);
    assert was + [] == was;
  }

  method DataTurn(t: Transport, body: BB.Buffer, size: nat, total: nat, ghost goal: Option<Decoded>) returns (ok: bool)
    requires t.Valid() && body.data != t.readBuf && total <= HTTP_MAX_BODY && RoomFor(body, HTTP_MAX_BODY - total)
    requires size > 0 && goal == With(body.Contents(), AfterSize(t.Pending(), size, total))
    modifies t, t.readBuf, body, body.data
    ensures t.Valid() && body.Valid() && body.data != t.readBuf && (body.data == old(body.data) || fresh(body.data))
    ensures if !ok then goal == None else
            && total + size <= HTTP_MAX_BODY && RoomFor(body, HTTP_MAX_BODY - total - size)
            && |t.Pending()| <= |old(t.Pending())| && Outstanding(t, body, total + size, goal)
  {
    if size > HTTP_MAX_BODY - total {
      return false;
    }
    ghost var was, s := body.Contents(), t.Pending();
    ok := ReadData(t, body, size, total);
    if ok {
      WithMore(was, s[..size], ReadChunks(t.Pending(), total + size));
    }
  }

  lemma WithNothing(d: Option<Decoded>)
    ensures With([], d) == d
  {
    if d.Some? { assert [] + d.value.body == d.value.body; }
  }

  lemma WithMore(a: bytes, b: bytes, d: Option<Decoded>)
    ensures With(a, With(b, d)) == With(a + b, d)
  {
    if d.Some? { assert a + (b + d.value.body) == a + b + d.value.body; }
  }

  /** The body that ends with the connection. */
  method ReadToEnd(t: Transport, body: BB.Buffer) returns (ok: bool)
    requires t.Valid() && body.data != t.readBuf && RoomFor(body, HTTP_MAX_BODY) && body.Contents() == []
    modifies t, t.readBuf, body, body.data
    ensures body.Valid() && ok == (|old(t.Pending())| <= HTTP_MAX_BODY)
    ensures ok ==> body.readPos == 0 && body.Contents() == old(t.Pending())
  {
    ghost var s := t.Pending();
    var total := 0;
    while true
      invariant t.Valid() && body.data != t.readBuf && (body.data == old(body.data) || fresh(body.data))
      invariant 0 <= total <= HTTP_MAX_BODY && total <= |s| && t.Pending() == s[total..]
      invariant RoomFor(body, HTTP_MAX_BODY - total) && body.Contents() == s[..total]
      decreases |s| - total
    {
      var c := t.Getc();
      if c < 0 {
        assert s[..total] == s;
        return true;
      }
      if total >= HTTP_MAX_BODY {
        return false;
      }
      assert c == s[total] && s[..total + 1] == s[..total] + [s[total]];
      AddByte(body, c, HTTP_MAX_BODY - total - 1);
      total := total + 1;
    }
  }

  lemma InitialRoom(f: Framing)
    ensures f.Length? && f.n <= HTTP_MAX_BODY ==> f.n <= BB.Reach(InitialCap(f))
    ensures !f.Length? ==> BB.Reach(InitialCap(f)) == HTTP_MAX_BODY
  {
    assert BB.Scaled(HTTP_INITIAL_BODY_CAP, 10) == HTTP_MAX_BODY;
    assert BB.Divides(HTTP_INITIAL_BODY_CAP);
    BB.ReachesCapIff(HTTP_INITIAL_BODY_CAP);
  }

  /**
   The body part of HttpResponseParser_parse_with_options.  The result depends on the bytes that arrive and not on
   the pieces they come in, and no body within 16 MiB is turned down by the buffer.
   */
  method ReadBody(f: Framing, wire: seq<Arrival>) returns (r: Option<bytes>)
    requires PiecesOk(wire) && (f.Length? ==> f.n <= HTTP_MAX_BODY)
    ensures r == BodyOf(f, Arriving(wire))
  {
    var t := new Transport(wire);
    var body := new BB.Buffer(InitialCap(f));
    InitialRoom(f);
    var ok;
    match f {
      case Chunked => ok := ReadChunkedBody(t, body);
      case Length(n) => ok := ReadBytes(t, body, n, 0);
      case UntilClose => ok := ReadToEnd(t, body);
    }
    r := if ok then Some(body.data[..body.writePos]) else None;
  }
}
