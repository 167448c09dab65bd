/**
 Reading lines and chunked bodies as src/http_transport.c and src/http_response_parser.c do, against the grammar
 of section 7.1 of RFC 9112.
 */
module HttpChunks {
  import opened Common

  type bytes = seq<byte>

  const CR: byte := 13
  const LF: byte := 10
  const CRLF: bytes := [13, 10]
  const SEMICOLON: byte := 0x3B
  const SIZE_MAX: nat := 0xFFFF_FFFF_FFFF_FFFF
  const HTTP_MAX_BODY: nat := 16 * 1024 * 1024
  const HTTP_MAX_HEADER_COUNT: nat := 100
  const HTTP_MAX_HEADER_BYTES: nat := 64 * 1024
  const LINE_SIZE: nat := 4096

  // ---------------------------------------------------------------- lines

  /** A line without its terminator, and how many bytes it took with it. */
  datatype Line = Line(text: bytes, n: nat)

  /** HttpTransport_recv_line with `i` bytes of the line already read. */
  function RecvFrom(s: bytes, i: nat, max: nat): (r: Option<Line>)
    requires max >= 2
    ensures r.Some? ==> i < r.value.n <= |s| && |r.value.text| < r.value.n
    decreases |s| - i
  {
    if i >= max - 1 || i >= |s| || s[i] == 0 then None
    else if s[i] == LF then Some(Line(s[..i], i + 1))
    else if s[i] == CR then
      if i + 1 >= max - 1 || i + 1 >= |s| || s[i + 1] != LF then None else Some(Line(s[..i], i + 2))
    else RecvFrom(s, i + 1, max)
  }

  function RecvLine(s: bytes, max: nat): (r: Option<Line>)
    requires max >= 2
    ensures r.Some? ==> 0 < r.value.n <= |s| && |r.value.text| < r.value.n
  {
    RecvFrom(s, 0, max)
  }

  /** A line that must end in CR LF: bare line feeds are told by the count of bytes. */
  function StrictLine(s: bytes): (r: Option<Line>)
    ensures r.Some? ==> 0 < r.value.n <= |s|
  {
    var l := RecvLine(s, LINE_SIZE);
    if l.None? || l.value.n - |l.value.text| != 2 then None else l
  }

  predicate LineByte(c: byte) { c != 0 && c != CR && c != LF }

  predicate LineText(t: bytes) {
    forall i :: 0 <= i < |t| ==> LineByte(t[i])
  }

  lemma {:induction false} RecvReads(s: bytes, i: nat, t: bytes, max: nat)
    requires max >= 2 && LineText(t) && i <= |t| && |t| + 2 <= max - 1
    requires |t| + 2 <= |s| && s[..|t|] == t && s[|t|] == CR && s[|t| + 1] == LF
    ensures RecvFrom(s, i, max) == Some(Line(t, |t| + 2))
    decreases |t| - i
  {
    if i < |t| {
      assert s[i] == s[..|t|][i] == t[i] && LineByte(t[i]);
      RecvReads(s, i + 1, t, max);
    }
  }

  /** Every line of at most 4093 bytes is read back whole. */
  lemma StrictLineReads(t: bytes, rest: bytes)
    requires LineText(t) && |t| + 2 < LINE_SIZE
    ensures StrictLine(t + CRLF + rest) == Some(Line(t, |t| + 2)) && (t + CRLF + rest)[|t| + 2..] == rest
  {
    var s := t + CRLF + rest;
    assert s[..|t|] == t && s[|t|] == CR && s[|t| + 1] == LF;
    RecvReads(s, 0, t, LINE_SIZE);
  }

  lemma {:induction false} RecvMeans(s: bytes, i: nat, max: nat)
    requires max >= 2 && i <= |s| && LineText(s[..i]) && RecvFrom(s, i, max).Some?
    ensures var l := RecvFrom(s, i, max).value;
            && LineText(l.text) && l.n <= max - 1 && l.text == s[..|l.text|]
            && (l.n - |l.text| == 2 ==> |l.text| + 2 <= |s| && s[|l.text|] == CR && s[|l.text| + 1] == LF)
    decreases |s| - i
  {
    if s[i] != LF && s[i] != CR {
      assert s[..i + 1] == s[..i] + [s[i]];
      RecvMeans(s, i + 1, max);
    }
  }

  /** An accepted line is such a line. */
  lemma StrictLineMeans(s: bytes)
    requires StrictLine(s).Some?
    ensures var l := StrictLine(s).value;
            LineText(l.text) && l.n == |l.text| + 2 < LINE_SIZE && s == l.text + CRLF + s[l.n..]
  {
    RecvMeans(s, 0, LINE_SIZE);
  }

  // ---------------------------------------------------------------- chunk sizes

  predicate IsBlank(c: byte) { c == 32 || c == 9 }

  function HexDigit(c: byte): (d: int)
    ensures -1 <= d < 16
  {
    if 0x30 <= c <= 0x39 then c - 0x30
    else if 0x61 <= c <= 0x66 then c - 0x61 + 10
    else if 0x41 <= c <= 0x46 then c - 0x41 + 10
    else -1
  }

  /** HEXDIG in either case, and the blanks, of section 7.1.1 of RFC 9112. */
  lemma ChunkCharacters(c: byte)
    ensures forall h :: 0 <= h < 16 ==> (HexDigit(c) == h <==> c as char == "0123456789abcdef"[h] || c as char == "0123456789ABCDEF"[h])
    ensures IsBlank(c) <==> c as char == ' ' || c as char == '\t'
  {
  }

  predicate AllHex(t: bytes) {
    forall i :: 0 <= i < |t| ==> HexDigit(t[i]) >= 0
  }

  function HexValue(t: bytes): nat
    requires AllHex(t)
  {
    if t == [] then 0 else 16 * HexValue(t[..|t| - 1]) + HexDigit(t[|t| - 1])
  }

  predicate EndsSize(c: byte) { c == 0 || c == SEMICOLON || c == 32 || c == 9 || c == CR || c == LF }

  /** The guard of parse_chunk_size on one more digit. */
  predicate Overflows(value: nat, digit: nat) {
    value > SIZE_MAX / 16 || (value == SIZE_MAX / 16 && digit > SIZE_MAX % 16)
  }

  /** The guard is exact: it fires just when the new value does not fit a size_t. */
  lemma OverflowExact(value: nat, digit: nat)
    requires digit < 16
    ensures Overflows(value, digit) <==> value * 16 + digit > SIZE_MAX
  {
  }

  datatype Size = Size(value: nat, next: nat)

  /** The digit loop from place `i` on. */
  function SizeFrom(t: bytes, i: nat, value: nat): (r: Option<Size>)
    requires i <= |t|
    ensures r.Some? ==> i <= r.value.next <= |t|
    decreases |t| - i
  {
    if i == |t| || EndsSize(t[i]) then Some(Size(value, i))
    else
      var d := HexDigit(t[i]);
      if d < 0 || Overflows(value, d) then None else SizeFrom(t, i + 1, value * 16 + d)
  }

  function SkipBlanks(t: bytes, i: nat): (j: nat)
    requires i <= |t|
    ensures i <= j <= |t|
    decreases |t| - i
  {
    if i < |t| && IsBlank(t[i]) then SkipBlanks(t, i + 1) else i
  }

  /** parse_chunk_size. */
  function ParseChunkSize(t: bytes): Option<nat> {
    var s := SizeFrom(t, 0, 0);
    if s.None? || s.value.next == 0 then None else
      var j := SkipBlanks(t, s.value.next);
      if j == |t| || t[j] == SEMICOLON then Some(s.value.value) else None
  }

  /** What may follow the digits: blanks, then nothing or an extension after a semicolon. */
  predicate ExtensionOk(e: bytes) {
    LineText(e) && (var j := SkipBlanks(e, 0); j == |e| || e[j] == SEMICOLON)
  }

  lemma {:induction false} HexSnoc(t: bytes, i: nat)
    requires i < |t| && AllHex(t[..i + 1])
    ensures AllHex(t[..i]) && HexValue(t[..i + 1]) == 16 * HexValue(t[..i]) + HexDigit(t[i])
  {
    var u := t[..i + 1];
    assert u[..i] == t[..i] && u[i] == t[i];
    forall k | 0 <= k < i ensures HexDigit(t[..i][k]) >= 0 { assert t[..i][k] == u[k]; }
  }

  lemma {:induction false} HexGrows(t: bytes, i: nat)
    requires i <= |t| && AllHex(t)
    ensures AllHex(t[..i]) && HexValue(t[..i]) <= HexValue(t)
    decreases |t| - i
  {
    if i == |t| {
      assert t[..i] == t;
    } else {
      HexGrows(t, i + 1);
      HexSnoc(t, i);
    }
  }

  lemma {:induction false} SizeReads(t: bytes, i: nat, k: nat)
    requires i <= k <= |t| && AllHex(t[..k]) && HexValue(t[..k]) <= SIZE_MAX && (k < |t| ==> EndsSize(t[k]))
    requires AllHex(t[..i])
    ensures SizeFrom(t, i, HexValue(t[..i])) == Some(Size(HexValue(t[..k]), k))
    decreases k - i
  {
    if i < k {
      assert t[..k][..i + 1] == t[..i + 1];
      HexGrows(t[..k], i + 1);
      HexSnoc(t, i);
      assert t[i] == t[..k][i] && HexDigit(t[..k][i]) >= 0;
      OverflowExact(HexValue(t[..i]), HexDigit(t[i]));
      SizeReads(t, i + 1, k);
    }
  }

  lemma {:induction false} SizeMeans(t: bytes, i: nat)
    requires i <= |t| && AllHex(t[..i]) && HexValue(t[..i]) <= SIZE_MAX && SizeFrom(t, i, HexValue(t[..i])).Some?
    ensures var s := SizeFrom(t, i, HexValue(t[..i])).value;
            AllHex(t[..s.next]) && HexValue(t[..s.next]) == s.value <= SIZE_MAX && (s.next < |t| ==> EndsSize(t[s.next]))
    decreases |t| - i
  {
    if i < |t| && !EndsSize(t[i]) {
      assert t[..i + 1] == t[..i] + [t[i]];
      HexSnoc(t, i);
      OverflowExact(HexValue(t[..i]), HexDigit(t[i]));
      SizeMeans(t, i + 1);
    }
  }

  lemma {:induction false} BlanksShift(a: bytes, e: bytes, i: nat)
    requires i <= |e|
    ensures SkipBlanks(a + e, |a| + i) == |a| + SkipBlanks(e, i)
    decreases |e| - i
  {
    if i < |e| && IsBlank(e[i]) { BlanksShift(a, e, i + 1); }
  }

  /** Digits whose value fits a size_t, with what may follow them, are read as that value. */
  lemma ChunkSizeReads(digits: bytes, ext: bytes)
    requires digits != [] && AllHex(digits) && HexValue(digits) <= SIZE_MAX && ExtensionOk(ext)
    ensures ParseChunkSize(digits + ext) == Some(HexValue(digits))
  {
    var t, k := digits + ext, |digits|;
    assert t[..k] == digits && t[..0] == [];
    if k < |t| {
      assert t[k] == ext[0] && LineByte(ext[0]);
      assert SkipBlanks(ext, 0) == 0 || IsBlank(ext[0]);
    }
    SizeReads(t, 0, k);
    BlanksShift(digits, ext, 0);
    var j := SkipBlanks(ext, 0);
    if j < |ext| { assert t[k + j] == ext[j]; }
  }

  /** An accepted size line is such a line. */
  lemma ChunkSizeMeans(t: bytes) returns (k: nat)
    requires ParseChunkSize(t).Some? && LineText(t)
    ensures 0 < k <= |t| && AllHex(t[..k]) && HexValue(t[..k]) == ParseChunkSize(t).value <= SIZE_MAX && ExtensionOk(t[k..])
  {
    assert t[..0] == [];
    SizeMeans(t, 0);
    k := SizeFrom(t, 0, 0).value.next;
    assert t == t[..k] + t[k..];
    BlanksShift(t[..k], t[k..], 0);
    assert LineText(t[k..]);
  }
}
