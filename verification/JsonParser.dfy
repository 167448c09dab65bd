/**
 src/json.c as it runs: a cursor and a depth counter that the parse functions move, output buffers that grow or
 are filled in place.  Each method gives what the functions of JsonText and JsonTree give.
 */
module JsonParser {
  import opened Common
  import opened JsonText
  import opened JsonTree

  // ---------------------------------------------------------------- writing into buffers

  /** Copy `s` into `buf` from place `at` on. */
  method Write(buf: array<byte>, at: nat, s: bytes)
    requires at + |s| <= buf.Length
    modifies buf
    ensures buf[..at] == old(buf[..at]) && buf[at..at + |s|] == s
  {
    for i := 0 to |s|
      invariant buf[..at] == old(buf[..at]) && buf[at..at + i] == s[..i]
    {
      buf[at + i] := s[i];
      assert buf[at..at + i + 1] == buf[at..at + i] + [s[i]];
      assert s[..i + 1] == s[..i] + [s[i]];
    }
    assert s[..|s|] == s;
  }

  /** The first `at` bytes of `buf` are followed by `s`. */
  method Extend(buf: array<byte>, at: nat, s: bytes)
    requires at + |s| <= buf.Length
    modifies buf
    ensures buf[..at + |s|] == old(buf[..at]) + s
  {
    Write(buf, at, s);
    assert buf[..at + |s|] == buf[..at] + buf[at..at + |s|];
  }

  lemma {:induction false} EscapeSnoc(s: bytes, c: byte, unicode: bool)
    ensures EscapeAll(s + [c], unicode) == EscapeAll(s, unicode) + EscapeByte(c, unicode)
  {
    if s == [] {
      assert s + [c] == [c] && [c][1..] == [];
      assert EscapeAll([c], unicode) == EscapeByte(c, unicode) + [];
    } else {
      EscapeSnoc(s[1..], c, unicode);
      assert (s + [c])[1..] == s[1..] + [c];
      Associates(EscapeByte(s[0], unicode), EscapeAll(s[1..], unicode), EscapeByte(c, unicode));
    }
  }

  /** json_escape: its buffer of six bytes for each byte, and one for the NUL, is never overrun. */
  method JsonEscape(s: Key) returns (r: bytes)
    ensures r == EscapeAll(s, true)
  {
    var buf := new byte[6 * |s| + 1];
    var p: nat := 0;
    for i := 0 to |s|
      invariant p <= 6 * i && buf[..p] == EscapeAll(s[..i], true)
    {
      p := EscapeInto(buf, p, s[..i], s[i]);
      assert s[..i + 1] == s[..i] + [s[i]];
    }
    buf[p] := 0;
    assert s[..|s|] == s;
    r := buf[..p];
  }

  method EscapeInto(buf: array<byte>, p: nat, ghost done: bytes, c: byte) returns (n: nat)
    requires p + 6 < buf.Length && buf[..p] == EscapeAll(done, true)
    modifies buf
    ensures p < n <= p + 6 && buf[..n] == EscapeAll(done + [c], true)
  {
    var e := EscapeByte(c, true);
    Extend(buf, p, e);
    n := p + |e|;
    EscapeSnoc(done, c, true);
  }

  // ---------------------------------------------------------------- one turn of the decoding loop

  /** The number that the digits from `i` to `j` stand for. */
  function HexRange(b: bytes, i: nat, j: nat): int
    requires i <= j <= |b|
  {
    if i == j then 0 else HexRange(b, i, j - 1) * 16 + HexValue(b[j - 1])
  }

  lemma HexRangeFour(b: bytes, i: nat)
    requires i + 4 <= |b|
    ensures HexRange(b, i, i + 4) == ((HexValue(b[i]) * 16 + HexValue(b[i + 1])) * 16 + HexValue(b[i + 2])) * 16 + HexValue(b[i + 3])
  {
    assert HexRange(b, i, i + 1) == HexValue(b[i]);
    assert HexRange(b, i, i + 2) == HexRange(b, i, i + 1) * 16 + HexValue(b[i + 1]);
    assert HexRange(b, i, i + 3) == HexRange(b, i, i + 2) * 16 + HexValue(b[i + 2]);
  }

  /** The loop over the digits of a unicode escape. */
  method ReadHex(b: bytes, i: nat) returns (r: Option<nat>)
    requires i <= |b|
    ensures r == HexFour(b, i)
  {
    var cp, j := 0, i;
    while j < i + 4
      invariant i <= j <= i + 4 && j <= |b| && cp >= 0 && cp == HexRange(b, i, j)
      invariant forall k :: i <= k < j ==> HexValue(b[k]) >= 0
    {
      if j >= |b| {
        return None;
      }
      var h := HexValue(b[j]);
      if h < 0 {
        return None;
      }
      cp, j := cp * 16 + h, j + 1;
    }
    HexRangeFour(b, i);
    return Some(cp);
  }

  /** The escape that `b` starts with. */
  method ReadEscape(b: bytes) returns (s: Step)
    requires b != [] && b[0] == BACKSLASH
    ensures s == DecodeStep(b)
  {
    if |b| == 1 {
      return Bad;
    }
    if b[1] == LETTER_U {
      s := ReadUnicode(b);
      return;
    }
    var c := b[1];
    match c {
      case 0x62 => c := 8;
      case 0x66 => c := 12;
      case 0x6E => c := 10;
      case 0x72 => c := 13;
      case 0x74 => c := 9;
      case _ =>
    }
    return Took(2, [c]);
  }

  method ReadUnicode(b: bytes) returns (s: Step)
    requires |b| > 1
    ensures s == UnicodeStep(b)
  {
    var hi := ReadHex(b, 2);
    if hi.None? {
      return Bad;
    }
    var cp := hi.value;
    if 0xD800 <= cp <= 0xDBFF {
      if |b| < 12 || b[6] != BACKSLASH || b[7] != LETTER_U {
        return Bad;
      }
      var lo := ReadHex(b, 8);
      if lo.None? || lo.value < 0xDC00 || lo.value > 0xDFFF {
        return Bad;
      }
      return Took(12, Encode(0x10000 + (cp - 0xD800) * 0x400 + (lo.value - 0xDC00)));
    }
    if 0xDC00 <= cp <= 0xDFFF {
      return Bad;
    }
    return Took(6, Encode(cp));
  }

  /** The length that the first byte announces, unless it or the second byte is refused. */
  method AnnouncedLength(b: bytes) returns (n: nat)
    requires b != [] && b[0] >= 0x80
    ensures n == 0 || 2 <= n <= 4
    ensures RawLen(b) == if n == 0 then 0 else Continued(b, n)
  {
    var lead := b[0];
    if lead / 0x20 == 6 {
      if |b| > 1 && (lead == 0xC0 || lead == 0xC1) {
        return 0;
      }
      return 2;
    }
    if lead / 0x10 == 14 {
      if |b| > 1 && ((lead == 0xE0 && b[1] < 0xA0) || (lead == 0xED && b[1] >= 0xA0)) {
        return 0;
      }
      return 3;
    }
    if lead / 8 == 30 && lead <= 0xF4 {
      if |b| > 1 && ((lead == 0xF0 && b[1] < 0x90) || (lead == 0xF4 && b[1] >= 0x90)) {
        return 0;
      }
      return 4;
    }
    return 0;
  }

  /** A byte outside ASCII and its continuation bytes. */
  method ReadRaw(b: bytes) returns (n: nat)
    requires b != [] && b[0] >= 0x80
    ensures n == RawLen(b)
  {
    n := AnnouncedLength(b);
    if n == 0 || n > |b| {
      return 0;
    }
    for i := 1 to n
      invariant forall j :: 1 <= j < i ==> b[j] / 0x40 == 2
    {
      if b[i] / 0x40 != 2 {
        return 0;
      }
    }
  }

  method ReadStep(b: bytes) returns (s: Step)
    requires b != []
    ensures s == DecodeStep(b)
  {
    if b[0] == BACKSLASH {
      s := ReadEscape(b);
    } else if b[0] >= 0x80 {
      var n := ReadRaw(b);
      s := if n == 0 then Bad else Took(n, b[..n]);
    } else {
      s := Took(1, [b[0]]);
    }
  }

  /** The output buffer of the printer; a NUL always follows the contents. */
  class StringBuilder {
    var buffer: array<byte>
    var length: nat

    ghost predicate Valid()
      reads this, buffer
    {
      length < buffer.Length && buffer[length] == 0
    }

    ghost function Contents(): bytes
      reads this, buffer
      requires Valid()
    {
      buffer[..length]
    }

    constructor ()
      ensures Valid() && fresh(buffer) && Contents() == []
    {
      length := 0;
      buffer := new byte[256](_ => 0);
    }

    method Append(s: bytes)
      requires Valid()
      modifies this, buffer
      ensures Valid() && (buffer == old(buffer) || fresh(buffer)) && Contents() == old(Contents()) + s
    {
      ghost var was := Contents();
      if length + |s| + 1 > buffer.Length {
        Grow(length + |s| + 1);
      }
      Extend(buffer, length, s);
      length := length + |s|;
      buffer[length] := 0;
    }

    method Grow(needed: nat)
      requires Valid()
      modifies this`buffer
      ensures fresh(buffer) && Valid() && needed <= buffer.Length && Contents() == old(Contents())
    {
      var cap := buffer.Length;
      while needed > cap
        invariant cap >= buffer.Length
        decreases needed - cap
      {
        cap := cap * 2;
      }
      var tmp := new byte[cap](_ => 0);
      Write(tmp, 0, buffer[..length]);
      assert tmp[0..length] == tmp[..length];
      if length < cap { tmp[length] := 0; }
      buffer := tmp;
    }

    /** sb_append_escaped: the bytes up to the first NUL, between quotes. */
    method AppendEscaped(s: bytes)
      requires Valid()
      modifies this, buffer
      ensures Valid() && (buffer == old(buffer) || fresh(buffer)) && Contents() == old(Contents()) + Quoted(CString(s), false)
    {
      ghost var was, c := Contents(), CString(s);
      CStringPrefix(s);
      Append([QUOTE]);
      var i := 0;
      while i < |s| && s[i] != 0
        invariant Valid() && (buffer == old(buffer) || fresh(buffer))
        invariant 0 <= i <= |c| && Contents() == was + ([QUOTE] + EscapeAll(c[..i], false))
      {
        assert c[i] == s[i];
        AppendEscapedByte(was, c[..i], s[i]);
        assert c[..i + 1] == c[..i] + [s[i]];
        i := i + 1;
      }
      assert c[..i] == c;
      Append([QUOTE]);
      Associates(was, [QUOTE] + EscapeAll(c, false), [QUOTE]);
    }

    method AppendEscapedByte(ghost was: bytes, ghost done: bytes, c: byte)
      requires Valid() && Contents() == was + ([QUOTE] + EscapeAll(done, false))
      modifies this, buffer
      ensures Valid() && (buffer == old(buffer) || fresh(buffer))
      ensures Contents() == was + ([QUOTE] + EscapeAll(done + [c], false))
    {
      EscapeSnoc(done, c, false);
      ghost var a, b := EscapeAll(done, false), EscapeByte(c, false);
      Associates([QUOTE], a, b);
      Associates(was, [QUOTE] + a, b);
      Append(EscapeByte(c, false));
    }
  }

  /** The C string is the part before the first NUL. */
  lemma {:induction false} CStringPrefix(s: bytes)
    ensures var c := CString(s);
            && |c| <= |s| && c == s[..|c|] && (|c| < |s| ==> s[|c|] == 0)
            && forall i :: 0 <= i < |c| ==> c[i] == s[i] && s[i] != 0
  {
    if s != [] && s[0] != 0 {
      CStringPrefix(s[1..]);
      var c, t := CString(s), CString(s[1..]);
      assert forall i :: 0 < i < |c| ==> c[i] == t[i - 1];
    }
  }

  /** stringify_recursive. */
  method Stringify(v: Json, d: nat, sb: StringBuilder)
    requires sb.Valid()
    modifies sb, sb.buffer
    ensures sb.Valid() && (sb.buffer == old(sb.buffer) || fresh(sb.buffer)) && sb.Contents() == old(sb.Contents()) + Print(v, d)
    decreases v, 0
  {
    if d > MAX_JSON_DEPTH {
      sb.Append(MARKER);
      return;
    }
    ghost var was := sb.Contents();
    match v
    case Null => sb.Append(NULL);
    case Bool(b) => sb.Append(if b then TRUE else FALSE);
    case Num(n) => sb.Append(PrintInt(n));
    case Str(s) => sb.AppendEscaped(s);
    case Arr(items) =>
      sb.Append([0x5B]);
      StringifyItems(items, d + 1, sb);
      sb.Append([0x5D]);
      Bracketed(was, [0x5B], PrintItems(items, d + 1), [0x5D]);
    case Obj(fields) =>
      sb.Append([0x7B]);
      StringifyFields(fields, d + 1, sb);
      sb.Append([0x7D]);
      Bracketed(was, [0x7B], PrintFields(fields, d + 1), [0x7D]);
  }

  lemma Bracketed(a: bytes, b: bytes, c: bytes, d: bytes)
    ensures a + b + c + d == a + (b + c + d)
  {
  }

  /** The items from the first on, with commas between them. */
  method StringifyItems(items: Items, d: nat, sb: StringBuilder)
    requires sb.Valid()
    modifies sb, sb.buffer
    ensures sb.Valid() && (sb.buffer == old(sb.buffer) || fresh(sb.buffer)) && sb.Contents() == old(sb.Contents()) + PrintItems(items, d)
    decreases items, 1
  {
    ghost var was := sb.Contents();
    match items
    case NoItems =>
      assert was + [] == was;
    case Item(v, rest) =>
      Stringify(v, d, sb);
      if rest.Item? {
        sb.Append([0x2C]);
        StringifyItems(rest, d, sb);
        Commas(was, Print(v, d), [0x2C], PrintItems(rest, d));
      } else {
        assert Print(v, d) + [] == Print(v, d);
      }
  }

  lemma Commas(a: bytes, b: bytes, c: bytes, d: bytes)
    ensures a + b + c + d == a + (b + (c + d))
  {
  }

  method StringifyFields(f: Fields, d: nat, sb: StringBuilder)
    requires sb.Valid()
    modifies sb, sb.buffer
    ensures sb.Valid() && (sb.buffer == old(sb.buffer) || fresh(sb.buffer)) && sb.Contents() == old(sb.Contents()) + PrintFields(f, d)
    decreases f, 1
  {
    ghost var was := sb.Contents();
    match f
    case NoFields =>
      assert was + [] == was;
    case Field(k, v, rest) =>
      StringifyPair(k, v, d, sb);
      if rest.Field? {
        sb.Append([0x2C]);
        StringifyFields(rest, d, sb);
        Commas(was, PrintPair(k, v, d), [0x2C], PrintFields(rest, d));
      } else {
        assert PrintPair(k, v, d) + [] == PrintPair(k, v, d);
      }
  }

  method StringifyPair(k: Key, v: Json, d: nat, sb: StringBuilder)
    requires sb.Valid()
    modifies sb, sb.buffer
    ensures sb.Valid() && (sb.buffer == old(sb.buffer) || fresh(sb.buffer)) && sb.Contents() == old(sb.Contents()) + PrintPair(k, v, d)
    decreases v, 1
  {
    ghost var was := sb.Contents();
    sb.AppendEscaped(k);
    sb.Append([0x3A]);
    Stringify(v, d, sb);
    Bracketed(was, Quoted(k, false), [0x3A], Print(v, d));
  }

  // ---------------------------------------------------------------- reading

  /** What a call gave, against what the function says: the cursor is only told on success. */
  ghost predicate Agrees<T>(r: Option<T>, ptr: nat, spec: Option<Parsed<T>>) {
    if spec.None? then r == None else r == Some(spec.value.value) && ptr == spec.value.next
  }

  class ParseContext {
    const text: bytes
    var ptr: nat
    var depth: nat

    constructor (text: bytes)
      ensures this.text == text && ptr == 0 && depth == 0
    {
      this.text, ptr, depth := text, 0, 0;
    }

    method SkipBlanks()
      modifies this`ptr
      ensures ptr == SkipWs(text, old(ptr))
    {
      while IsSpace(ByteAt(text, ptr))
        invariant SkipWs(text, ptr) == SkipWs(text, old(ptr))
        decreases |text| - ptr
      {
        ptr := ptr + 1;
      }
    }

    /** The first loop of parse_string_raw. */
    method FindQuote(start: nat) returns (end: Option<nat>)
      ensures end == ScanEnd(text, start)
    {
      var i := start;
      while ByteAt(text, i) != 0 && ByteAt(text, i) != QUOTE
        invariant ScanEnd(text, i) == ScanEnd(text, start)
        decreases |text| - i
      {
        if ByteAt(text, i) == BACKSLASH && ByteAt(text, i + 1) != 0 {
          i := i + 2;
        } else {
          if ByteAt(text, i) <= 0x1F {
            return None;
          }
          i := i + 1;
        }
      }
      end := if ByteAt(text, i) == QUOTE then Some(i) else None;
    }

    /** The second loop: the body is decoded into a buffer of three bytes for each of its own, and a NUL. */
    method DecodeBody(start: nat, end: nat) returns (r: Option<bytes>)
      requires start <= end <= |text|
      ensures r == Decode(text[start..end])
    {
      var str := new byte[3 * (end - start) + 1];
      var src, dst: nat := start, 0;
      ghost var goal := Decode(text[start..end]);
      ThenNothing(goal);
      while src < end
        invariant start <= src <= end && dst <= src - start && goal == Then(str[..dst], Decode(text[src..end]))
      {
        var ok;
        ok, src, dst := DecodeTurn(str, src, dst, end, goal);
        if !ok {
          return None;
        }
      }
      str[dst] := 0;
      assert text[src..end] == [] && str[..dst] + [] == str[..dst];
      r := Some(str[..dst]);
    }

    method DecodeTurn(str: array<byte>, src: nat, dst: nat, end: nat, ghost goal: Option<bytes>)
      returns (ok: bool, src': nat, dst': nat)
      requires src < end <= |text| && dst + (end - src) < str.Length && goal == Then(str[..dst], Decode(text[src..end]))
      modifies str
      ensures if !ok then goal == None else
              && src < src' <= end && dst <= dst' <= dst + (src' - src)
              && goal == Then(str[..dst'], Decode(text[src'..end]))
    {
      ghost var a := str[..dst];
      var s := ReadAt(a, src, end, goal);
      if s.Bad? {
        return false, src, dst;
      }
      Extend(str, dst, s.out);
      ok, src', dst' := true, src + s.n, dst + |s.out|;
      assert str[..dst'] == a + s.out;
    }

    /** What is read at `src`, and what that leaves to decode after the bytes `a`. */
    method ReadAt(ghost a: bytes, src: nat, end: nat, ghost goal: Option<bytes>) returns (s: Step)
      requires src < end <= |text| && goal == Then(a, Decode(text[src..end]))
      ensures match s
              case Bad => goal == None
              case Took(n, out) => 0 < n <= end - src && |out| <= n && goal == Then(a + out, Decode(text[src + n..end]))
    {
      s := ReadStep(text[src..end]);
      Decoded(a, text, src, end);
    }

    method ParseStringRaw() returns (r: Option<bytes>)
      modifies this`ptr
      ensures var spec := ParseString(text, old(ptr));
              if spec.None? then r == None else r == Some(spec.value.chars) && ptr == spec.value.next
    {
      var end := FindQuote(ptr + 1);
      if end.None? {
        return None;
      }
      r := DecodeBody(ptr + 1, end.value);
      if r.Some? {
        ptr := end.value + 1;
      }
    }

    method ReadNumber() returns (r: Option<Json>)
      requires ptr < |text|
      modifies this`ptr
      ensures Agrees(r, ptr, ParseNumber(text, old(ptr)))
    {
      var s := if text[ptr] == 0x2D then ptr + 1 else ptr;
      if ByteAt(text, s) == 0x30 && IsDigit(ByteAt(text, s + 1)) {
        return None;
      }
      var e, v := s, 0;
      while IsDigit(ByteAt(text, e))
        invariant s <= e <= |text| && DigitsEnd(text, e) == DigitsEnd(text, s) && v == DigitsValue(text, s, e)
        decreases |text| - e
      {
        v := 10 * v + (text[e] as int - 0x30);
        e := e + 1;
      }
      if e == s || !IsBoundary(ByteAt(text, e)) {
        return None;
      }
      r := Some(Num(if s > ptr then -v else v));
      ptr := e;
    }

    method ReadWord() returns (r: Option<Json>)
      modifies this`ptr
      ensures Agrees(r, ptr, ParseWord(text, old(ptr)))
    {
      if At(text, ptr, TRUE) && IsBoundary(ByteAt(text, ptr + 4)) {
        ptr, r := ptr + 4, Some(Bool(true));
      } else if At(text, ptr, FALSE) && IsBoundary(ByteAt(text, ptr + 5)) {
        ptr, r := ptr + 5, Some(Bool(false));
      } else if At(text, ptr, NULL) && IsBoundary(ByteAt(text, ptr + 4)) {
        ptr, r := ptr + 4, Some(Null);
      } else {
        r := None;
      }
    }

    method ReadValue() returns (r: Option<Json>)
      modifies this
      ensures depth == old(depth) && Agrees(r, ptr, ParseValue(text, old(ptr), old(depth)))
      decreases |text| - ptr, 2
    {
      if depth > MAX_JSON_DEPTH {
        return None;
      }
      SkipBlanks();
      r := ReadToken();
    }

    method ReadToken() returns (r: Option<Json>)
      modifies this
      ensures depth == old(depth) && Agrees(r, ptr, ParseToken(text, old(ptr), old(depth)))
      decreases |text| - ptr, 1
    {
      var c := ByteAt(text, ptr);
      if c == 0 {
        r := None;
      } else if c == QUOTE {
        var s := ParseStringRaw();
        r := if s.None? then None else Some(Str(s.value));
      } else if c == 0x2D || IsDigit(c) {
        r := ReadNumber();
      } else if c == 0x7B {
        r := ReadObject();
      } else if c == 0x5B {
        r := ReadArray();
      } else {
        r := ReadWord();
      }
    }

    /** What both loops do after an element. */
    method NextElement(close: byte) returns (ok: bool)
      modifies this`ptr
      ensures var spec := AfterElement(text, old(ptr), close); ok == spec.Some? && (ok ==> ptr == spec.value)
    {
      SkipBlanks();
      if ByteAt(text, ptr) == 0x2C {
        ptr := ptr + 1;
        SkipBlanks();
        ok := ByteAt(text, ptr) != close;
      } else {
        ok := ByteAt(text, ptr) == close;
      }
    }

    method ReadArray() returns (r: Option<Json>)
      requires ByteAt(text, ptr) == 0x5B
      modifies this
      ensures depth == old(depth) && Agrees(r, ptr, ParseToken(text, old(ptr), old(depth)))
      decreases |text| - ptr, 0
    {
      ptr := ptr + 1;
      depth := depth + 1;
      ghost var start, d := ptr, depth;
      var list := NoItems;
      while ByteAt(text, ptr) != 0
        invariant start <= ptr && depth == d
        invariant ParseItems(text, start, d) == AddItems(list, ParseItems(text, ptr, d))
        decreases |text| - ptr
      {
        ghost var p := ptr;
        SkipBlanks();
        if ByteAt(text, ptr) == 0x5D {
          ptr := ptr + 1;
          depth := depth - 1;
          JoinNone(list);
          return Some(Arr(list));
        }
        var v := ReadValue();
        if v.None? {
          depth := depth - 1;
          return None;
        }
        var ok := NextElement(0x5D);
        if !ok {
          depth := depth - 1;
          return None;
        }
        JoinSnoc(list, v.value, ParseItems(text, ptr, d));
        list := Join(list, Item(v.value, NoItems));
      }
      depth := depth - 1;
      r := None;
    }

    /** Key, colon and value. */
    method ReadPair() returns (r: Option<Pair>)
      modifies this
      ensures depth == old(depth) && Agrees(r, ptr, ParsePair(text, old(ptr), old(depth)))
      decreases |text| - ptr, 3
    {
      if ByteAt(text, ptr) != QUOTE {
        return None;
      }
      var k := ParseStringRaw();
      if k.None? {
        return None;
      }
      SkipBlanks();
      if ByteAt(text, ptr) != 0x3A {
        return None;
      }
      ptr := ptr + 1;
      var v := ReadValue();
      r := if v.None? then None else Some(Pair(CString(k.value), v.value));
    }

    method ReadObject() returns (r: Option<Json>)
      requires ByteAt(text, ptr) == 0x7B
      modifies this
      ensures depth == old(depth) && Agrees(r, ptr, ParseToken(text, old(ptr), old(depth)))
      decreases |text| - ptr, 0
    {
      ptr := ptr + 1;
      depth := depth + 1;
      ghost var start, d := ptr, depth;
      var map_ := NoFields;
      while ByteAt(text, ptr) != 0
        invariant start <= ptr && depth == d
        invariant ParseFields(text, start, d, NoFields) == ParseFields(text, ptr, d, map_)
        decreases |text| - ptr
      {
        SkipBlanks();
        if ByteAt(text, ptr) == 0x7D {
          ptr := ptr + 1;
          depth := depth - 1;
          return Some(Obj(map_));
        }
        var kv := ReadPair();
        if kv.None? {
          depth := depth - 1;
          return None;
        }
        var ok := NextElement(0x7D);
        if !ok {
          depth := depth - 1;
          return None;
        }
        map_ := Put(map_, kv.value.key, kv.value.value);
      }
      depth := depth - 1;
      r := None;
    }
  }

  function Join(a: Items, b: Items): Items {
    if a.NoItems? then b else Item(a.head, Join(a.rest, b))
  }

  function AddItems(a: Items, rest: Option<Parsed<Items>>): Option<Parsed<Items>> {
    if rest.None? then None else Some(Parsed(Join(a, rest.value.value), rest.value.next))
  }

  lemma {:induction false} JoinNone(a: Items)
    ensures Join(a, NoItems) == a
  {
    if a.Item? { JoinNone(a.rest); }
  }

  lemma {:induction false} JoinItem(a: Items, v: Json, b: Items)
    ensures Join(Join(a, Item(v, NoItems)), b) == Join(a, Item(v, b))
  {
    if a.Item? { JoinItem(a.rest, v, b); }
  }

  lemma JoinSnoc(a: Items, v: Json, rest: Option<Parsed<Items>>)
    ensures rest.Some? ==> AddItems(Join(a, Item(v, NoItems)), rest) == AddItems(a, Some(Parsed(Item(v, rest.value.value), rest.value.next)))
  {
    if rest.Some? { JoinItem(a, v, rest.value.value); }
  }

  function Then(a: bytes, rest: Option<bytes>): Option<bytes> {
    if rest.None? then None else Some(a + rest.value)
  }

  lemma ThenNothing(goal: Option<bytes>)
    ensures Then([], goal) == goal
  {
    if goal.Some? { assert [] + goal.value == goal.value; }
  }

  /** One turn of the decoding loop. */
  lemma Decoded(a: bytes, text: bytes, src: nat, end: nat)
    requires src < end <= |text|
    ensures var s := DecodeStep(text[src..end]);
            Then(a, Decode(text[src..end])) == if s.Bad? then None else Then(a + s.out, Decode(text[src + s.n..end]))
  {
    var b := text[src..end];
    var s := DecodeStep(b);
    assert Decode(b) == DecodeMore(b);
    if s.Took? {
      assert b[s.n..] == text[src + s.n..end];
      var rest := Decode(b[s.n..]);
      if rest.Some? { Associates(a, s.out, rest.value); }
    }
  }
}
