/**
 String literals of src/json.c and the escapers that write them: sb_append_escaped of the JSON printer and
 json_escape of src/http_request_builder.c.  Text is a list of bytes; strings inside values are UTF-8.
 */
module JsonText {
  import opened Common

  type bytes = seq<byte>

  const QUOTE: byte := 0x22
  const BACKSLASH: byte := 0x5C
  const LETTER_U: byte := 0x75

  /** A byte of a NUL-terminated text. */
  function ByteAt(text: bytes, p: nat): byte {
    if p < |text| then text[p] else 0
  }

  // ---------------------------------------------------------------- UTF-8, section 4 of RFC 3629

  predicate Tail(b: int) { 0x80 <= b <= 0xBF }

  predicate Utf8Two(s: bytes) { |s| >= 2 && 0xC2 <= s[0] <= 0xDF && Tail(s[1]) }

  predicate Utf8Three(s: bytes) {
    |s| >= 3 && Tail(s[1]) && Tail(s[2])
    && (if s[0] == 0xE0 then 0xA0 <= s[1] else if s[0] == 0xED then s[1] <= 0x9F else 0xE1 <= s[0] <= 0xEF)
  }

  predicate Utf8Four(s: bytes) {
    |s| >= 4 && Tail(s[1]) && Tail(s[2]) && Tail(s[3])
    && (if s[0] == 0xF0 then 0x90 <= s[1] else if s[0] == 0xF4 then s[1] <= 0x8F else 0xF1 <= s[0] <= 0xF3)
  }

  /** The length of the character that `s` starts with, or 0 when it starts with none. */
  function CharLen(s: bytes): (n: nat)
    ensures n <= |s| && n <= 4
  {
    if s == [] then 0
    else if s[0] < 0x80 then 1
    else if Utf8Two(s) then 2
    else if Utf8Three(s) then 3
    else if Utf8Four(s) then 4
    else 0
  }

  predicate WellFormed(s: bytes) {
    s == [] || (CharLen(s) > 0 && WellFormed(s[CharLen(s)..]))
  }

  // ---------------------------------------------------------------- reading a literal

  /** The first loop of parse_string_raw: the closing quote, or nothing. */
  function ScanEnd(text: bytes, i: nat): (r: Option<nat>)
    ensures r.Some? ==> i <= r.value < |text| && text[r.value] == QUOTE
    decreases |text| - i
  {
    var c := ByteAt(text, i);
    if c == 0 then None
    else if c == QUOTE then Some(i)
    else if c == BACKSLASH && ByteAt(text, i + 1) != 0 then ScanEnd(text, i + 2)
    else if c <= 0x1F then None
    else ScanEnd(text, i + 1)
  }

  function HexValue(c: byte): (h: int)
    ensures -1 <= h < 16
  {
    if 0x30 <= c <= 0x39 then c - 0x30
    else if 0x61 <= c <= 0x66 then c - 0x61 + 10
    else if 0x41 <= c <= 0x46 then c - 0x41 + 10
    else -1
  }

  function HexFour(b: bytes, i: nat): (r: Option<nat>)
    ensures r.Some? ==> r.value <= 0xFFFF && i + 4 <= |b|
  {
    if i + 4 > |b| then None else
      var h0, h1, h2, h3 := HexValue(b[i]), HexValue(b[i + 1]), HexValue(b[i + 2]), HexValue(b[i + 3]);
      if h0 < 0 || h1 < 0 || h2 < 0 || h3 < 0 then None else Some(((h0 * 16 + h1) * 16 + h2) * 16 + h3)
  }

  /** A code point as UTF-8. */
  function Encode(cp: nat): (r: bytes)
    requires cp <= 0x10FFFF
    ensures 0 < |r| <= 4 && (cp <= 0xFFFF ==> |r| <= 3)
  {
    if cp <= 0x7F then [cp]
    else if cp <= 0x7FF then [0xC0 + cp / 0x40, 0x80 + cp % 0x40]
    else if cp <= 0xFFFF then [0xE0 + cp / 0x1000, 0x80 + cp / 0x40 % 0x40, 0x80 + cp % 0x40]
    else [0xF0 + cp / 0x40000, 0x80 + cp / 0x1000 % 0x40, 0x80 + cp / 0x40 % 0x40, 0x80 + cp % 0x40]
  }

  /** What one turn of the second loop of parse_string_raw reads and writes. */
  datatype Step = Bad | Took(n: nat, out: bytes)

  /** A unicode escape; a high surrogate needs the low one right after it. */
  function UnicodeStep(b: bytes): (r: Step)
    ensures r.Took? ==> 0 < r.n <= |b| && 0 < |r.out| <= r.n
  {
    var hi := HexFour(b, 2);
    if hi.None? then Bad
    else if 0xD800 <= hi.value <= 0xDBFF then
      if |b| >= 12 && b[6] == BACKSLASH && b[7] == LETTER_U then
        var lo := HexFour(b, 8);
        if lo.None? || lo.value < 0xDC00 || lo.value > 0xDFFF then Bad
        else Took(12, Encode(0x10000 + (hi.value - 0xD800) * 0x400 + (lo.value - 0xDC00)))
      else Bad
    else if 0xDC00 <= hi.value <= 0xDFFF then Bad
    else Took(6, Encode(hi.value))
  }

  function Unescaped(c: byte): byte {
    if c == 0x62 then 8
    else if c == 0x66 then 12
    else if c == 0x6E then 10
    else if c == 0x72 then 13
    else if c == 0x74 then 9
    else c
  }

  /** The checks on a byte outside ASCII: how many bytes are copied, 0 for an error. */
  function RawLen(b: bytes): (n: nat)
    requires b != [] && b[0] >= 0x80
    ensures n <= |b|
  {
    if b[0] / 0x20 == 6 then
      if |b| > 1 && (b[0] == 0xC0 || b[0] == 0xC1) then 0 else Continued(b, 2)
    else if b[0] / 0x10 == 14 then
      if |b| > 1 && b[0] == 0xE0 && b[1] < 0xA0 then 0
      else if |b| > 1 && b[0] == 0xED && b[1] >= 0xA0 then 0
      else Continued(b, 3)
    else if b[0] / 8 == 30 then
      if b[0] > 0xF4 then 0
      else if |b| > 1 && b[0] == 0xF0 && b[1] < 0x90 then 0
      else if |b| > 1 && b[0] == 0xF4 && b[1] >= 0x90 then 0
      else Continued(b, 4)
    else 0
  }

  function Continued(b: bytes, n: nat): (r: nat)
    requires 2 <= n <= 4
    ensures r <= |b|
  {
    if n > |b| || b[1] / 0x40 != 2 || (n > 2 && b[2] / 0x40 != 2) || (n > 3 && b[3] / 0x40 != 2) then 0 else n
  }

  /** The code point that a character of UTF-8 stands for. */
  function CodePoint(c: bytes): nat
    requires CharLen(c) == |c| > 0
  {
    if |c| == 1 then c[0]
    else if |c| == 2 then 0x40 * (c[0] as int - 0xC0) + c[1] as int - 0x80
    else if |c| == 3 then 0x1000 * (c[0] as int - 0xE0) + 0x40 * (c[1] as int - 0x80) + c[2] as int - 0x80
    else 0x40000 * (c[0] as int - 0xF0) + 0x1000 * (c[1] as int - 0x80) + 0x40 * (c[2] as int - 0x80) + c[3] as int - 0x80
  }

  /** The scan leaves no backslash without a byte after it. */
  function DecodeStep(b: bytes): (r: Step)
    requires b != []
    ensures r.Took? ==> 0 < r.n <= |b| && 0 < |r.out| <= r.n
  {
    if b[0] == BACKSLASH then
      if |b| == 1 then Bad
      else if b[1] == LETTER_U then UnicodeStep(b)
      else Took(2, [Unescaped(b[1])])
    else if b[0] >= 0x80 then
      var n := RawLen(b);
      if n == 0 then Bad else Took(n, b[..n])
    else Took(1, [b[0]])
  }

  function Decode(b: bytes): (r: Option<bytes>)
    ensures r.Some? ==> |r.value| <= |b|
    decreases |b|, 1
  {
    if b == [] then Some([]) else DecodeMore(b)
  }

  function DecodeMore(b: bytes): (r: Option<bytes>)
    requires b != []
    ensures r.Some? ==> |r.value| <= |b|
    decreases |b|, 0
  {
    var s := DecodeStep(b);
    if s.Bad? then None else
      var rest := Decode(b[s.n..]);
      if rest.None? then None else Some(s.out + rest.value)
  }

  datatype Literal = Literal(chars: bytes, next: nat)

  /** parse_string_raw at the opening quote `p`. */
  function ParseString(text: bytes, p: nat): (r: Option<Literal>)
    ensures r.Some? ==> p + 1 < r.value.next <= |text|
  {
    var end := ScanEnd(text, p + 1);
    if end.None? then None else
      var s := Decode(text[p + 1..end.value]);
      if s.None? then None else Some(Literal(s.value, end.value + 1))
  }

  // ---------------------------------------------------------------- the checks are those of the standard

  /** The parser takes exactly the UTF-8 characters of RFC 3629. */
  lemma RawLenIsCharLen(b: bytes)
    requires b != [] && b[0] >= 0x80
    ensures RawLen(b) == CharLen(b)
  {
  }

  lemma CharLenOfPrefix(c: bytes, rest: bytes)
    requires c != [] && CharLen(c) == |c|
    ensures CharLen(c + rest) == |c|
  {
    var s := c + rest;
    assert forall i :: 0 <= i < |c| ==> s[i] == c[i];
  }

  lemma EncodeThree(cp: nat)
    requires 0x7FF < cp <= 0xFFFF && !(0xD800 <= cp <= 0xDFFF)
    ensures CharLen(Encode(cp)) == 3
  {
  }

  lemma EncodeFour(cp: nat)
    requires 0xFFFF < cp <= 0x10FFFF
    ensures CharLen(Encode(cp)) == 4
  {
  }

  lemma EncodeIsChar(cp: nat)
    requires cp <= 0x10FFFF && !(0xD800 <= cp <= 0xDFFF)
    ensures CharLen(Encode(cp)) == |Encode(cp)|
  {
    if cp > 0xFFFF {
      EncodeFour(cp);
    } else if cp > 0x7FF {
      EncodeThree(cp);
    }
  }

  lemma SixBits(cp: nat)
    ensures cp == 0x40 * (cp / 0x40) + cp % 0x40 && cp / 0x40 == 0x40 * (cp / 0x1000) + cp / 0x40 % 0x40
    ensures cp / 0x1000 == 0x40 * (cp / 0x40000) + cp / 0x1000 % 0x40
  {
  }

  /** Encoding gives the one character that stands for the code point. */
  lemma EncodeValue(cp: nat)
    requires cp <= 0x10FFFF && !(0xD800 <= cp <= 0xDFFF)
    ensures CharLen(Encode(cp)) == |Encode(cp)| && CodePoint(Encode(cp)) == cp
  {
    EncodeIsChar(cp);
    SixBits(cp);
  }

  lemma UnicodeStepIsChar(b: bytes)
    ensures var s := UnicodeStep(b); s.Took? ==> CharLen(s.out) == |s.out|
  {
    var hi := HexFour(b, 2);
    if hi.Some? {
      if 0xD800 <= hi.value <= 0xDBFF {
        if |b| >= 12 {
          var lo := HexFour(b, 8);
          if lo.Some? && 0xDC00 <= lo.value <= 0xDFFF {
            EncodeIsChar(0x10000 + (hi.value - 0xD800) * 0x400 + (lo.value - 0xDC00));
          }
        }
      } else if hi.value < 0xDC00 || hi.value > 0xDFFF {
        EncodeIsChar(hi.value);
      }
    }
  }

  lemma CharLenSelf(b: bytes, n: nat)
    requires n == CharLen(b) && n > 0
    ensures CharLen(b[..n]) == n
  {
    assert forall i :: 0 <= i < n ==> b[..n][i] == b[i];
  }

  lemma StepIsChar(b: bytes)
    requires b != [] && (b[0] == BACKSLASH && |b| > 1 ==> b[1] < 0x80)
    ensures var s := DecodeStep(b); s.Took? ==> CharLen(s.out) == |s.out|
  {
    if b[0] == BACKSLASH {
      if |b| > 1 && b[1] == LETTER_U { UnicodeStepIsChar(b); }
    } else if b[0] >= 0x80 {
      RawLenIsCharLen(b);
      if CharLen(b) > 0 { CharLenSelf(b, CharLen(b)); }
    }
  }

  // ---------------------------------------------------------------- when a literal decodes to UTF-8

  /** A backslash before a byte outside ASCII, which parse_string_raw takes for that byte. */
  predicate RawEscape(b: bytes) {
    |b| > 1 && b[0] == BACKSLASH && b[1] >= 0x80
  }

  /** The text of a literal without the backslashes of its raw escapes. */
  function Strip(b: bytes): bytes {
    if b == [] then []
    else if b[0] == BACKSLASH && |b| > 1 then (if b[1] >= 0x80 then [b[1]] else [b[0], b[1]]) + Strip(b[2..])
    else [b[0]] + Strip(b[1..])
  }

  predicate Plain(a: bytes) {
    forall i :: 0 <= i < |a| ==> a[i] != BACKSLASH
  }

  lemma {:induction false} StripPlain(a: bytes, r: bytes)
    requires Plain(a)
    ensures Strip(a + r) == a + Strip(r)
  {
    if a == [] {
      assert a + r == r;
    } else {
      ConcatHead(a, r);
      StripPlain(a[1..], r);
      Associate([a[0]], a[1..], Strip(r));
      assert a == [a[0]] + a[1..];
    }
  }

  lemma StripPair(b: bytes)
    requires |b| > 1 && b[0] == BACKSLASH && b[1] < 0x80
    ensures Strip(b) == b[..2] + Strip(b[2..])
  {
  }

  lemma CutTwice(b: bytes, i: nat, j: nat)
    requires i <= j <= |b|
    ensures b[i..] == b[i..j] + b[j..] && b[..j] == b[..i] + b[i..j]
  {
  }

  lemma HexIsPlain(b: bytes, i: nat)
    requires HexDigits(b, i)
    ensures Plain(b[i..i + 4]) && AllAscii(b[i..i + 4])
  {
  }

  /** A pair and plain bytes after it. */
  lemma StripPairThen(b: bytes, n: nat)
    requires 2 <= n <= |b| && b[0] == BACKSLASH && b[1] < 0x80 && Plain(b[2..n])
    ensures Strip(b) == b[..n] + Strip(b[n..])
  {
    StripPair(b);
    CutTwice(b, 2, n);
    StripPlain(b[2..n], b[n..]);
    Associate(b[..2], b[2..n], Strip(b[n..]));
  }

  lemma AsciiConcat(a: bytes, b: bytes)
    requires AllAscii(a) && AllAscii(b)
    ensures AllAscii(a + b)
  {
  }

  lemma StripSix(b: bytes)
    requires |b| >= 6 && b[0] == BACKSLASH && b[1] < 0x80 && Plain(b[2..6]) && AllAscii(b[2..6])
    ensures Strip(b) == b[..6] + Strip(b[6..]) && AllAscii(b[..6])
  {
    StripPairThen(b, 6);
    CutTwice(b, 2, 6);
    AsciiConcat(b[..2], b[2..6]);
  }

  /** Four hexadecimal digits. */
  predicate HexDigits(b: bytes, i: nat) {
    i + 4 <= |b| && forall k :: i <= k < i + 4 ==> HexValue(b[k]) >= 0
  }

  lemma HexFourDigits(b: bytes, i: nat)
    requires HexFour(b, i).Some?
    ensures HexDigits(b, i)
  {
  }

  /** A unicode escape of six bytes stays as it is. */
  lemma StripHex(b: bytes)
    requires |b| >= 6 && b[0] == BACKSLASH && b[1] == LETTER_U && HexDigits(b, 2)
    ensures Strip(b) == b[..6] + Strip(b[6..]) && AllAscii(b[..6])
  {
    HexIsPlain(b, 2);
    StripSix(b);
  }

  lemma StripPrefix(b: bytes, n: nat)
    requires n <= |b| && Plain(b[..n])
    ensures Strip(b) == b[..n] + Strip(b[n..])
  {
    CutTwice(b, 0, n);
    StripPlain(b[..n], b[n..]);
  }

  lemma ShiftHex(b: bytes)
    requires |b| >= 12
    ensures (HexDigits(b, 8) ==> HexDigits(b[6..], 2)) && b[6..][..6] == b[6..12] && b[6..][6..] == b[12..]
  {
  }

  lemma StripSurrogates(b: bytes)
    requires |b| >= 12 && b[0] == BACKSLASH && b[1] == LETTER_U && b[6] == BACKSLASH && b[7] == LETTER_U
    requires HexDigits(b, 2) && HexDigits(b, 8)
    ensures Strip(b) == b[..12] + Strip(b[12..]) && AllAscii(b[..12])
  {
    StripHex(b);
    ShiftHex(b);
    StripHex(b[6..]);
    CutTwice(b, 6, 12);
    AsciiConcat(b[..6], b[6..12]);
    Associate(b[..6], b[6..12], Strip(b[12..]));
  }

  lemma StripUnicode(b: bytes)
    requires |b| > 1 && b[0] == BACKSLASH && b[1] == LETTER_U && UnicodeStep(b).Took?
    ensures var n := UnicodeStep(b).n; Strip(b) == b[..n] + Strip(b[n..]) && AllAscii(b[..n])
  {
    HexFourDigits(b, 2);
    if UnicodeStep(b).n == 12 {
      HexFourDigits(b, 8);
      StripSurrogates(b);
    } else {
      StripHex(b);
    }
  }

  lemma RawIsPlain(b: bytes, n: nat)
    requires b != [] && b[0] >= 0x80 && n == CharLen(b) && n > 0
    ensures Plain(b[..n])
  {
  }

  predicate AllAscii(a: bytes) {
    forall i :: 0 <= i < |a| ==> a[i] < 0x80
  }

  /** A step that is no raw escape keeps its text: some ASCII bytes, or one character. */
  lemma StripStep(b: bytes)
    requires b != [] && DecodeStep(b).Took? && !RawEscape(b)
    ensures var n := DecodeStep(b).n;
            Strip(b) == b[..n] + Strip(b[n..]) && (AllAscii(b[..n]) || CharLen(b[..n]) == n)
  {
    if b[0] == BACKSLASH {
      if b[1] == LETTER_U { StripUnicode(b); } else { StripPair(b); }
    } else if b[0] >= 0x80 {
      RawLenIsCharLen(b);
      RawIsPlain(b, CharLen(b));
      CharLenSelf(b, CharLen(b));
      StripPrefix(b, CharLen(b));
    } else {
      StripPrefix(b, 1);
    }
  }

  lemma WellFormedAfter(c: bytes, rest: bytes)
    requires c != [] && CharLen(c) == |c|
    ensures WellFormed(c + rest) <==> WellFormed(rest)
  {
    CharLenOfPrefix(c, rest);
    assert (c + rest)[|c|..] == rest;
  }

  lemma {:induction false} WellFormedAscii(a: bytes, rest: bytes)
    requires AllAscii(a)
    ensures WellFormed(a + rest) <==> WellFormed(rest)
  {
    if a == [] {
      assert a + rest == rest;
    } else {
      ConcatHead(a, rest);
      WellFormedAscii(a[1..], rest);
    }
  }

  /** How many raw escapes of continuation bytes the text starts with. */
  function TailEscapes(b: bytes): nat {
    if RawEscape(b) && Tail(b[1]) then 1 + TailEscapes(b[2..]) else 0
  }

  /** Up to there, what is decoded and the stripped text are the same; then neither goes on with a continuation byte. */
  ghost predicate SameTails(v: bytes, w: bytes, t: nat) {
    && t <= |v| && t <= |w| && v[..t] == w[..t] && (forall i :: 0 <= i < t ==> Tail(v[i]))
    && (t < |v| ==> !Tail(v[t])) && (t < |w| ==> !Tail(w[t]))
  }

  lemma NoTail(b: bytes)
    requires Decode(b).Some? && TailEscapes(b) == 0
    ensures SameTails(Decode(b).value, Strip(b), 0)
  {
    if b != [] {
      assert Decode(b) == DecodeMore(b);
      if RawEscape(b) {
        assert DecodeStep(b) == Took(2, [b[1]]);
      } else {
        StepIsChar(b);
        if b[0] != BACKSLASH && b[0] >= 0x80 { RawLenIsCharLen(b); }
      }
    }
  }

  lemma RawEscapeStep(b: bytes)
    requires RawEscape(b) && Decode(b).Some?
    ensures Decode(b[2..]).Some? && Decode(b).value == [b[1]] + Decode(b[2..]).value && Strip(b) == [b[1]] + Strip(b[2..])
  {
    assert Decode(b) == DecodeMore(b);
    assert DecodeStep(b) == Took(2, [b[1]]);
  }

  lemma SameTailsMore(c: byte, v: bytes, w: bytes, t: nat)
    requires SameTails(v, w, t) && Tail(c)
    ensures SameTails([c] + v, [c] + w, t + 1)
  {
    assert ([c] + v)[..t + 1] == [c] + v[..t] && ([c] + w)[..t + 1] == [c] + w[..t];
    forall i | 0 <= i < t + 1 ensures Tail(([c] + v)[i]) { }
  }

  lemma {:induction false} TailsAgree(b: bytes)
    requires Decode(b).Some?
    ensures SameTails(Decode(b).value, Strip(b), TailEscapes(b))
  {
    if TailEscapes(b) == 0 {
      NoTail(b);
    } else {
      RawEscapeStep(b);
      TailsAgree(b[2..]);
      SameTailsMore(b[1], Decode(b[2..]).value, Strip(b[2..]), TailEscapes(b[2..]));
    }
  }

  /** The first `k` of these escapes can be taken off. */
  lemma {:induction false} PeelTails(b: bytes, k: nat)
    requires Decode(b).Some? && k <= TailEscapes(b)
    ensures 2 * k <= |b| && k <= |Decode(b).value| && k <= |Strip(b)|
    ensures Decode(b[2 * k..]) == Some(Decode(b).value[k..]) && Strip(b[2 * k..]) == Strip(b)[k..]
    decreases k
  {
    if k > 0 {
      RawEscapeStep(b);
      PeelTails(b[2..], k - 1);
      assert b[2..][2 * (k - 1)..] == b[2 * k..];
      DropHead(b[1], Decode(b[2..]).value, k);
      DropHead(b[1], Strip(b[2..]), k);
    } else {
      assert b[0..] == b;
    }
  }

  lemma DropHead(c: byte, v: bytes, k: nat)
    requires 0 < k <= |v| + 1
    ensures ([c] + v)[k..] == v[k - 1..]
  {
  }

  lemma CharLenAgrees(h: byte, v: bytes, w: bytes, t: nat)
    requires SameTails(v, w, t) && h >= 0x80
    ensures CharLen([h] + v) == CharLen([h] + w) <= t + 1
  {
    assert forall i :: 0 <= i < t ==> v[i] == v[..t][i] && w[i] == w[..t][i];
  }

  /** After a raw escape, decoded bytes and stripped text start with the same character, or both with none. */
  lemma RawEscapeChar(b: bytes, n: nat)
    requires RawEscape(b) && Decode(b).Some? && n == CharLen(Decode(b).value)
    ensures CharLen(Strip(b)) == n && 2 * n <= |b| && n <= |Strip(b)|
    ensures n > 0 ==> Decode(b[2 * n..]) == Some(Decode(b).value[n..]) && Strip(b[2 * n..]) == Strip(b)[n..]
  {
    RawEscapeStep(b);
    var r := b[2..];
    TailsAgree(r);
    CharLenAgrees(b[1], Decode(r).value, Strip(r), TailEscapes(r));
    if n > 0 {
      PeelTails(r, n - 1);
      assert r[2 * (n - 1)..] == b[2 * n..];
      DropHead(b[1], Decode(r).value, n);
      DropHead(b[1], Strip(r), n);
    }
  }

  lemma OtherStep(b: bytes)
    requires b != [] && !RawEscape(b) && Decode(b).Some?
    ensures DecodeStep(b).Took?
    ensures var n := DecodeStep(b).n;
            && Decode(b[n..]).Some?
            && (WellFormed(Decode(b).value) <==> WellFormed(Decode(b[n..]).value))
            && (WellFormed(Strip(b)) <==> WellFormed(Strip(b[n..])))
  {
    assert Decode(b) == DecodeMore(b);
    var s := DecodeStep(b);
    StepIsChar(b);
    WellFormedAfter(s.out, Decode(b[s.n..]).value);
    StripStep(b);
    if AllAscii(b[..s.n]) {
      WellFormedAscii(b[..s.n], Strip(b[s.n..]));
    } else {
      WellFormedAfter(b[..s.n], Strip(b[s.n..]));
    }
  }

  /** What an accepted body decodes to is well-formed exactly when its text is, without the raw escapes' backslashes. */
  lemma {:induction false} DecodedIffStripped(b: bytes)
    requires Decode(b).Some?
    ensures WellFormed(Decode(b).value) <==> WellFormed(Strip(b))
    decreases |b|
  {
    if b == [] {
    } else if RawEscape(b) {
      var n := CharLen(Decode(b).value);
      RawEscapeStep(b);
      RawEscapeChar(b, n);
      if n > 0 { DecodedIffStripped(b[2 * n..]); }
    } else {
      OtherStep(b);
      DecodedIffStripped(b[DecodeStep(b).n..]);
    }
  }

  /** No raw escape: the escapes of section 7 of RFC 8259 are none. */
  predicate AsciiEscapes(b: bytes) {
    b != [] && !DecodeStep(b).Bad? ==> !RawEscape(b) && AsciiEscapes(b[DecodeStep(b).n..])
  }

  lemma {:induction false} NothingStripped(b: bytes)
    requires Decode(b).Some? && AsciiEscapes(b)
    ensures WellFormed(Strip(b))
    decreases |b|
  {
    if b != [] {
      OtherStep(b);
      NothingStripped(b[DecodeStep(b).n..]);
    }
  }

  /** Escapes before ASCII characters only: the decoded bytes are UTF-8, and no longer than the literal. */
  lemma DecodedIsWellFormed(b: bytes)
    requires Decode(b).Some? && AsciiEscapes(b)
    ensures WellFormed(Decode(b).value) && |Decode(b).value| <= |b|
  {
    DecodedIffStripped(b);
    NothingStripped(b);
  }

  /**
   An accepted literal: the bytes it stands for are no longer than its body, well-formed exactly when the stripped
   body is, and so whenever it uses only the escapes of section 7 of RFC 8259.
   */
  lemma LiteralIsUtf8Iff(text: bytes, p: nat)
    requires ParseString(text, p).Some?
    ensures var lit := ParseString(text, p).value;
            && var body := text[p + 1..lit.next - 1];
            && |lit.chars| <= |body|
            && (WellFormed(lit.chars) <==> WellFormed(Strip(body)))
            && (AsciiEscapes(body) ==> WellFormed(lit.chars))
  {
    var body := text[p + 1..ParseString(text, p).value.next - 1];
    DecodedIffStripped(body);
    if AsciiEscapes(body) { NothingStripped(body); }
  }

  /** Not every accepted literal does: a backslash before the byte 0x80 is accepted as that byte. */
  lemma RawEscapeIsNotUtf8()
    ensures Decode([BACKSLASH, 0x80]) == Some([0x80]) && !WellFormed([0x80])
  {
    var b: bytes := [BACKSLASH, 0x80];
    assert b[2..] == [];
    assert DecodeStep(b) == Took(2, [0x80]);
    assert Decode(b[2..]) == Some([]);
    assert Decode(b) == DecodeMore(b);
    var high: bytes := [0x80];
    assert high + [] == high && CharLen(high) == 0;
  }

  // ---------------------------------------------------------------- writing a literal

  /** How the printer, or json_escape when `unicode` holds, writes one byte. */
  function EscapeByte(c: byte, unicode: bool): (r: bytes)
    ensures r != []
  {
    if c == QUOTE || c == BACKSLASH then [BACKSLASH, c]
    else if c == 8 then [BACKSLASH, 0x62]
    else if c == 12 then [BACKSLASH, 0x66]
    else if c == 10 then [BACKSLASH, 0x6E]
    else if c == 13 then [BACKSLASH, 0x72]
    else if c == 9 then [BACKSLASH, 0x74]
    else if unicode && c < 0x20 then [BACKSLASH, LETTER_U, 0x30, 0x30, HexDigit(c / 16), HexDigit(c % 16)]
    else [c]
  }

  function HexDigit(h: nat): (c: byte)
    requires h < 16
    ensures HexValue(c) == h
  {
    if h < 10 then 0x30 + h else 0x61 + h - 10
  }

  /** sb_append_escaped and json_escape between the quotes. */
  function EscapeAll(s: bytes, unicode: bool): bytes {
    if s == [] then [] else EscapeByte(s[0], unicode) + EscapeAll(s[1..], unicode)
  }

  predicate Ascii(c: int) { c < 0x80 }

  /** A byte outside ASCII is written as it is; any other starts with an ASCII byte. */
  lemma EscapedHead(s: bytes, unicode: bool)
    requires s != []
    ensures var e := EscapeAll(s, unicode);
            e != [] && (Ascii(e[0]) <==> Ascii(s[0])) && (!Ascii(s[0]) ==> e == [s[0]] + EscapeAll(s[1..], unicode))
  {
    assert EscapeAll(s, unicode)[0] == EscapeByte(s[0], unicode)[0];
  }

  /** The first bytes that matter to UTF-8 are the same before and after escaping. */
  ghost predicate SameUpTo(s: bytes, e: bytes, n: nat)
    decreases n
  {
    n == 0 || (s == [] && (e == [])) || (s != [] && e != [] && (if Ascii(s[0]) then Ascii(e[0]) else s[0] == e[0] && SameUpTo(s[1..], e[1..], n - 1)))
  }

  lemma {:induction false} EscapedSame(s: bytes, unicode: bool, n: nat)
    ensures SameUpTo(s, EscapeAll(s, unicode), n)
    decreases n
  {
    if n > 0 && s != [] {
      EscapedHead(s, unicode);
      if !Ascii(s[0]) {
        assert EscapeAll(s, unicode)[1..] == EscapeAll(s[1..], unicode);
        EscapedSame(s[1..], unicode, n - 1);
      }
    }
  }

  lemma SameAfter(s: bytes, e: bytes, n: nat)
    requires n > 0 && SameUpTo(s, e, n) && s != [] && !Ascii(s[0])
    ensures e != [] && s[0] == e[0] && SameUpTo(s[1..], e[1..], n - 1)
  {
  }

  lemma SameHead(s: bytes, e: bytes, n: nat)
    requires n > 0 && SameUpTo(s, e, n)
    ensures (s == [] <==> e == []) && (s != [] && (!Ascii(s[0]) || !Ascii(e[0])) ==> s[0] == e[0])
    ensures s != [] ==> (Ascii(s[0]) <==> Ascii(e[0]))
  {
  }

  /** Escaping does not change which character outside ASCII the string starts with. */
  lemma EscapedCharLen(s: bytes, unicode: bool)
    requires s != [] && !Ascii(s[0])
    ensures CharLen(EscapeAll(s, unicode)) == CharLen(s)
  {
    var e := EscapeAll(s, unicode);
    EscapedSame(s, unicode, 4);
    SameHead(s, e, 4);
    SameAfter(s, e, 4);
    SameHead(s[1..], e[1..], 3);
    if |s| > 1 && !Ascii(s[1]) {
      SameAfter(s[1..], e[1..], 3);
      assert s[1..][1..] == s[2..] && e[1..][1..] == e[2..];
      SameHead(s[2..], e[2..], 2);
      if |s| > 2 && !Ascii(s[2]) {
        SameAfter(s[2..], e[2..], 2);
        assert s[2..][1..] == s[3..] && e[2..][1..] == e[3..];
        SameHead(s[3..], e[3..], 1);
      }
    }
  }

  lemma EscapedAscii(c: byte, unicode: bool, rest: bytes)
    requires 0 < c < 0x80
    ensures DecodeStep(EscapeByte(c, unicode) + rest) == Took(|EscapeByte(c, unicode)|, [c])
  {
    var e := EscapeByte(c, unicode);
    var b := e + rest;
    assert forall i :: 0 <= i < |e| ==> b[i] == e[i];
    if |e| == 6 {
      assert HexFour(b, 2) == Some(c);
      assert Encode(c) == [c];
    }
  }

  lemma DecodeFrom(e: bytes, rest: bytes, out: bytes)
    requires e != [] && DecodeStep(e + rest) == Took(|e|, out)
    ensures Decode(e + rest) == if Decode(rest).None? then None else Some(out + Decode(rest).value)
  {
    assert (e + rest)[|e|..] == rest;
    assert Decode(e + rest) == DecodeMore(e + rest);
  }

  lemma RunOfTail(s: bytes, n: nat)
    requires 0 < n <= |s|
    ensures [s[0]] + s[1..][..n - 1] == s[..n] && s[1..][n - 1..] == s[n..]
  {
  }

  lemma Associates(a: bytes, b: bytes, c: bytes)
    ensures a + (b + c) == a + b + c
  {
  }

  /** A run of bytes outside ASCII is written as it is. */
  lemma {:induction false} EscapedRun(s: bytes, unicode: bool, n: nat)
    requires n <= |s| && forall i :: 0 <= i < n ==> !Ascii(s[i])
    ensures EscapeAll(s, unicode) == s[..n] + EscapeAll(s[n..], unicode)
    decreases n
  {
    if n == 0 {
      assert s[0..] == s;
    } else {
      EscapedHead(s, unicode);
      EscapedRun(s[1..], unicode, n - 1);
      RunOfTail(s, n);
      Associates([s[0]], s[1..][..n - 1], EscapeAll(s[n..], unicode));
    }
  }

  /** A character outside ASCII has no ASCII byte. */
  lemma CharIsHigh(s: bytes)
    requires s != [] && !Ascii(s[0])
    ensures forall i :: 0 <= i < CharLen(s) ==> !Ascii(s[i])
  {
  }

  predicate NulFree(s: bytes) {
    forall i :: 0 <= i < |s| ==> s[i] != 0
  }

  /** Decoding undoes escaping exactly when the string is well-formed UTF-8, and fails otherwise. */
  lemma {:induction false} DecodeEscaped(s: bytes, unicode: bool)
    requires NulFree(s)
    ensures Decode(EscapeAll(s, unicode)) == if WellFormed(s) then Some(s) else None
    decreases |s|
  {
    if s != [] {
      if Ascii(s[0]) {
        var e, rest := EscapeByte(s[0], unicode), EscapeAll(s[1..], unicode);
        EscapedAscii(s[0], unicode, rest);
        DecodeFrom(e, rest, [s[0]]);
        DecodeEscaped(s[1..], unicode);
        assert [s[0]] + s[1..] == s;
      } else {
        DecodeEscapedHigh(s, unicode);
      }
    }
  }

  lemma DecodeStops(e: bytes)
    requires e != [] && DecodeStep(e).Bad?
    ensures Decode(e) == None
  {
    assert Decode(e) == DecodeMore(e);
  }

  lemma {:induction false} DecodeEscapedHigh(s: bytes, unicode: bool)
    requires NulFree(s) && s != [] && !Ascii(s[0])
    ensures Decode(EscapeAll(s, unicode)) == if WellFormed(s) then Some(s) else None
    decreases |s|, 1
  {
    HighStep(s, unicode);
    if CharLen(s) == 0 {
      DecodeStops(EscapeAll(s, unicode));
    } else {
      DecodeEscapedChar(s, unicode, CharLen(s), EscapeAll(s[CharLen(s)..], unicode));
    }
  }

  lemma WellFormedStep(s: bytes, n: nat)
    requires s != [] && n == CharLen(s) > 0
    ensures (WellFormed(s) <==> WellFormed(s[n..])) && s[..n] + s[n..] == s
  {
  }

  lemma {:induction false} DecodeEscapedChar(s: bytes, unicode: bool, n: nat, rest: bytes)
    requires NulFree(s) && s != [] && n == CharLen(s) > 0
    requires rest == EscapeAll(s[n..], unicode) && DecodeStep(s[..n] + rest) == Took(n, s[..n])
    ensures Decode(s[..n] + rest) == if WellFormed(s) then Some(s) else None
    decreases |s|, 0
  {
    DecodeEscaped(s[n..], unicode);
    WellFormedStep(s, n);
    DecodeFrom(s[..n], rest, s[..n]);
  }

  /** One turn of the loop on a byte outside ASCII takes the whole character, or fails. */
  lemma HighStep(s: bytes, unicode: bool)
    requires s != [] && !Ascii(s[0])
    ensures var n, e := CharLen(s), EscapeAll(s, unicode);
            && e != [] && e == s[..n] + EscapeAll(s[n..], unicode)
            && DecodeStep(e) == if n == 0 then Bad else Took(n, s[..n])
  {
    var n, e := CharLen(s), EscapeAll(s, unicode);
    EscapedHead(s, unicode);
    EscapedCharLen(s, unicode);
    RawLenIsCharLen(e);
    CharIsHigh(s);
    EscapedRun(s, unicode, n);
    assert (s[..n] + EscapeAll(s[n..], unicode))[..n] == s[..n];
  }

  // ---------------------------------------------------------------- finding the closing quote

  /** A control character that the printer writes raw. */
  predicate RawControl(c: int) {
    c < 0x20 && c != 8 && c != 9 && c != 10 && c != 12 && c != 13
  }

  predicate NoRawControl(s: bytes) {
    forall i :: 0 <= i < |s| ==> !RawControl(s[i])
  }

  /** `e` stands at place `p` of the text. */
  predicate At(text: bytes, p: nat, e: bytes) { Holds(text, p, e, 0) }

  /** Comparing byte by byte from place `i` of `e`. */
  predicate Holds(text: bytes, p: nat, e: bytes, i: nat)
    decreases |e| - i, 1
  {
    p + |e| <= |text| && Same(text, p, e, i)
  }

  predicate Same(text: bytes, p: nat, e: bytes, i: nat)
    requires p + |e| <= |text|
    decreases |e| - i, 0
  {
    i >= |e| || (text[p + i] == e[i] && Holds(text, p, e, i + 1))
  }

  lemma {:induction false} SameAt(text: bytes, p: nat, e: bytes, i: nat, j: nat)
    requires Holds(text, p, e, i) && i <= j < |e|
    ensures text[p + j] == e[j]
    decreases j - i
  {
    assert Same(text, p, e, i);
    if i < j { SameAt(text, p, e, i + 1, j); }
  }

  lemma {:induction false} SameFrom(text: bytes, p: nat, e: bytes, i: nat)
    requires p + |e| <= |text| && forall j :: i <= j < |e| ==> text[p + j] == e[j]
    ensures Holds(text, p, e, i)
    decreases |e| - i
  {
    if i < |e| { SameFrom(text, p, e, i + 1); }
    assert Same(text, p, e, i);
  }

  lemma AtByte(text: bytes, p: nat, e: bytes, i: nat)
    requires At(text, p, e) && i < |e|
    ensures text[p + i] == e[i]
  {
    SameAt(text, p, e, 0, i);
  }

  lemma AtSplit(text: bytes, p: nat, a: bytes, b: bytes)
    requires At(text, p, a + b)
    ensures At(text, p, a) && At(text, p + |a|, b)
  {
    forall i | 0 <= i < |a| ensures text[p + i] == a[i] { AtByte(text, p, a + b, i); }
    forall i | 0 <= i < |b| ensures text[p + |a| + i] == b[i] { AtByte(text, p, a + b, |a| + i); }
    SameFrom(text, p, a, 0);
    SameFrom(text, p + |a|, b, 0);
  }

  lemma AtSlice(text: bytes, p: nat, e: bytes)
    requires At(text, p, e)
    ensures text[p..p + |e|] == e
  {
    forall i | 0 <= i < |e| ensures text[p..p + |e|][i] == e[i] { AtByte(text, p, e, i); }
  }

  /** The scan passes over what one byte was written as, unless that is a raw control character. */
  lemma ScanByte(text: bytes, p: nat, c: byte, unicode: bool)
    requires c != 0 && At(text, p, EscapeByte(c, unicode))
    ensures ScanEnd(text, p) == if !unicode && RawControl(c) then None else ScanEnd(text, p + |EscapeByte(c, unicode)|)
  {
    var e := EscapeByte(c, unicode);
    AtByte(text, p, e, 0);
    if |e| > 1 { AtByte(text, p, e, 1); }
    if |e| == 6 { ScanHex(text, p, e); }
  }

  lemma ScanHex(text: bytes, p: nat, e: bytes)
    requires |e| == 6 && At(text, p, e) && e[0] == BACKSLASH && e[1] == LETTER_U
    requires HexValue(e[2]) >= 0 && HexValue(e[3]) >= 0 && HexValue(e[4]) >= 0 && HexValue(e[5]) >= 0
    ensures ScanEnd(text, p) == ScanEnd(text, p + 6)
  {
    AtByte(text, p, e, 0);
    AtByte(text, p, e, 1);
    AtByte(text, p, e, 2);
    AtByte(text, p, e, 3);
    AtByte(text, p, e, 4);
    AtByte(text, p, e, 5);
    assert ScanEnd(text, p) == ScanEnd(text, p + 2);
    assert ScanEnd(text, p + 2) == ScanEnd(text, p + 3);
    assert ScanEnd(text, p + 3) == ScanEnd(text, p + 4);
    assert ScanEnd(text, p + 4) == ScanEnd(text, p + 5);
    assert ScanEnd(text, p + 5) == ScanEnd(text, p + 6);
  }

  lemma {:induction false} ScanEscaped(text: bytes, p: nat, s: bytes, unicode: bool)
    requires NulFree(s) && At(text, p, EscapeAll(s, unicode)) && ByteAt(text, p + |EscapeAll(s, unicode)|) == QUOTE
    ensures ScanEnd(text, p) == if unicode || NoRawControl(s) then Some(p + |EscapeAll(s, unicode)|) else None
    decreases |s|
  {
    if s != [] {
      var e, rest := EscapeByte(s[0], unicode), EscapeAll(s[1..], unicode);
      AtSplit(text, p, e, rest);
      ScanByte(text, p, s[0], unicode);
      ScanEscaped(text, p + |e|, s[1..], unicode);
      assert NoRawControl(s) <==> !RawControl(s[0]) && NoRawControl(s[1..]) by {
        assert forall i :: 0 <= i < |s| ==> s[i] == if i == 0 then s[0] else s[1..][i - 1];
      }
    }
  }

  function Quoted(s: bytes, unicode: bool): bytes {
    [QUOTE] + EscapeAll(s, unicode) + [QUOTE]
  }

  lemma QuotedParts(text: bytes, p: nat, e: bytes)
    requires At(text, p, [QUOTE] + e + [QUOTE])
    ensures At(text, p + 1, e) && ByteAt(text, p + 1 + |e|) == QUOTE && p + 1 + |e| <= |text| && text[p + 1..p + 1 + |e|] == e
  {
    AtSplit(text, p, [QUOTE] + e, [QUOTE]);
    AtSplit(text, p, [QUOTE], e);
    AtByte(text, p + 1 + |e|, [QUOTE], 0);
    AtSlice(text, p + 1, e);
  }

  lemma ParseScanned(text: bytes, p: nat, e: bytes, closed: bool)
    requires p + 1 + |e| <= |text| && text[p + 1..p + 1 + |e|] == e
    requires ScanEnd(text, p + 1) == if closed then Some(p + 1 + |e|) else None
    ensures ParseString(text, p) == if closed && Decode(e).Some? then Some(Literal(Decode(e).value, p + |e| + 2)) else None
  {
  }

  /** What parse_string_raw makes of a literal that one of the two escapers wrote. */
  lemma ParseQuoted(text: bytes, p: nat, s: bytes, unicode: bool)
    requires NulFree(s) && At(text, p, Quoted(s, unicode))
    ensures ParseString(text, p)
         == if WellFormed(s) && (unicode || NoRawControl(s)) then Some(Literal(s, p + |Quoted(s, unicode)|)) else None
  {
    var e := EscapeAll(s, unicode);
    QuotedParts(text, p, e);
    ScanEscaped(text, p + 1, s, unicode);
    ParseScanned(text, p, e, unicode || NoRawControl(s));
    DecodeEscaped(s, unicode);
  }

  lemma AtSelf(text: bytes)
    ensures At(text, 0, text)
  {
    SameFrom(text, 0, text, 0);
  }

  /** parse_string_raw undoes json_escape on every NUL-free string of well-formed UTF-8, and on no other. */
  lemma JsonEscapeRoundTrip(s: bytes)
    requires NulFree(s)
    ensures ParseString(Quoted(s, true), 0) == if WellFormed(s) then Some(Literal(s, |Quoted(s, true)|)) else None
  {
    var text := Quoted(s, true);
    AtSelf(text);
    ParseQuoted(text, 0, s, true);
  }
}
