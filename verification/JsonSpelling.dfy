/**
 What a string literal spells, told without the reader: a literal is a list of pieces, each a character that stands
 for itself, a backslash and a byte, or a code point written as its UTF-16 code units in hexadecimal (sections 7 and 8
 of RFC 8259, section 2.1 of RFC 2781).  parse_string_raw of src/json.c accepts exactly the texts of such lists.
 */
module JsonSpelling {
  import opened Common
  import opened JsonText

  // ---------------------------------------------------------------- code points in hexadecimal

  predicate Scalar(cp: nat) {
    cp <= 0x10FFFF && !(0xD800 <= cp <= 0xDFFF)
  }

  /** The digit `h`, of either case. */
  predicate Digit(c: byte, h: nat) {
    if h < 10 then c == 0x30 + h else h < 16 && (c == 0x41 + h - 10 || c == 0x61 + h - 10)
  }

  /** A code unit `u` as a backslash, the letter u and four digits. */
  predicate UnitText(u: nat, t: bytes) {
    && |t| == 6 && t[0] == BACKSLASH && t[1] == LETTER_U
    && u <= 0xFFFF && Digit(t[2], u / 0x1000) && Digit(t[3], u / 0x100 % 0x10) && Digit(t[4], u / 0x10 % 0x10) && Digit(t[5], u % 0x10)
  }

  /** The two code units of UTF-16 above the basic plane. */
  function High(cp: nat): nat
    requires 0xFFFF < cp <= 0x10FFFF
  {
    0xD800 + (cp - 0x10000) / 0x400
  }

  function Low(cp: nat): nat
    requires 0xFFFF < cp <= 0x10FFFF
  {
    0xDC00 + (cp - 0x10000) % 0x400
  }

  predicate PointText(cp: nat, t: bytes)
    requires cp <= 0x10FFFF
  {
    if cp <= 0xFFFF then UnitText(cp, t)
    else |t| == 12 && UnitText(High(cp), t[..6]) && UnitText(Low(cp), t[6..])
  }

  /** `out` is the UTF-8 character of code point `cp`. */
  predicate IsCharacter(out: bytes, cp: nat) {
    out != [] && CharLen(out) == |out| && CodePoint(out) == cp
  }

  // ---------------------------------------------------------------- reading four digits

  lemma DigitValue(c: byte, h: nat)
    ensures Digit(c, h) <==> HexValue(c) == h
  {
  }

  lemma Quarters(u: nat)
    ensures u / 0x100 == u / 0x10 / 0x10 && u / 0x1000 == u / 0x10 / 0x10 / 0x10
  {
  }

  lemma FourDigits(u: nat, h0: nat, h1: nat, h2: nat, h3: nat)
    requires h0 < 16 && h1 < 16 && h2 < 16 && h3 < 16
    ensures u == ((h0 * 16 + h1) * 16 + h2) * 16 + h3
       <==> u <= 0xFFFF && h0 == u / 0x1000 && h1 == u / 0x100 % 0x10 && h2 == u / 0x10 % 0x10 && h3 == u % 0x10
  {
    Quarters(u);
    var a := u / 0x10;
    var b := a / 0x10;
    var c := b / 0x10;
    assert u == a * 16 + u % 0x10 && a == b * 16 + a % 0x10 && b == c * 16 + b % 0x10;
    if u == ((h0 * 16 + h1) * 16 + h2) * 16 + h3 {
      assert a == (h0 * 16 + h1) * 16 + h2;
      assert b == h0 * 16 + h1;
      assert c == h0;
    }
  }

  /** The loop over the digits reads the code unit that was written, and nothing but code units. */
  lemma HexFourReads(b: bytes, i: nat, u: nat)
    requires 2 <= i && i + 4 <= |b| && b[i - 2] == BACKSLASH && b[i - 1] == LETTER_U
    ensures HexFour(b, i) == Some(u) <==> UnitText(u, b[i - 2..i + 4])
  {
    var t := b[i - 2..i + 4];
    assert t[2] == b[i] && t[3] == b[i + 1] && t[4] == b[i + 2] && t[5] == b[i + 3];
    var h0, h1, h2, h3 := HexValue(b[i]), HexValue(b[i + 1]), HexValue(b[i + 2]), HexValue(b[i + 3]);
    DigitValue(b[i], u / 0x1000);
    DigitValue(b[i + 1], u / 0x100 % 0x10);
    DigitValue(b[i + 2], u / 0x10 % 0x10);
    DigitValue(b[i + 3], u % 0x10);
    if h0 >= 0 && h1 >= 0 && h2 >= 0 && h3 >= 0 { FourDigits(u, h0, h1, h2, h3); }
  }

  lemma Surrogates(cp: nat, hi: nat, lo: nat)
    requires 0xFFFF < cp <= 0x10FFFF && 0xD800 <= hi <= 0xDBFF && 0xDC00 <= lo <= 0xDFFF
    ensures cp == 0x10000 + (hi - 0xD800) * 0x400 + (lo - 0xDC00) <==> hi == High(cp) && lo == Low(cp)
  {
  }

  /** Every code point in either way of writing its digits is read as the character it is. */
  lemma PointReads(cp: nat, t: bytes, rest: bytes) returns (out: bytes)
    requires Scalar(cp) && PointText(cp, t)
    ensures DecodeStep(t + rest) == Took(|t|, out) && IsCharacter(out, cp)
  {
    var b := t + rest;
    out := Encode(cp);
    EncodeValue(cp);
    if cp <= 0xFFFF {
      assert b[0..6] == t;
      HexFourReads(b, 2, cp);
    } else {
      assert b[0..6] == t[..6] && b[6..12] == t[6..];
      assert b[6] == t[6..][0] && b[7] == t[6..][1];
      HexFourReads(b, 2, High(cp));
      HexFourReads(b, 8, Low(cp));
      Surrogates(cp, High(cp), Low(cp));
    }
  }

  /** So the text of a code point is, by itself, a body that decodes to that one character. */
  lemma PointDecodes(cp: nat, t: bytes)
    requires Scalar(cp) && PointText(cp, t)
    ensures Decode(t).Some? && IsCharacter(Decode(t).value, cp)
  {
    var out := PointReads(cp, t, []);
    DecodeFrom(t, [], out);
    assert t + [] == t && out + [] == out;
  }

  lemma UnitIsPoint(b: bytes, cp: nat)
    requires |b| >= 6 && b[0] == BACKSLASH && b[1] == LETTER_U && HexFour(b, 2) == Some(cp)
    ensures UnitText(cp, b[..6])
  {
    HexFourReads(b, 2, cp);
    assert b[..6] == b[0..6];
  }

  lemma PairText(cp: nat, t: bytes)
    requires 0xFFFF < cp <= 0x10FFFF && |t| == 12 && UnitText(High(cp), t[..6]) && UnitText(Low(cp), t[6..])
    ensures PointText(cp, t)
  {
  }

  lemma PairIsPoint(b: bytes, hi: nat, lo: nat, cp: nat)
    requires |b| >= 12 && b[0] == BACKSLASH && b[1] == LETTER_U && b[6] == BACKSLASH && b[7] == LETTER_U
    requires HexFour(b, 2) == Some(hi) && HexFour(b, 8) == Some(lo) && 0xD800 <= hi <= 0xDBFF && 0xDC00 <= lo <= 0xDFFF
    requires cp == 0x10000 + (hi - 0xD800) * 0x400 + (lo - 0xDC00)
    ensures 0xFFFF < cp <= 0x10FFFF && PointText(cp, b[..12])
  {
    var t := b[..12];
    assert UnitText(hi, t[..6]) by { UnitIsPoint(b, hi); assert t[..6] == b[..6]; }
    assert UnitText(lo, t[6..]) by { HexFourReads(b, 8, lo); assert t[6..] == b[6..12]; }
    Surrogates(cp, hi, lo);
    PairText(cp, t);
  }

  /** Whatever unicode escape is accepted is a code point so written. */
  lemma ReadIsPoint(b: bytes) returns (cp: nat)
    requires |b| > 1 && b[0] == BACKSLASH && b[1] == LETTER_U && UnicodeStep(b).Took?
    ensures Scalar(cp) && PointText(cp, b[..UnicodeStep(b).n]) && UnicodeStep(b).out == Encode(cp)
  {
    var hi := HexFour(b, 2).value;
    if 0xD800 <= hi <= 0xDBFF {
      var lo := HexFour(b, 8).value;
      cp := 0x10000 + (hi - 0xD800) * 0x400 + (lo - 0xDC00);
      PairIsPoint(b, hi, lo, cp);
    } else {
      cp := hi;
      UnitIsPoint(b, cp);
    }
  }

  // ---------------------------------------------------------------- pieces of a literal

  datatype Piece =
    | Itself(raw: bytes)
    | Backslashed(c: byte)
    | Point(cp: nat, text: bytes)

  /** A character of UTF-8 other than the backslash; a byte other than the letter u; a code point. */
  predicate Fair(p: Piece) {
    match p
    case Itself(c) => c != [] && CharLen(c) == |c| && c[0] != BACKSLASH
    case Backslashed(c) => c != LETTER_U
    case Point(cp, text) => Scalar(cp) && PointText(cp, text)
  }

  function Written(p: Piece): bytes {
    match p
    case Itself(c) => c
    case Backslashed(c) => [BACKSLASH, c]
    case Point(_, text) => text
  }

  /** The letters b, f, n, r and t stand for control characters, and every other byte for itself. */
  const CONTROLS: map<int, byte> := map[0x62 := 8, 0x66 := 12, 0x6E := 10, 0x72 := 13, 0x74 := 9]

  predicate StandsFor(p: Piece, out: bytes) {
    match p
    case Itself(c) => out == c
    case Backslashed(c) => out == [if c in CONTROLS then CONTROLS[c] else c]
    case Point(cp, _) => IsCharacter(out, cp)
  }

  predicate AllFair(ps: seq<Piece>) {
    forall i :: 0 <= i < |ps| ==> Fair(ps[i])
  }

  predicate AllStand(ps: seq<Piece>, outs: seq<bytes>) {
    |outs| == |ps| && forall i :: 0 <= i < |ps| ==> StandsFor(ps[i], outs[i])
  }

  function Text(ps: seq<Piece>): bytes {
    if ps == [] then [] else Written(ps[0]) + Text(ps[1..])
  }

  function Joined(outs: seq<bytes>): bytes {
    if outs == [] then [] else outs[0] + Joined(outs[1..])
  }

  lemma PieceReads(p: Piece, rest: bytes) returns (out: bytes)
    requires Fair(p)
    ensures Written(p) != [] && DecodeStep(Written(p) + rest) == Took(|Written(p)|, out) && StandsFor(p, out)
  {
    var b := Written(p) + rest;
    match p {
      case Itself(c) =>
        CharLenOfPrefix(c, rest);
        assert b[0] == c[0] && b[..|c|] == c;
        if c[0] >= 0x80 { RawLenIsCharLen(b); }
        out := c;
      case Backslashed(c) =>
        assert b[0] == BACKSLASH && b[1] == c;
        out := [Unescaped(c)];
      case Point(cp, text) =>
        out := PointReads(cp, text, rest);
    }
  }

  lemma ReadIsPiece(b: bytes) returns (p: Piece)
    requires b != [] && DecodeStep(b).Took?
    ensures Fair(p) && Written(p) == b[..DecodeStep(b).n] && StandsFor(p, DecodeStep(b).out)
  {
    var n := DecodeStep(b).n;
    if b[0] == BACKSLASH {
      if b[1] == LETTER_U {
        var cp := ReadIsPoint(b);
        EncodeValue(cp);
        p := Point(cp, b[..n]);
      } else {
        p := Backslashed(b[1]);
      }
    } else {
      if b[0] >= 0x80 { RawLenIsCharLen(b); }
      CharLenSelf(b, n);
      p := Itself(b[..n]);
    }
  }

  lemma RestFair(ps: seq<Piece>)
    requires AllFair(ps) && ps != []
    ensures Fair(ps[0]) && AllFair(ps[1..])
  {
  }

  lemma MoreStand(p: Piece, ps: seq<Piece>, out: bytes, outs: seq<bytes>)
    requires StandsFor(p, out) && AllStand(ps, outs)
    ensures AllStand([p] + ps, [out] + outs) && Joined([out] + outs) == out + Joined(outs) && Text([p] + ps) == Written(p) + Text(ps)
  {
    assert ([p] + ps)[1..] == ps && ([out] + outs)[1..] == outs;
  }

  /** The text of any list of pieces is accepted, and read as what the pieces stand for, in order. */
  lemma {:induction false} SpelledIsRead(ps: seq<Piece>) returns (outs: seq<bytes>)
    requires AllFair(ps)
    ensures AllStand(ps, outs) && Decode(Text(ps)) == Some(Joined(outs))
    decreases |ps|
  {
    if ps == [] {
      outs := [];
    } else {
      RestFair(ps);
      var rest := SpelledIsRead(ps[1..]);
      var out := PieceReads(ps[0], Text(ps[1..]));
      DecodeFrom(Written(ps[0]), Text(ps[1..]), out);
      MoreStand(ps[0], ps[1..], out, rest);
      assert [ps[0]] + ps[1..] == ps;
      outs := [out] + rest;
    }
  }

  /** And whatever is accepted is the text of a list of pieces. */
  lemma {:induction false} ReadIsSpelled(b: bytes) returns (ps: seq<Piece>, outs: seq<bytes>)
    requires Decode(b).Some?
    ensures AllFair(ps) && Text(ps) == b && AllStand(ps, outs) && Decode(b).value == Joined(outs)
    decreases |b|
  {
    if b == [] {
      ps, outs := [], [];
    } else {
      var s := Decodes(b);
      var p := ReadIsPiece(b);
      var qs, rest := ReadIsSpelled(b[s.n..]);
      MoreStand(p, qs, s.out, rest);
      MoreFair(p, qs);
      ps, outs := [p] + qs, [s.out] + rest;
    }
  }

  /** One turn of the second loop of parse_string_raw that went well. */
  lemma Decodes(b: bytes) returns (s: Step)
    requires b != [] && Decode(b).Some?
    ensures s == DecodeStep(b) && s.Took? && b == b[..s.n] + b[s.n..] && s.n > 0
    ensures Decode(b[s.n..]).Some? && Decode(b).value == s.out + Decode(b[s.n..]).value
  {
    s := DecodeStep(b);
    assert Decode(b) == DecodeMore(b);
  }

  lemma MoreFair(p: Piece, ps: seq<Piece>)
    requires Fair(p) && AllFair(ps)
    ensures AllFair([p] + ps)
  {
  }

  // ---------------------------------------------------------------- the whole literal

  /** What may stand between the quotes: no quote and no control character by itself, and no NUL. */
  predicate Quotable(p: Piece) {
    match p
    case Itself(c) => c != [] && c[0] != QUOTE && c[0] > 0x1F
    case Backslashed(c) => c != 0
    case Point(_, _) => true
  }

  predicate AllQuotable(ps: seq<Piece>) {
    forall i :: 0 <= i < |ps| ==> Quotable(ps[i])
  }

  lemma CharTail(c: bytes, i: nat)
    requires c != [] && CharLen(c) == |c| && 0 < i < |c|
    ensures c[i] >= 0x80
  {
  }

  /** The scan passes over the bytes of a character. */
  lemma {:induction false} ScanChar(text: bytes, p: nat, c: bytes, i: nat)
    requires At(text, p, c) && c != [] && CharLen(c) == |c| && 0 < i <= |c|
    ensures ScanEnd(text, p + i) == ScanEnd(text, p + |c|)
    decreases |c| - i
  {
    if i < |c| {
      AtByte(text, p, c, i);
      CharTail(c, i);
      ScanChar(text, p, c, i + 1);
    }
  }

  lemma ScanUnit(text: bytes, p: nat, u: nat, t: bytes)
    requires UnitText(u, t) && At(text, p, t)
    ensures ScanEnd(text, p) == ScanEnd(text, p + 6)
  {
    DigitValue(t[2], u / 0x1000);
    DigitValue(t[3], u / 0x100 % 0x10);
    DigitValue(t[4], u / 0x10 % 0x10);
    DigitValue(t[5], u % 0x10);
    ScanHex(text, p, t);
  }

  lemma ScanPoint(text: bytes, p: nat, cp: nat, t: bytes)
    requires Scalar(cp) && PointText(cp, t) && At(text, p, t)
    ensures ScanEnd(text, p) == ScanEnd(text, p + |t|)
  {
    if cp <= 0xFFFF {
      ScanUnit(text, p, cp, t);
    } else {
      assert t == t[..6] + t[6..];
      AtSplit(text, p, t[..6], t[6..]);
      ScanUnit(text, p, High(cp), t[..6]);
      ScanUnit(text, p + 6, Low(cp), t[6..]);
    }
  }

  lemma ScanPiece(text: bytes, p: nat, piece: Piece)
    requires Fair(piece) && Quotable(piece) && At(text, p, Written(piece))
    ensures ScanEnd(text, p) == ScanEnd(text, p + |Written(piece)|)
  {
    match piece {
      case Itself(c) =>
        AtByte(text, p, c, 0);
        ScanChar(text, p, c, 1);
      case Backslashed(c) =>
        AtByte(text, p, [BACKSLASH, c], 0);
        AtByte(text, p, [BACKSLASH, c], 1);
      case Point(cp, t) => ScanPoint(text, p, cp, t);
    }
  }

  lemma {:induction false} ScanSpelled(text: bytes, p: nat, ps: seq<Piece>)
    requires AllFair(ps) && AllQuotable(ps) && At(text, p, Text(ps)) && ByteAt(text, p + |Text(ps)|) == QUOTE
    ensures ScanEnd(text, p) == Some(p + |Text(ps)|)
    decreases |ps|
  {
    if ps != [] {
      RestFair(ps);
      AtSplit(text, p, Written(ps[0]), Text(ps[1..]));
      ScanPiece(text, p, ps[0]);
      ScanSpelled(text, p + |Written(ps[0])|, ps[1..]);
    }
  }

  /** A literal between quotes, wherever it stands in the text, is read as what its pieces stand for. */
  lemma LiteralIsRead(text: bytes, p: nat, ps: seq<Piece>, body: bytes) returns (outs: seq<bytes>)
    requires AllFair(ps) && AllQuotable(ps) && body == Text(ps) && At(text, p, [QUOTE] + body + [QUOTE])
    ensures AllStand(ps, outs) && ParseString(text, p) == Some(Literal(Joined(outs), p + |body| + 2))
  {
    outs := SpelledIsRead(ps);
    LiteralEnds(text, p, ps, body);
    LiteralValue(text, p, body, Joined(outs));
  }

  lemma LiteralValue(text: bytes, p: nat, body: bytes, value: bytes)
    requires p + 1 + |body| < |text| && text[p + 1..p + 1 + |body|] == body && ScanEnd(text, p + 1) == Some(p + 1 + |body|)
    requires Decode(body) == Some(value)
    ensures ParseString(text, p) == Some(Literal(value, p + |body| + 2))
  {
    ParseScanned(text, p, body, true);
  }

  lemma LiteralEnds(text: bytes, p: nat, ps: seq<Piece>, body: bytes)
    requires AllFair(ps) && AllQuotable(ps) && body == Text(ps) && At(text, p, [QUOTE] + body + [QUOTE])
    ensures p + 1 + |body| < |text| && text[p + 1..p + 1 + |body|] == body && ScanEnd(text, p + 1) == Some(p + 1 + |body|)
  {
    QuotedParts(text, p, body);
    ScanSpelled(text, p + 1, ps);
  }

  lemma ScanStops(text: bytes, p: nat, piece: Piece)
    requires Fair(piece) && At(text, p, Written(piece)) && ScanEnd(text, p).Some? && p + |Written(piece)| <= ScanEnd(text, p).value
    ensures Quotable(piece)
  {
    match piece {
      case Itself(c) => AtByte(text, p, c, 0);
      case Backslashed(c) =>
        AtByte(text, p, [BACKSLASH, c], 0);
        AtByte(text, p, [BACKSLASH, c], 1);
      case Point(_, _) =>
    }
  }

  lemma {:induction false} ScannedIsQuotable(text: bytes, p: nat, ps: seq<Piece>)
    requires AllFair(ps) && At(text, p, Text(ps)) && ScanEnd(text, p) == Some(p + |Text(ps)|)
    ensures AllQuotable(ps)
    decreases |ps|
  {
    if ps != [] {
      RestFair(ps);
      AtSplit(text, p, Written(ps[0]), Text(ps[1..]));
      ScanStops(text, p, ps[0]);
      ScanPiece(text, p, ps[0]);
      ScannedIsQuotable(text, p + |Written(ps[0])|, ps[1..]);
    }
  }

  /** And every literal that is accepted is such a one. */
  lemma LiteralIsSpelled(text: bytes, p: nat) returns (ps: seq<Piece>, outs: seq<bytes>)
    requires ParseString(text, p).Some?
    ensures var lit := ParseString(text, p).value;
            && AllFair(ps) && AllQuotable(ps) && AllStand(ps, outs)
            && text[p + 1..lit.next] == Text(ps) + [QUOTE] && lit.chars == Joined(outs)
  {
    var end := ParseString(text, p).value.next - 1;
    ps, outs := ReadIsSpelled(text[p + 1..end]);
    AcceptedIsQuotable(text, p + 1, end, ps, Text(ps));
    AndQuote(text, p + 1, end);
  }

  lemma AndQuote(text: bytes, p: nat, end: nat)
    requires p <= end < |text| && text[end] == QUOTE
    ensures text[p..end + 1] == text[p..end] + [QUOTE]
  {
  }

  lemma AcceptedIsQuotable(text: bytes, p: nat, end: nat, ps: seq<Piece>, body: bytes)
    requires AllFair(ps) && p <= end <= |text| && text[p..end] == body == Text(ps) && ScanEnd(text, p) == Some(end)
    ensures AllQuotable(ps)
  {
    forall i | 0 <= i < |body| ensures text[p + i] == body[i] { assert text[p..end][i] == body[i]; }
    SameFrom(text, p, body, 0);
    ScannedIsQuotable(text, p, ps);
  }
}
