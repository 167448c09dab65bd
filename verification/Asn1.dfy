/**
 The BER codecs of src/asn1.c: definite lengths, INTEGER, the unsigned types of SNMP, OCTET STRING and OBJECT
 IDENTIFIER.  A decoder looks at the bytes from its cursor to the end of the buffer and tells how many it took.
 */
module Asn1 {
  import opened Common

  type bytes = seq<byte>

  const ASN1_INTEGER: byte := 0x02
  const ASN1_OCTET_STRING: byte := 0x04
  const ASN1_OBJECT_ID: byte := 0x06
  const ASN1_COUNTER32: byte := 0x41
  const ASN1_GAUGE32: byte := 0x42
  const ASN1_TIMETICKS: byte := 0x43

  const TWO32: nat := 0x1_0000_0000
  const TWO64: nat := 0x1_0000_0000_0000_0000

  datatype Taken<+T> = Taken(value: T, n: nat)

  // ---------------------------------------------------------------- big-endian numbers

  function Value(s: bytes): nat {
    if s == [] then 0 else 256 * Value(s[..|s| - 1]) + s[|s| - 1] as int
  }

  /** The shortest bytes for a number: none for zero, no leading zero otherwise. */
  function Bytes(n: nat): (s: bytes)
    ensures n > 0 ==> s != [] && s[0] != 0
    ensures n == 0 ==> s == []
  {
    if n == 0 then [] else
      var hi := Bytes(n / 256);
      assert n < 256 ==> n / 256 == 0;
      hi + [n % 256]
  }

  lemma {:induction false} ValueOfBytes(n: nat)
    ensures Value(Bytes(n)) == n
  {
    if n > 0 {
      ValueOfBytes(n / 256);
      assert Bytes(n)[..|Bytes(n)| - 1] == Bytes(n / 256);
    }
  }

  lemma Split256(q: nat, r: nat)
    requires r < 256
    ensures (256 * q + r) / 256 == q && (256 * q + r) % 256 == r
  {
  }

  lemma BytesStep(q: nat, r: byte)
    requires 256 * q + r > 0
    ensures Bytes(256 * q + r) == Bytes(q) + [r]
  {
    Split256(q, r);
  }

  lemma {:induction false} BytesOfValue(s: bytes)
    requires s == [] || s[0] != 0
    ensures Bytes(Value(s)) == s && (s != [] ==> Value(s) > 0)
    decreases |s|
  {
    if s != [] {
      var hi, lo := s[..|s| - 1], s[|s| - 1];
      BytesOfValue(hi);
      BytesStep(Value(hi), lo);
      assert s == hi + [lo];
    }
  }

  function Pow256(k: nat): nat { if k == 0 then 1 else 256 * Pow256(k - 1) }

  lemma {:induction false} ValueBound(s: bytes)
    ensures Value(s) < Pow256(|s|)
  {
    if s != [] { ValueBound(s[..|s| - 1]); }
  }

  lemma {:induction false} PowMonotone(j: nat, k: nat)
    requires j <= k
    ensures Pow256(j) <= Pow256(k)
    decreases k - j
  {
    if j < k { PowMonotone(j, k - 1); }
  }

  lemma PowSmall()
    ensures Pow256(8) == TWO64 && Pow256(7) * 256 == TWO64
  {
    assert Pow256(2) == 65536;
    assert Pow256(4) == TWO32 by { assert Pow256(3) == 256 * 65536; }
    assert Pow256(6) == 256 * Pow256(5);
  }

  lemma {:induction false} BytesSize(n: nat, k: nat)
    requires n < Pow256(k)
    ensures |Bytes(n)| <= k
  {
    if n > 0 { BytesSize(n / 256, k - 1); }
  }

  // ---------------------------------------------------------------- lengths, sections 8.1.3 and 10.1 of X.690

  /** asn1_encode_length of a size_t. */
  function EncodeLength(n: nat): bytes
    requires n < TWO64
  {
    if n < 128 then [n] else
      PowSmall();
      BytesSize(n, 8);
      [0x80 + |Bytes(n)|] + Bytes(n)
  }

  /** asn1_decode_length. */
  function DecodeLength(b: bytes): (r: Option<Taken<nat>>)
    ensures r.Some? ==> 0 < r.value.n <= |b|
  {
    if |b| < 1 then None
    else if b[0] < 128 then Some(Taken(b[0], 1))
    else if b[0] == 0x80 then None
    else
      var num := b[0] - 0x80;
      if num > 8 || num > |b| - 1 || (num > 1 && b[1] == 0) then None else
        var v := Value(b[1..1 + num]);
        if v < 128 then None else Some(Taken(v, 1 + num))
  }

  /** Every size_t is read back. */
  lemma LengthRoundTrip(n: nat, rest: bytes)
    requires n < TWO64
    ensures DecodeLength(EncodeLength(n) + rest) == Some(Taken(n, |EncodeLength(n)|))
  {
    if n >= 128 {
      var b, e := Bytes(n), EncodeLength(n);
      PowSmall();
      BytesSize(n, 8);
      assert (e + rest)[1..1 + |b|] == b;
      assert (e + rest)[0] == 0x80 + |b| && (e + rest)[1] == b[0];
      ValueOfBytes(n);
    }
  }

  /** Every accepted length is the one the encoder writes. */
  lemma LengthCanonical(b: bytes)
    requires DecodeLength(b).Some?
    ensures var t := DecodeLength(b).value;
            t.value < TWO64 && b[..t.n] == EncodeLength(t.value) && (t.n == 1 <==> t.value < 128)
  {
    if b[0] >= 128 {
      var num := b[0] - 0x80;
      var s := b[1..1 + num];
      assert num == 1 ==> Value(s) == s[0] as int by { if num == 1 { assert s[..0] == [] && Value(s[..0]) == 0; } }
      BytesOfValue(s);
      ValueBound(s);
      PowMonotone(num, 8);
      PowSmall();
      assert b[..1 + num] == [b[0]] + s;
    }
  }

  // ---------------------------------------------------------------- INTEGER, section 8.3 of X.690

  /** The value of two's-complement bytes. */
  function Signed(s: bytes): int
    requires s != []
  {
    if s[0] >= 128 then Value(s) - Pow256(|s|) else Value(s)
  }

  /** The first nine bits are all equal. */
  predicate Redundant(s: bytes) {
    |s| > 1 && ((s[0] == 0 && s[1] < 128) || (s[0] == 0xFF && s[1] >= 128))
  }

  /** The loop that skips redundant leading bytes. */
  function Strip(s: bytes): (r: bytes)
    requires s != []
    ensures r != [] && |r| <= |s| && !Redundant(r)
  {
    if Redundant(s) then Strip(s[1..]) else s
  }

  function Four(v: int): bytes {
    var u := v % TWO32;
    [u / 0x1000000, u / 0x10000 % 256, u / 0x100 % 256, u % 256]
  }

  predicate Int32(v: int) { -0x8000_0000 <= v < 0x8000_0000 }

  function EncodeInteger(v: int): bytes
    requires Int32(v)
  {
    var c := Strip(Four(v));
    [ASN1_INTEGER, |c|] + c
  }

  function DecodeInteger(b: bytes): (r: Option<Taken<int>>)
    ensures r.Some? ==> 0 < r.value.n <= |b|
  {
    if |b| < 1 || b[0] != ASN1_INTEGER then None else
      var l := DecodeLength(b[1..]);
      if l.None? || l.value.value == 0 || l.value.value > 4 || l.value.value > |b| - 1 - l.value.n then None else
        var start, end := 1 + l.value.n, 1 + l.value.n + l.value.value;
        if Redundant(b[start..end]) then None else Some(Taken(Signed(b[start..end]), end))
  }

  lemma ValueFour(s: bytes)
    requires 1 <= |s| <= 4
    ensures Pow256(|s|) == (if |s| == 1 then 256 else if |s| == 2 then 0x10000 else if |s| == 3 then 0x1000000 else TWO32)
    ensures |s| == 1 ==> Value(s) == s[0]
    ensures |s| == 2 ==> Value(s) == 256 * s[0] as int + s[1] as int
    ensures |s| == 3 ==> Value(s) == 0x10000 * s[0] as int + 256 * s[1] as int + s[2] as int
    ensures |s| == 4 ==> Value(s) == 0x1000000 * s[0] as int + 0x10000 * s[1] as int + 256 * s[2] as int + s[3] as int
  {
    assert Pow256(1) == 256 && Pow256(2) == 0x10000 && Pow256(3) == 0x1000000 by { assert Pow256(0) == 1; }
    if |s| >= 2 {
      ValueFour(s[..|s| - 1]);
    } else {
      assert s[..0] == [] && Value(s[..0]) == 0;
    }
  }

  lemma {:induction false} StripKeepsValue(s: bytes)
    requires 1 <= |s| <= 4
    ensures Signed(Strip(s)) == Signed(s)
    decreases |s|
  {
    if Redundant(s) {
      StripKeepsValue(s[1..]);
      ValueFour(s);
      ValueFour(s[1..]);
    }
  }

  lemma FourDigits(u: nat)
    requires u < TWO32
    ensures u == 0x1000000 * (u / 0x1000000) + 0x10000 * (u / 0x10000 % 256) + 256 * (u / 0x100 % 256) + u % 256
    ensures u / 0x1000000 < 256
  {
    var a, b := u / 0x100, u / 0x10000;
    assert b == a / 0x100 && u / 0x1000000 == b / 0x100;
    assert u == 256 * a + u % 256 && a == 256 * b + a % 256 && b == 256 * (b / 256) + b % 256;
  }

  lemma SignedFour(v: int)
    requires Int32(v)
    ensures Signed(Four(v)) == v
  {
    ValueFour(Four(v));
    FourDigits(v % TWO32);
  }

  /** Every int32 is read back. */
  lemma IntegerRoundTrip(v: int, rest: bytes)
    requires Int32(v)
    ensures DecodeInteger(EncodeInteger(v) + rest) == Some(Taken(v, |EncodeInteger(v)|))
  {
    var c, b := Strip(Four(v)), EncodeInteger(v) + rest;
    assert b[1..][0] == |c|;
    assert b[2..2 + |c|] == c;
    StripKeepsValue(Four(v));
    SignedFour(v);
  }

  /** Sign extension to four bytes. */
  function Extended(s: bytes): bytes
    requires 1 <= |s| <= 4
    decreases 4 - |s|
  {
    if |s| == 4 then s else Extended([if s[0] >= 128 then 0xFF else 0] + s)
  }

  lemma {:induction false} ExtendedStrips(s: bytes)
    requires 1 <= |s| <= 4
    ensures |Extended(s)| == 4 && Strip(Extended(s)) == Strip(s) && Signed(Extended(s)) == Signed(s)
    decreases 4 - |s|
  {
    if |s| < 4 {
      var t := [if s[0] >= 128 then 0xFF else 0] + s;
      assert t[1..] == s && Redundant(t);
      ExtendedStrips(t);
      ValueFour(s);
      ValueFour(t);
    }
  }

  lemma SplitFour(a: byte, b: byte, c: byte, d: byte)
    ensures var u := 0x1000000 * a as int + 0x10000 * b as int + 256 * c as int + d as int;
            0 <= u < TWO32 && u / 0x1000000 == a && u / 0x10000 % 256 == b && u / 0x100 % 256 == c && u % 256 == d
  {
    var x, y := 256 * a as int + b as int, 0x10000 * a as int + 256 * b as int + c as int;
    var u := 256 * y + d as int;
    Split256(y, d);
    Split256(x, c);
    Split256(a, b);
    assert u / 0x100 == y && u / 0x10000 == y / 0x100 && u / 0x1000000 == x / 0x100;
  }

  lemma FourIsUnique(s: bytes)
    requires |s| == 4
    ensures Int32(Signed(s)) && Four(Signed(s)) == s
  {
    ValueFour(s);
    SplitFour(s[0], s[1], s[2], s[3]);
    assert Signed(s) % TWO32 == Value(s);
  }

  /** Every accepted INTEGER is the one the encoder writes. */
  lemma IntegerCanonical(b: bytes)
    requires DecodeInteger(b).Some?
    ensures var t := DecodeInteger(b).value; Int32(t.value) && b[..t.n] == EncodeInteger(t.value)
  {
    LengthCanonical(b[1..]);
    var l := DecodeLength(b[1..]).value;
    var c := b[1 + l.n..1 + l.n + l.value];
    ExtendedStrips(c);
    FourIsUnique(Extended(c));
    assert b[..2 + l.value] == [b[0], b[1]] + c;
  }

  // ---------------------------------------------------------------- the unsigned types of SNMP

  predicate UnsignedTag(t: byte) { t == ASN1_COUNTER32 || t == ASN1_GAUGE32 || t == ASN1_TIMETICKS }

  /** The loop of asn1_encode_unsigned: a zero goes when the next byte has no sign bit. */
  function StripZeros(s: bytes): (r: bytes)
    requires s != []
    ensures r != [] && |r| <= |s|
    ensures s[0] < 128 ==> r[0] < 128 && !(|r| > 1 && r[0] == 0 && r[1] < 128)
  {
    if |s| > 1 && s[0] == 0 && s[1] < 128 then StripZeros(s[1..]) else s
  }

  function EncodeUnsigned(v: nat, tag: byte): bytes
    requires v < TWO32
  {
    var c := StripZeros([0] + Four(v));
    [tag, |c|] + c
  }

  function DecodeUnsigned(b: bytes): (r: Option<Taken<nat>>)
    ensures r.Some? ==> 0 < r.value.n <= |b|
  {
    if |b| < 1 || !UnsignedTag(b[0]) then None else
      var l := DecodeLength(b[1..]);
      if l.None? || l.value.value == 0 || l.value.value > 5 || l.value.value > |b| - 1 - l.value.n then None else
        var start, end := 1 + l.value.n, 1 + l.value.n + l.value.value;
        var c := b[start..end];
        if |c| > 1 && c[0] == 0 then
          if c[1] < 128 then None else Some(Taken(Value(c[1..]), end))
        else if |c| == 5 then None
        else Some(Taken(Value(c), end))
  }

  lemma ValueOfZero(s: bytes)
    requires 1 <= |s| <= 5 && s[0] == 0
    ensures Value(s) == Value(s[1..])
  {
    if |s| == 5 {
      ValueFour(s[1..]);
      ValueFour(s[..4]);
      assert Value(s) == 256 * Value(s[..4]) + s[4] as int;
    } else {
      ValueFour(s);
      if |s| > 1 { ValueFour(s[1..]); }
    }
  }

  lemma {:induction false} StripZerosKeepsValue(s: bytes)
    requires 1 <= |s| <= 5
    ensures Value(StripZeros(s)) == Value(s)
    decreases |s|
  {
    if |s| > 1 && s[0] == 0 && s[1] < 128 {
      ValueOfZero(s);
      StripZerosKeepsValue(s[1..]);
    }
  }

  lemma ValueOfFour(v: nat)
    requires v < TWO32
    ensures Value(Four(v)) == v
  {
    assert v % TWO32 == v;
    ValueFour(Four(v));
    FourDigits(v);
  }

  /** Every uint32 is read back. */
  lemma UnsignedRoundTrip(v: nat, tag: byte, rest: bytes)
    requires v < TWO32 && UnsignedTag(tag)
    ensures DecodeUnsigned(EncodeUnsigned(v, tag) + rest) == Some(Taken(v, |EncodeUnsigned(v, tag)|))
  {
    var five: bytes := [0] + Four(v);
    var c, b := StripZeros(five), EncodeUnsigned(v, tag) + rest;
    assert b[1..][0] == |c|;
    assert b[2..2 + |c|] == c;
    assert five[1..] == Four(v);
    ValueOfFour(v);
    ValueOfZero(five);
    StripZerosKeepsValue(five);
    if |c| > 1 && c[0] == 0 { ValueOfZero(c); }
  }

  /** An accepted unsigned value is below 2^32; its encoding is the encoder's exactly when no sign bit is set. */
  lemma UnsignedCanonical(b: bytes)
    requires DecodeUnsigned(b).Some?
    ensures var t := DecodeUnsigned(b).value;
            t.value < TWO32 && (b[..t.n] == EncodeUnsigned(t.value, b[0]) <==> b[2] < 128)
  {
    LengthCanonical(b[1..]);
    var l := DecodeLength(b[1..]).value;
    var c := b[2..2 + l.value];
    var t := DecodeUnsigned(b).value;
    assert b[..t.n] == [b[0], b[1]] + c && c[0] == b[2];
    var five: bytes := [0] + Four(t.value);
    if c[0] == 0 { ValueOfZero(c); }
    UnsignedContent(c, t.value);
    assert EncodeUnsigned(t.value, b[0])[2..] == StripZeros(five);
    assert ([b[0], b[1]] + c)[2..] == c;
  }

  /** The value 128 is also taken from one byte with its sign bit set; the encoder writes two. */
  lemma SignBitIsTaken()
    ensures DecodeUnsigned([0x42, 1, 0x80]) == Some(Taken(128, 3)) && EncodeUnsigned(128, 0x42) == [0x42, 2, 0, 0x80]
  {
    var b: bytes := [0x42, 1, 0x80];
    var c: bytes := [0x80];
    assert b[1..] == [1, 0x80] && b[2..3] == c && c[..0] == [];
    assert Value(c) == 128;
    var z: bytes := [0, 0, 0, 0, 0x80];
    assert [0] + Four(128) == z;
    assert z[1..] == [0, 0, 0, 0x80] && z[1..][1..] == [0, 0, 0x80] && z[1..][1..][1..] == [0, 0x80];
    assert StripZeros(z) == StripZeros(z[1..][1..][1..]);
  }

  /** The content bytes: `c` stands for `v`. */
  lemma UnsignedContent(c: bytes, v: nat)
    requires 1 <= |c| <= 5 && v == Value(c) && !(|c| > 1 && c[0] == 0 && c[1] < 128) && (|c| == 5 ==> c[0] == 0)
    ensures v < TWO32 && (StripZeros([0] + Four(v)) == c <==> c[0] < 128)
  {
    WidenedIs(c);
    FourOfFive(Widened(c));
  }

  lemma FourOfFive(five: bytes)
    requires |five| == 5 && five[0] == 0
    ensures Value(five) < TWO32 && [0] + Four(Value(five)) == five
  {
    ValueOfZero(five);
    ValueFour(five[1..]);
    SplitFour(five[1], five[2], five[3], five[4]);
    assert Value(five) % TWO32 == Value(five);
    assert Four(Value(five)) == five[1..];
  }

  /** Zeros in front, up to five bytes. */
  function Widened(s: bytes): (r: bytes)
    requires 1 <= |s| <= 5
    ensures |r| == 5 && (|s| < 5 ==> r[0] == 0) && (|s| == 5 ==> r == s)
    decreases 5 - |s|
  {
    if |s| == 5 then s else Widened([0] + s)
  }

  lemma {:induction false} WidenedIs(s: bytes)
    requires 1 <= |s| <= 5 && (|s| == 5 ==> s[0] == 0)
    ensures Value(Widened(s)) == Value(s) && Widened(s)[0] == 0
    ensures !(|s| > 1 && s[0] == 0 && s[1] < 128) && s[0] < 128 ==> StripZeros(Widened(s)) == s
    ensures |s| < 5 && s[0] >= 128 ==> StripZeros(Widened(s)) == [0] + s
    ensures |s| > 1 && s[0] == 0 && s[1] < 128 ==> StripZeros(Widened(s)) == StripZeros(s)
    decreases 5 - |s|
  {
    if |s| < 5 {
      var t: bytes := [0] + s;
      assert t[1..] == s;
      WidenedIs(t);
      ValueOfZero(t);
    }
  }

  // ---------------------------------------------------------------- OCTET STRING

  function EncodeString(s: bytes): bytes
    requires |s| < TWO64
  {
    [ASN1_OCTET_STRING] + EncodeLength(|s|) + s
  }

  /** asn1_decode_string into a buffer of `max` bytes, one of them for the NUL: longer contents are cut. */
  function DecodeString(b: bytes, max: nat): (r: Option<Taken<bytes>>)
    ensures r.Some? ==> 0 < r.value.n <= |b|
  {
    if |b| < 1 || max == 0 || b[0] != ASN1_OCTET_STRING then None else
      var l := DecodeLength(b[1..]);
      if l.None? || l.value.value > |b| - 1 - l.value.n then None else
        var start, end := 1 + l.value.n, 1 + l.value.n + l.value.value;
        Some(Taken(if l.value.value < max - 1 then b[start..end] else b[start..start + max - 1], end))
  }

  lemma StringParts(e: bytes, s: bytes, rest: bytes)
    ensures var b := [ASN1_OCTET_STRING] + e + s + rest; b[1..] == e + (s + rest) && b[1 + |e|..1 + |e| + |s|] == s
  {
  }

  lemma StringRoundTrip(s: bytes, max: nat, rest: bytes)
    requires |s| < TWO64 && |s| < max
    ensures DecodeString(EncodeString(s) + rest, max) == Some(Taken(s, |EncodeString(s)|))
  {
    var e, b := EncodeLength(|s|), EncodeString(s) + rest;
    LengthRoundTrip(|s|, s + rest);
    StringParts(e, s, rest);
  }

  /** Every accepted string that fits its buffer is the one the encoder writes. */
  lemma StringCanonical(b: bytes, max: nat)
    requires DecodeString(b, max).Some?
    ensures var t := DecodeString(b, max).value; |t.value| + 1 < max ==> |t.value| < TWO64 && b[..t.n] == EncodeString(t.value)
  {
    LengthCanonical(b[1..]);
    var l, t := DecodeLength(b[1..]).value, DecodeString(b, max).value;
    if |t.value| + 1 < max {
      assert b[..t.n] == [b[0]] + b[1..][..l.n] + t.value;
    }
  }
}
