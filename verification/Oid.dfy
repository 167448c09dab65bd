/**
 Object identifiers: dotted text, arcs, and the base-128 encoding of section 8.19 of X.690, as src/asn1.c reads
 and writes them; then streams of encoded items.
 */
module Oid {
  import opened Common
  import opened Asn1

  type Arc = n: int | 0 <= n < 0x1_0000_0000

  // ---------------------------------------------------------------- dotted text

  predicate IsDigit(c: char) { '0' <= c <= '9' }

  function Decimal(n: nat): (s: string)
    ensures s != ""
  {
    if n < 10 then ['0' + n as char] else Decimal(n / 10) + ['0' + (n % 10) as char]
  }

  function Dotted(arcs: seq<Arc>): string {
    if arcs == [] then "" else Decimal(arcs[0]) + if |arcs| == 1 then "" else "." + Dotted(arcs[1..])
  }

  /** Where the digits from `i` on end, and their value: strtoul at a digit, with no upper limit. */
  function NumberEnd(s: string, i: nat): (e: nat)
    requires i <= |s|
    ensures i <= e <= |s| && (i < |s| && IsDigit(s[i]) ==> i < e)
    decreases |s| - i
  {
    if i < |s| && IsDigit(s[i]) then NumberEnd(s, i + 1) else i
  }

  function NumberValue(s: string, i: nat, e: nat): nat
    requires i <= e <= |s|
    decreases e
  {
    if i == e then 0 else 10 * NumberValue(s, i, e - 1) + DigitValue(s[e - 1])
  }

  function DigitValue(c: char): nat {
    if IsDigit(c) then c as int - '0' as int else 0
  }

  /** The loop of asn1_encode_oid over its text, with `count` arcs already read. */
  function ParseArcs(s: string, i: nat, count: nat): Option<seq<Arc>>
    requires i <= |s|
    decreases |s| - i
  {
    if i == |s| then Some([])
    else if count >= 128 || !IsDigit(s[i]) then None
    else AfterArc(s, NumberValue(s, i, NumberEnd(s, i)), NumberEnd(s, i), count)
  }

  /** The arc `v` has been read up to place `e`. */
  function AfterArc(s: string, v: nat, e: nat, count: nat): Option<seq<Arc>>
    requires e <= |s|
    decreases |s| - e
  {
    if v >= TWO32 then None
    else if e == |s| then Some([v])
    else if s[e] != '.' || e + 1 == |s| then None
    else
      var rest := ParseArcs(s, e + 1, count + 1);
      if rest.None? then None else Some([v] + rest.value)
  }

  // ---------------------------------------------------------------- base 128

  /** The bytes of a number that more bytes follow: the top bit of each is set. */
  function Leading(v: nat): (s: bytes)
    ensures s != []
  {
    if v < 128 then [128 + v] else Leading(v / 128) + [128 + v % 128]
  }

  function Base128(v: nat): (s: bytes)
    ensures s != []
  {
    if v < 128 then [v] else Leading(v / 128) + [v % 128]
  }

  predicate Acceptable(arcs: seq<Arc>) {
    |arcs| >= 2 && arcs[0] <= 2 && (arcs[0] < 2 ==> arcs[1] < 40)
  }

  function First(arcs: seq<Arc>): nat
    requires |arcs| >= 2
  {
    arcs[0] as int * 40 + arcs[1] as int
  }

  function Rest128(arcs: seq<Arc>): bytes {
    if arcs == [] then [] else Base128(arcs[0]) + Rest128(arcs[1..])
  }

  function Content(arcs: seq<Arc>): bytes
    requires |arcs| >= 2
  {
    Base128(First(arcs)) + Rest128(arcs[2..])
  }

  /** Five bytes must be free in the 512-byte buffer before each arc after the second. */
  predicate Roomy(used: nat, arcs: seq<Arc>)
    decreases |arcs|
  {
    arcs == [] || (used + 5 <= 512 && Roomy(used + |Base128(arcs[0])|, arcs[1..]))
  }

  /** asn1_encode_oid. */
  function EncodeOid(s: string): Option<bytes> {
    var p := ParseArcs(s, 0, 0);
    if p.None? || !Acceptable(p.value) || !Roomy(|Base128(First(p.value))|, p.value[2..]) then None else
      ArcSize(First(p.value));
      RoomySize(|Base128(First(p.value))|, p.value[2..]);
      Some(Tlv(p.value))
  }

  /** Tag, length and content. */
  function Tagged(c: bytes): bytes
    requires |c| < TWO64
  {
    [ASN1_OBJECT_ID] + EncodeLength(|c|) + c
  }

  function Tlv(arcs: seq<Arc>): bytes
    requires |arcs| >= 2 && |Content(arcs)| < TWO64
  {
    Tagged(Content(arcs))
  }

  /** The loop over the arcs after the first two: `val` and `n` are the value and the bytes of the arc being read. */
  function DecodeArcs(b: bytes, val: nat, n: nat, cap: nat): (r: Option<seq<Arc>>)
    requires val < TWO32
    decreases |b|
  {
    if b == [] then (if n == 0 then Some([]) else None)
    else if cap == 0 || n + 1 > 5 || val > 0x1FF_FFFF then None
    else
      var v := val * 128 + b[0] % 128;
      if b[0] >= 128 then DecodeArcs(b[1..], v, n + 1, cap)
      else
        var rest := DecodeArcs(b[1..], 0, 0, cap - 1);
        if rest.None? then None else Some([v] + rest.value)
  }

  /** The loop over the first two arcs, in 64 bits. */
  function DecodeFirst(b: bytes, val: nat): (r: Option<Taken<nat>>)
    ensures r.Some? ==> 0 < r.value.n <= |b|
    decreases |b|
  {
    if b == [] || val > 0x1FF_FFFF_FFFF_FFFF then None
    else
      var v := val * 128 + b[0] % 128;
      if b[0] < 128 then Some(Taken(v, 1)) else
        var rest := DecodeFirst(b[1..], v);
        if rest.None? then None else Some(Taken(rest.value.value, rest.value.n + 1))
  }

  function FirstTwo(v: nat): Option<seq<Arc>> {
    if v < 40 then Some([0, v])
    else if v < 80 then Some([1, v - 40])
    else if v - 80 < TWO32 then Some([2, v - 80])
    else None
  }

  function DecodeContent(c: bytes, cap: nat): Option<seq<Arc>>
    requires cap >= 2
  {
    var f := DecodeFirst(c, 0);
    if f.None? then None else
      var two := FirstTwo(f.value.value);
      if two.None? then None else
        var rest := DecodeArcs(c[f.value.n..], 0, 0, cap - 2);
        if rest.None? then None else Some(two.value + rest.value)
  }

  /** asn1_decode_oid into an array of `cap` arcs. */
  function DecodeOid(b: bytes, cap: nat): (r: Option<Taken<seq<Arc>>>)
    ensures r.Some? ==> 0 < r.value.n <= |b|
  {
    if cap < 2 || |b| < 1 || b[0] != ASN1_OBJECT_ID then None else
      var l := DecodeLength(b[1..]);
      if l.None? || l.value.value == 0 || l.value.value > |b| - 1 - l.value.n then None else
        var start, end := 1 + l.value.n, 1 + l.value.n + l.value.value;
        var arcs := DecodeContent(b[start..end], cap);
        if arcs.None? then None else Some(Taken(arcs.value, end))
  }

  // ---------------------------------------------------------------- sizes

  function Pow128(k: nat): nat { if k == 0 then 1 else 128 * Pow128(k - 1) }

  lemma {:induction false} LeadingSize(v: nat, k: nat)
    requires 0 < k && v < Pow128(k)
    ensures |Leading(v)| <= k
  {
    if v >= 128 {
      assert k > 1 by { assert Pow128(1) == 128; }
      LeadingSize(v / 128, k - 1);
    }
  }

  lemma BaseSize(v: nat, k: nat)
    requires 0 < k && v < Pow128(k)
    ensures |Base128(v)| <= k
  {
    if v >= 128 {
      assert k > 1 by { assert Pow128(1) == 128; }
      LeadingSize(v / 128, k - 1);
    }
  }

  /** Any arc, and any pair of first arcs, takes at most five bytes. */
  lemma ArcSize(v: nat)
    requires v < TWO32 + 80
    ensures |Base128(v)| <= 5
  {
    assert Pow128(5) == 0x8_0000_0000 by { assert Pow128(2) == 16384; assert Pow128(4) == 128 * (128 * 16384); }
    BaseSize(v, 5);
  }

  lemma {:induction false} RoomySize(used: nat, arcs: seq<Arc>)
    requires Roomy(used, arcs) && used <= 512
    ensures used + |Rest128(arcs)| <= 512
    decreases |arcs|
  {
    if arcs != [] {
      ArcSize(arcs[0]);
      RoomySize(used + |Base128(arcs[0])|, arcs[1..]);
    }
  }

  // ---------------------------------------------------------------- reading back

  /** After the leading bytes of a number the loop holds their value. */
  lemma {:induction false} LeadingRead(v: nat, rest: bytes, cap: nat)
    requires v < 0x200_0000 && cap > 0
    ensures |Leading(v)| <= 4 && DecodeArcs(Leading(v) + rest, 0, 0, cap) == DecodeArcs(rest, v, |Leading(v)|, cap)
    decreases v
  {
    assert Pow128(4) == 0x1000_0000 by { assert Pow128(2) == 16384; assert Pow128(4) == 128 * (128 * 16384); }
    LeadingSize(v, 4);
    if v < 128 {
      assert (Leading(v) + rest)[1..] == rest;
    } else {
      var last: bytes := [128 + v % 128];
      assert Leading(v) + rest == Leading(v / 128) + (last + rest);
      LeadingRead(v / 128, last + rest, cap);
      assert (last + rest)[1..] == rest;
    }
  }

  /** No guard of the loop rejects an arc below 2^32. */
  lemma ArcRead(v: nat, rest: bytes, cap: nat)
    requires v < TWO32 && cap > 0
    ensures var r := DecodeArcs(rest, 0, 0, cap - 1);
            DecodeArcs(Base128(v) + rest, 0, 0, cap) == if r.None? then None else Some([v] + r.value)
  {
    if v < 128 {
      assert (Base128(v) + rest)[1..] == rest;
    } else {
      var last: bytes := [v % 128];
      assert Base128(v) + rest == Leading(v / 128) + (last + rest);
      LeadingRead(v / 128, last + rest, cap);
      assert (last + rest)[1..] == rest;
    }
  }

  lemma {:induction false} ArcsRead(arcs: seq<Arc>, cap: nat)
    requires |arcs| <= cap
    ensures DecodeArcs(Rest128(arcs), 0, 0, cap) == Some(arcs)
    decreases |arcs|
  {
    if arcs != [] {
      ArcRead(arcs[0], Rest128(arcs[1..]), cap);
      ArcsRead(arcs[1..], cap - 1);
      assert [arcs[0]] + arcs[1..] == arcs;
    }
  }

  function Later(r: Option<Taken<nat>>, n: nat): Option<Taken<nat>> {
    if r.None? then None else Some(Taken(r.value.value, r.value.n + n))
  }

  lemma {:induction false} LeadingFirst(v: nat, rest: bytes)
    requires v < 0x200_0000_0000_0000
    ensures DecodeFirst(Leading(v) + rest, 0) == Later(DecodeFirst(rest, v), |Leading(v)|)
    decreases v
  {
    if v < 128 {
      assert (Leading(v) + rest)[1..] == rest;
    } else {
      var last: bytes := [128 + v % 128];
      assert Leading(v) + rest == Leading(v / 128) + (last + rest);
      LeadingFirst(v / 128, last + rest);
      assert (last + rest)[1..] == rest;
    }
  }

  lemma FirstRead(v: nat, rest: bytes)
    requires v < TWO32 + 80
    ensures DecodeFirst(Base128(v) + rest, 0) == Some(Taken(v, |Base128(v)|))
  {
    if v >= 128 {
      var last: bytes := [v % 128];
      assert Base128(v) + rest == Leading(v / 128) + (last + rest);
      LeadingFirst(v / 128, last + rest);
    }
  }

  lemma ContentRead(arcs: seq<Arc>, cap: nat)
    requires Acceptable(arcs) && |arcs| <= cap
    ensures DecodeContent(Content(arcs), cap) == Some(arcs)
  {
    var f, rest := First(arcs), Rest128(arcs[2..]);
    FirstRead(f, rest);
    ArcsRead(arcs[2..], cap - 2);
    assert Content(arcs)[|Base128(f)|..] == rest;
    assert [arcs[0], arcs[1]] + arcs[2..] == arcs;
  }

  lemma DecodeParts(b: bytes, e: bytes, c: bytes, rest: bytes, cap: nat)
    requires b == [ASN1_OBJECT_ID] + e + c + rest && c != [] && cap >= 2
    requires DecodeLength(e + (c + rest)) == Some(Taken(|c|, |e|))
    ensures DecodeOid(b, cap) == if DecodeContent(c, cap).None? then None else Some(Taken(DecodeContent(c, cap).value, 1 + |e| + |c|))
  {
    TlvParts(e, c, rest);
  }

  lemma TlvOf(c: bytes, arcs: seq<Arc>, cap: nat, rest: bytes)
    requires c != [] && |c| < TWO64 && cap >= 2 && DecodeContent(c, cap) == Some(arcs)
    ensures DecodeOid(Tagged(c) + rest, cap) == Some(Taken(arcs, |Tagged(c)|))
  {
    LengthRoundTrip(|c|, c + rest);
    DecodeParts(Tagged(c) + rest, EncodeLength(|c|), c, rest, cap);
  }

  lemma TlvRead(arcs: seq<Arc>, cap: nat, rest: bytes)
    requires Acceptable(arcs) && |arcs| <= cap && |Content(arcs)| < TWO64
    ensures DecodeOid(Tlv(arcs) + rest, cap) == Some(Taken(arcs, |Tlv(arcs)|))
  {
    ContentRead(arcs, cap);
    TlvOf(Content(arcs), arcs, cap, rest);
  }

  lemma TlvParts(e: bytes, c: bytes, rest: bytes)
    ensures var b := [ASN1_OBJECT_ID] + e + c + rest; b[1..] == e + (c + rest) && b[1 + |e|..1 + |e| + |c|] == c
  {
  }

  /** Whenever encoding a dotted text succeeds, decoding gives back exactly its components. */
  lemma OidRoundTrip(s: string, cap: nat, rest: bytes)
    requires EncodeOid(s).Some? && |ParseArcs(s, 0, 0).value| <= cap
    ensures DecodeOid(EncodeOid(s).value + rest, cap) == Some(Taken(ParseArcs(s, 0, 0).value, |EncodeOid(s).value|))
  {
    var arcs := ParseArcs(s, 0, 0).value;
    ArcSize(First(arcs));
    RoomySize(|Base128(First(arcs))|, arcs[2..]);
    TlvRead(arcs, cap, rest);
  }

  // ---------------------------------------------------------------- accepted encodings

  /** No arc starts with the byte 0x80; `fresh` tells that the first byte starts an arc. */
  predicate Unpadded(b: bytes, fresh_: bool)
    decreases |b|
  {
    b == [] || (!(fresh_ && b[0] == 0x80) && Unpadded(b[1..], b[0] < 128))
  }

  /** The bytes of the arc being read. */
  function Begun(val: nat): bytes {
    if val == 0 then [] else Leading(val)
  }

  lemma BegunSnoc(v: nat, x: nat)
    requires x < 128
    ensures v + x > 0 ==> Begun(v * 128 + x) == Begun(v) + [128 + x]
    ensures Base128(v * 128 + x) == Begun(v) + [x]
  {
    assert (v * 128 + x) / 128 == v && (v * 128 + x) % 128 == x;
  }

  lemma Shift(a: bytes, b: bytes, c: byte)
    requires b != [] && b[0] == c
    ensures a + b == (a + [c]) + b[1..]
  {
  }

  lemma {:induction false} LeadingStart(v: nat)
    requires v > 0
    ensures Leading(v)[0] > 128 && forall i :: 0 <= i < |Leading(v)| ==> Leading(v)[i] >= 128
  {
    if v >= 128 {
      LeadingStart(v / 128);
      var a := Leading(v / 128);
      assert forall i :: 0 <= i < |a| ==> Leading(v)[i] == a[i];
    }
  }

  lemma {:induction false} UnpaddedAfter(a: bytes, b: bytes, f: bool)
    requires (forall i :: 0 <= i < |a| ==> a[i] >= 128) && (f && a != [] ==> a[0] != 0x80)
    ensures Unpadded(a + b, f) <==> Unpadded(b, f && a == [])
    decreases |a|
  {
    if a == [] {
      assert a + b == b;
    } else {
      assert (a + b)[1..] == a[1..] + b;
      UnpaddedAfter(a[1..], b, false);
    }
  }

  /** What the encoder writes for one arc is not padded. */
  lemma BaseUnpadded(v: nat, rest: bytes)
    ensures Unpadded(Base128(v) + rest, true) <==> Unpadded(rest, true)
  {
    if v < 128 {
      assert (Base128(v) + rest)[1..] == rest;
    } else {
      LeadingStart(v / 128);
      var last: bytes := [v % 128];
      assert Base128(v) + rest == Leading(v / 128) + (last + rest);
      UnpaddedAfter(Leading(v / 128), last + rest, true);
      assert (last + rest)[1..] == rest;
    }
  }

  lemma {:induction false} RestUnpadded(arcs: seq<Arc>)
    ensures Unpadded(Rest128(arcs), true)
    decreases |arcs|
  {
    if arcs != [] {
      RestUnpadded(arcs[1..]);
      BaseUnpadded(arcs[0], Rest128(arcs[1..]));
    }
  }

  /** The arcs read from unpadded bytes encode to those bytes. */
  lemma {:induction false} ArcsCanonical(b: bytes, val: nat, n: nat, cap: nat)
    requires val < TWO32 && (n == 0 <==> val == 0) && DecodeArcs(b, val, n, cap).Some? && Unpadded(b, n == 0)
    ensures Rest128(DecodeArcs(b, val, n, cap).value) == Begun(val) + b
    decreases |b|
  {
    if b != [] {
      var x := b[0] % 128;
      var v := val * 128 + x;
      BegunSnoc(val, x);
      Shift(Begun(val), b, b[0]);
      if b[0] >= 128 {
        ArcsCanonical(b[1..], v, n + 1, cap);
      } else {
        ArcsCanonical(b[1..], 0, 0, cap - 1);
        RestCons(v, DecodeArcs(b[1..], 0, 0, cap - 1).value);
      }
    }
  }

  lemma RestCons(v: Arc, arcs: seq<Arc>)
    ensures Rest128([v] + arcs) == Base128(v) + Rest128(arcs)
  {
    assert ([v] + arcs)[1..] == arcs;
  }

  lemma {:induction false} FirstCanonical(b: bytes, val: nat)
    requires DecodeFirst(b, val).Some? && Unpadded(b, val == 0)
    ensures var t := DecodeFirst(b, val).value; Base128(t.value) == Begun(val) + b[..t.n] && Unpadded(b[t.n..], true)
    decreases |b|
  {
    BegunSnoc(val, b[0] % 128);
    var t := DecodeFirst(b, val).value;
    Shift(Begun(val), b[..t.n], b[0]);
    if b[0] < 128 {
      assert b[..1][1..] == [];
    } else {
      FirstCanonicalRest(b, val, t.n);
    }
  }

  lemma {:induction false} FirstCanonicalRest(b: bytes, val: nat, n: nat)
    requires b != [] && b[0] >= 128 && DecodeFirst(b, val).Some? && Unpadded(b, val == 0) && n == DecodeFirst(b, val).value.n
    ensures var v := val * 128 + b[0] % 128;
            && DecodeFirst(b[1..], v).Some? && DecodeFirst(b, val).value.value == DecodeFirst(b[1..], v).value.value && 0 < n <= |b|
            && Base128(DecodeFirst(b, val).value.value) == Begun(v) + b[..n][1..] && Unpadded(b[n..], true)
    decreases |b|, 0
  {
    FirstCanonical(b[1..], val * 128 + b[0] % 128);
    assert b[..n][1..] == b[1..][..n - 1] && b[n..] == b[1..][n - 1..];
  }

  lemma FirstTwoIs(v: nat)
    requires FirstTwo(v).Some?
    ensures var t := FirstTwo(v).value; |t| == 2 && Acceptable(t) && First(t) == v
  {
  }

  lemma ContentArcs(c: bytes, cap: nat)
    requires cap >= 2 && DecodeContent(c, cap).Some?
    ensures var arcs, f := DecodeContent(c, cap).value, DecodeFirst(c, 0).value;
            && Acceptable(arcs) && First(arcs) == f.value
            && DecodeArcs(c[f.n..], 0, 0, cap - 2) == Some(arcs[2..])
  {
    FirstTwoIs(DecodeFirst(c, 0).value.value);
  }

  lemma ContentUnpadded(arcs: seq<Arc>)
    requires |arcs| >= 2
    ensures Unpadded(Content(arcs), true)
  {
    RestUnpadded(arcs[2..]);
    BaseUnpadded(First(arcs), Rest128(arcs[2..]));
  }

  /** Accepted contents name acceptable arcs, and are what the encoder writes exactly when no arc is padded. */
  lemma ContentCanonical(c: bytes, cap: nat)
    requires cap >= 2 && DecodeContent(c, cap).Some?
    ensures var arcs := DecodeContent(c, cap).value; Acceptable(arcs) && (c == Content(arcs) <==> Unpadded(c, true))
  {
    var arcs := DecodeContent(c, cap).value;
    ContentArcs(c, cap);
    ContentUnpadded(arcs);
    if Unpadded(c, true) {
      var f := DecodeFirst(c, 0).value;
      FirstCanonical(c, 0);
      ArcsCanonical(c[f.n..], 0, 0, cap - 2);
      WithoutBegun(c, f.n);
    }
  }

  /** An arc with a leading 0x80 is taken for the arc without it. */
  lemma PaddedArcIsTaken()
    ensures DecodeContent([0x2B, 0x80, 1], 3) == Some([1, 3, 1]) && DecodeContent([0x2B, 1], 3) == Some([1, 3, 1])
  {
    var c: bytes, d: bytes := [0x2B, 0x80, 1], [0x2B, 1];
    var e: bytes := [1];
    assert c[1..] == [0x80, 1] && c[1..][1..] == e && d[1..] == e && e[1..] == [];
    assert DecodeArcs(e[1..], 0, 0, 0) == Some([]) && [1] + [] == [1];
    assert DecodeArcs(e, 0, 0, 1) == Some([1]) && DecodeArcs(e, 0, 1, 1) == Some([1]);
    assert DecodeArcs(c[1..], 0, 0, 1) == DecodeArcs(e, 0, 1, 1);
    assert FirstTwo(0x2B) == Some([1, 3]) && [1, 3] + [1] == [1, 3, 1];
  }

  lemma WithoutBegun(c: bytes, n: nat)
    requires n <= |c|
    ensures (Begun(0) + c[..n]) + (Begun(0) + c[n..]) == c
  {
  }

  // ---------------------------------------------------------------- dotted text and arcs

  lemma {:induction false} DecimalDigits(n: nat)
    ensures forall i :: 0 <= i < |Decimal(n)| ==> IsDigit(Decimal(n)[i])
  {
    if n >= 10 { DecimalDigits(n / 10); }
  }

  lemma {:induction false} NumberEndIs(s: string, i: nat, e: nat)
    requires i <= e <= |s| && (forall k :: i <= k < e ==> IsDigit(s[k])) && (e < |s| ==> !IsDigit(s[e]))
    ensures NumberEnd(s, i) == e
    decreases e - i
  {
    if i < e { NumberEndIs(s, i + 1, e); }
  }

  lemma {:induction false} NumberValueIs(s: string, i: nat, n: nat)
    requires i + |Decimal(n)| <= |s| && s[i..i + |Decimal(n)|] == Decimal(n)
    ensures NumberValue(s, i, i + |Decimal(n)|) == n
    decreases n
  {
    var d := Decimal(n);
    var e := i + |d|;
    assert s[e - 1] == s[i..e][|d| - 1] == d[|d| - 1];
    if n < 10 {
      assert NumberValue(s, i, i) == 0;
    } else {
      var hi := Decimal(n / 10);
      assert s[i..i + |hi|] == s[i..e][..|hi|];
      assert d[..|hi|] == hi;
      NumberValueIs(s, i, n / 10);
    }
  }

  lemma NumberRead(s: string, i: nat, n: nat)
    requires i + |Decimal(n)| <= |s| && s[i..i + |Decimal(n)|] == Decimal(n)
    requires i + |Decimal(n)| < |s| ==> !IsDigit(s[i + |Decimal(n)|])
    ensures IsDigit(s[i]) && NumberEnd(s, i) == i + |Decimal(n)| && NumberValue(s, i, i + |Decimal(n)|) == n
  {
    var d := Decimal(n);
    DecimalDigits(n);
    forall k | i <= k < i + |d| ensures IsDigit(s[k]) { assert s[k] == s[i..i + |d|][k - i] == d[k - i]; }
    NumberEndIs(s, i, i + |d|);
    NumberValueIs(s, i, n);
  }

  lemma DottedParts(s: string, i: nat, arcs: seq<Arc>)
    requires i <= |s| && s[i..] == Dotted(arcs) && arcs != []
    ensures var e := i + |Decimal(arcs[0])|;
            && e <= |s| && s[i..e] == Decimal(arcs[0]) && (|arcs| == 1 <==> e == |s|)
            && (e < |s| ==> s[e] == '.' && e + 1 <= |s| && s[e + 1..] == Dotted(arcs[1..]))
  {
    var d := Decimal(arcs[0]);
    var e := i + |d|;
    assert s[i..e] == s[i..][..|d|] == d;
    if |arcs| > 1 {
      assert s[e] == s[i..][|d|] == '.';
      assert s[e + 1..] == s[i..][|d| + 1..] == Dotted(arcs[1..]);
    }
  }

  lemma {:induction false} DottedSize(arcs: seq<Arc>)
    requires arcs != []
    ensures |Dotted(arcs)| >= 2 * |arcs| - 1
  {
    if |arcs| > 1 { DottedSize(arcs[1..]); }
  }

  lemma DottedHead(s: string, i: nat, arcs: seq<Arc>, count: nat) returns (e: nat)
    requires i <= |s| && s[i..] == Dotted(arcs) && arcs != [] && count < 128
    ensures |arcs| == 1 ==> ParseArcs(s, i, count) == Some([arcs[0]])
    ensures |arcs| > 1 ==>
              && i <= e && e + 1 < |s| && s[e + 1..] == Dotted(arcs[1..])
              && var rest := ParseArcs(s, e + 1, count + 1);
                 ParseArcs(s, i, count) == if rest.None? then None else Some([arcs[0]] + rest.value)
  {
    DottedParts(s, i, arcs);
    NumberRead(s, i, arcs[0]);
    e := i + |Decimal(arcs[0])|;
    ParseStep(s, i, count, arcs[0], e);
    if |arcs| > 1 { DottedSize(arcs[1..]); }
  }

  lemma {:induction false} DottedRead(s: string, i: nat, arcs: seq<Arc>, count: nat)
    requires i <= |s| && s[i..] == Dotted(arcs) && arcs != [] && count + |arcs| <= 128
    ensures ParseArcs(s, i, count) == Some(arcs)
    decreases |arcs|
  {
    var e := DottedHead(s, i, arcs, count);
    if |arcs| > 1 {
      DottedRead(s, e + 1, arcs[1..], count + 1);
      assert [arcs[0]] + arcs[1..] == arcs;
    } else {
      assert [arcs[0]] == arcs;
    }
  }

  lemma ParseStep(s: string, i: nat, count: nat, v: Arc, e: nat)
    requires i < |s| && count < 128 && IsDigit(s[i]) && NumberEnd(s, i) == e && NumberValue(s, i, e) == v
    ensures e == |s| ==> ParseArcs(s, i, count) == Some([v])
    ensures e + 1 < |s| && s[e] == '.' ==>
              var rest := ParseArcs(s, e + 1, count + 1);
              ParseArcs(s, i, count) == if rest.None? then None else Some([v] + rest.value)
  {
    assert ParseArcs(s, i, count) == AfterArc(s, v, e, count);
  }

  /** Dotted text names its arcs, up to the 128 that the encoder takes. */
  lemma DottedRoundTrip(arcs: seq<Arc>)
    requires 0 < |arcs| <= 128
    ensures ParseArcs(Dotted(arcs), 0, 0) == Some(arcs)
  {
    assert Dotted(arcs)[0..] == Dotted(arcs);
    DottedRead(Dotted(arcs), 0, arcs, 0);
  }

  // ---------------------------------------------------------------- which texts name arcs

  /** From `i` on the text is numerals of these lengths, leading zeros allowed, with a dot between them. */
  predicate Numerals(s: string, i: nat, lens: seq<nat>)
    decreases |lens|
  {
    && lens != [] && lens[0] > 0 && i + lens[0] <= |s| && (forall k :: i <= k < i + lens[0] ==> IsDigit(s[k]))
    && var e := i + lens[0];
       if |lens| == 1 then e == |s| else e < |s| && s[e] == '.' && Numerals(s, e + 1, lens[1..])
  }

  function Numbers(s: string, i: nat, lens: seq<nat>): seq<nat>
    requires lens == [] || Numerals(s, i, lens)
    decreases |lens|
  {
    if lens == [] then [] else
      [NumberValue(s, i, i + lens[0])] + if |lens| == 1 then [] else Numbers(s, i + lens[0] + 1, lens[1..])
  }

  predicate AllArcs(ns: seq<nat>) { forall k :: 0 <= k < |ns| ==> ns[k] < TWO32 }

  lemma {:induction false} NumeralRead(s: string, i: nat, lens: seq<nat>)
    requires Numerals(s, i, lens)
    ensures NumberEnd(s, i) == i + lens[0]
  {
    NumberEndIs(s, i, i + lens[0]);
  }

  lemma AllArcsHead(v: nat, ns: seq<nat>)
    ensures AllArcs([v] + ns) <==> v < TWO32 && AllArcs(ns)
  {
    assert ([v] + ns)[0] == v && forall k :: 0 < k < |ns| + 1 ==> ([v] + ns)[k] == ns[k - 1];
    assert forall k :: 0 <= k < |ns| ==> ns[k] == ([v] + ns)[k + 1];
  }

  /** A text of numerals is taken exactly when there are at most 128 of them and each fits 32 bits. */
  lemma {:induction false} NumeralsAreArcs(s: string, i: nat, lens: seq<nat>, count: nat)
    requires Numerals(s, i, lens)
    ensures var ns := Numbers(s, i, lens);
            |ns| == |lens| && ParseArcs(s, i, count) == if count + |lens| <= 128 && AllArcs(ns) then Some(ns) else None
    decreases |lens|
  {
    var e := i + lens[0];
    var v := NumberValue(s, i, e);
    NumeralRead(s, i, lens);
    assert ParseArcs(s, i, count) == if count >= 128 then None else AfterArc(s, v, e, count);
    if |lens| == 1 {
      AllArcsHead(v, []);
      assert [v] + [] == [v];
    } else {
      NumeralsAreArcs(s, e + 1, lens[1..], count + 1);
      AllArcsHead(v, Numbers(s, e + 1, lens[1..]));
    }
  }

  lemma {:induction false} NumberDigits(s: string, i: nat)
    requires i <= |s|
    ensures forall k :: i <= k < NumberEnd(s, i) ==> IsDigit(s[k])
    decreases |s| - i
  {
    if i < |s| && IsDigit(s[i]) { NumberDigits(s, i + 1); }
  }

  /** And no other text is taken, apart from the empty one. */
  lemma {:induction false} ArcsAreNumerals(s: string, i: nat, count: nat) returns (lens: seq<nat>)
    requires i < |s| && ParseArcs(s, i, count).Some?
    ensures Numerals(s, i, lens)
    decreases |s| - i
  {
    var e := NumberEnd(s, i);
    NumberDigits(s, i);
    assert ParseArcs(s, i, count) == AfterArc(s, NumberValue(s, i, e), e, count);
    lens := [e - i];
    if e < |s| {
      var rest := ArcsAreNumerals(s, e + 1, count + 1);
      lens := [e - i] + rest;
      assert lens[1..] == rest;
    }
  }

  lemma {:induction false} DecimalGrows(a: nat, b: nat)
    requires a <= b
    ensures |Decimal(a)| <= |Decimal(b)|
    decreases b
  {
    if a >= 10 { DecimalGrows(a / 10, b / 10); }
  }

  /** Base 128 is never longer than base 10. */
  lemma {:induction false} LeadingNotLonger(v: nat)
    ensures |Leading(v)| <= |Decimal(v)|
    decreases v
  {
    if v >= 128 {
      LeadingNotLonger(v / 128);
      DecimalGrows(v / 128, v / 10 / 10);
      assert |Decimal(v)| == |Decimal(v / 10 / 10)| + 2;
    }
  }

  lemma BaseNotLonger(v: nat)
    ensures |Base128(v)| <= |Decimal(v)|
  {
    LeadingNotLonger(v);
  }

  lemma {:induction false} ShortIsRoomy(used: nat, arcs: seq<Arc>)
    requires used + |Dotted(arcs)| + 5 <= 512
    ensures Roomy(used, arcs)
    decreases |arcs|
  {
    if arcs != [] {
      BaseNotLonger(arcs[0]);
      ShortIsRoomy(used + |Base128(arcs[0])|, arcs[1..]);
    }
  }

  /** The walk keeps identifiers in buffers of 256 characters: every acceptable one of those can be encoded. */
  lemma ShortTextEncodes(arcs: seq<Arc>)
    requires Acceptable(arcs) && |Dotted(arcs)| < 256
    ensures |arcs| <= 128 && ParseArcs(Dotted(arcs), 0, 0) == Some(arcs) && EncodeOid(Dotted(arcs)).Some?
  {
    DottedSize(arcs);
    DottedRoundTrip(arcs);
    ArcSize(First(arcs));
    DottedTail(arcs);
    ShortIsRoomy(|Base128(First(arcs))|, arcs[2..]);
  }

  lemma DottedTail(arcs: seq<Arc>)
    requires |arcs| >= 2
    ensures |Dotted(arcs[2..])| <= |Dotted(arcs)|
  {
    assert |Dotted(arcs[1..])| <= |Dotted(arcs)|;
    assert arcs[1..][1..] == arcs[2..];
    assert |Dotted(arcs[1..][1..])| <= |Dotted(arcs[1..])|;
  }

  // ---------------------------------------------------------------- streams of items

  datatype Item = Integer(v: int) | Unsigned(tag: byte, u: nat) | Octets(s: bytes) | ObjectId(arcs: seq<Arc>)

  /** Items that fit: strings in `max` bytes with their NUL, identifiers in `cap` arcs. */
  predicate Fits(x: Item, max: nat, cap: nat) {
    match x
    case Integer(v) => Int32(v)
    case Unsigned(tag, u) => UnsignedTag(tag) && u < TWO32
    case Octets(s) => |s| < max && |s| < TWO64
    case ObjectId(arcs) => Acceptable(arcs) && |arcs| <= cap && |Content(arcs)| < TWO64
  }

  function EncodeItem(x: Item, max: nat, cap: nat): bytes
    requires Fits(x, max, cap)
  {
    match x
    case Integer(v) => EncodeInteger(v)
    case Unsigned(tag, u) => EncodeUnsigned(u, tag)
    case Octets(s) => EncodeString(s)
    case ObjectId(arcs) => Tlv(arcs)
  }

  /** One item, by its tag. */
  function DecodeItem(b: bytes, max: nat, cap: nat): (r: Option<Taken<Item>>)
    ensures r.Some? ==> 0 < r.value.n <= |b|
  {
    if b == [] then None
    else if b[0] == ASN1_INTEGER then
      var t := DecodeInteger(b); if t.None? then None else Some(Taken(Integer(t.value.value), t.value.n))
    else if UnsignedTag(b[0]) then
      var t := DecodeUnsigned(b); if t.None? then None else Some(Taken(Unsigned(b[0], t.value.value), t.value.n))
    else if b[0] == ASN1_OCTET_STRING then
      var t := DecodeString(b, max); if t.None? then None else Some(Taken(Octets(t.value.value), t.value.n))
    else if b[0] == ASN1_OBJECT_ID then
      var t := DecodeOid(b, cap); if t.None? then None else Some(Taken(ObjectId(t.value.value), t.value.n))
    else None
  }

  lemma ItemRead(x: Item, max: nat, cap: nat, rest: bytes)
    requires Fits(x, max, cap)
    ensures DecodeItem(EncodeItem(x, max, cap) + rest, max, cap) == Some(Taken(x, |EncodeItem(x, max, cap)|))
  {
    match x
    case Integer(v) => IntegerRoundTrip(v, rest);
    case Unsigned(tag, u) => UnsignedRoundTrip(u, tag, rest);
    case Octets(s) => StringRoundTrip(s, max, rest);
    case ObjectId(arcs) => TlvRead(arcs, cap, rest);
  }

  function EncodeItems(xs: seq<Item>, max: nat, cap: nat): bytes
    requires forall i :: 0 <= i < |xs| ==> Fits(xs[i], max, cap)
  {
    if xs == [] then [] else EncodeItem(xs[0], max, cap) + EncodeItems(xs[1..], max, cap)
  }

  function DecodeItems(b: bytes, max: nat, cap: nat): Option<seq<Item>>
    decreases |b|
  {
    if b == [] then Some([]) else
      var x := DecodeItem(b, max, cap);
      if x.None? then None else
        var rest := DecodeItems(b[x.value.n..], max, cap);
        if rest.None? then None else Some([x.value.value] + rest.value)
  }

  /** Encoded items delimit themselves: any concatenation of them decodes to the same items in order. */
  lemma {:induction false} ItemsRoundTrip(xs: seq<Item>, max: nat, cap: nat)
    requires forall i :: 0 <= i < |xs| ==> Fits(xs[i], max, cap)
    ensures DecodeItems(EncodeItems(xs, max, cap), max, cap) == Some(xs)
    decreases |xs|
  {
    if xs != [] {
      var e, rest := EncodeItem(xs[0], max, cap), EncodeItems(xs[1..], max, cap);
      ItemRead(xs[0], max, cap, rest);
      ItemsRoundTrip(xs[1..], max, cap);
      assert (e + rest)[|e|..] == rest;
      assert [xs[0]] + xs[1..] == xs;
    }
  }
}
