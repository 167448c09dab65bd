/** The loops of src/asn1.c: cursors that move through a buffer, digits collected in local arrays. */
module Asn1Codec {
  import opened Common
  import opened Asn1
  import opened Oid

  /** Bytes written at the cursor, when they fit before the end of the buffer. */
  method Put(buf: array<byte>, p: nat, end: nat, s: bytes) returns (ok: bool, q: nat)
    requires p <= end <= buf.Length
    modifies buf
    ensures ok <==> p + |s| <= end
    ensures ok ==> q == p + |s| && buf[p..q] == s && buf[..p] == old(buf[..p])
    ensures !ok ==> q == p && buf[..] == old(buf[..])
    ensures buf[end..] == old(buf[end..])
  {
    if p + |s| > end {
      return false, p;
    }
    for i := 0 to |s|
      invariant buf[..p] == old(buf[..p]) && buf[p..p + i] == s[..i] && buf[end..] == old(buf[end..])
    {
      buf[p + i] := s[i];
      assert buf[p..p + i + 1] == buf[p..p + i] + [s[i]];
      assert s[..i + 1] == s[..i] + [s[i]];
    }
    assert s[..|s|] == s;
    return true, p + |s|;
  }

  /** The loop that takes a number apart, low byte first, and the one that turns the bytes round. */
  method BytesOf(n: nat) returns (s: bytes)
    ensures s == Bytes(n)
  {
    s := [];
    var temp := n;
    while temp > 0
      invariant Bytes(n) == Bytes(temp) + s
    {
      assert Bytes(temp) == Bytes(temp / 256) + [temp % 256];
      assert Bytes(temp / 256) + [temp % 256] + s == Bytes(temp / 256) + ([temp % 256] + s);
      s := [temp % 256] + s;
      temp := temp / 256;
    }
  }

  /** asn1_encode_length. */
  method WriteLength(buf: array<byte>, p: nat, end: nat, length: nat) returns (ok: bool, q: nat)
    requires p <= end <= buf.Length && length < TWO64
    modifies buf
    ensures ok <==> p + |EncodeLength(length)| <= end
    ensures ok ==> q == p + |EncodeLength(length)| && buf[p..q] == EncodeLength(length) && buf[..p] == old(buf[..p])
    ensures buf[end..] == old(buf[end..])
  {
    if length < 128 {
      ok, q := Put(buf, p, end, [length]);
    } else {
      var b := BytesOf(length);
      PowSmall();
      BytesSize(length, 8);
      ok, q := Put(buf, p, end, [0x80 + |b|] + b);
    }
  }

  /** asn1_decode_length over the bytes from the cursor to the end. */
  method ReadLength(b: bytes) returns (r: Option<Taken<nat>>)
    ensures r == DecodeLength(b)
  {
    if |b| < 1 {
      return None;
    }
    if b[0] < 128 {
      return Some(Taken(b[0], 1));
    }
    if b[0] == 0x80 {
      return None;
    }
    var num := b[0] - 0x80;
    if num > 8 || num > |b| - 1 || (num > 1 && b[1] == 0) {
      return None;
    }
    var v := ReadNumber(b[1..1 + num]);
    r := if v < 128 then None else Some(Taken(v, 1 + num));
  }

  /** The accumulating loop. */
  method ReadNumber(s: bytes) returns (v: nat)
    ensures v == Value(s)
  {
    v := 0;
    for i := 0 to |s|
      invariant v == Value(s[..i])
    {
      assert s[..i + 1][..i] == s[..i];
      v := 256 * v + s[i] as int;
    }
    assert s[..|s|] == s;
  }

  /** The loop that skips redundant leading bytes of an INTEGER. */
  method StripFrom(s: bytes) returns (r: bytes)
    requires s != []
    ensures r == Strip(s)
  {
    var start := 0;
    while start < |s| - 1 && Redundant(s[start..])
      invariant 0 <= start < |s| && Strip(s[start..]) == Strip(s)
    {
      assert s[start..][1..] == s[start + 1..];
      start := start + 1;
    }
    r := s[start..];
  }

  /** asn1_encode_integer: the tag is written even when the rest does not fit. */
  method WriteInteger(buf: array<byte>, p: nat, end: nat, value: int) returns (ok: bool, q: nat)
    requires p <= end <= buf.Length && Int32(value)
    modifies buf
    ensures ok <==> p + |EncodeInteger(value)| <= end
    ensures ok ==> q == p + |EncodeInteger(value)| && buf[p..q] == EncodeInteger(value) && buf[..p] == old(buf[..p])
    ensures buf[end..] == old(buf[end..])
  {
    ok, q := Put(buf, p, end, [ASN1_INTEGER]);
    if !ok {
      return;
    }
    var c := StripFrom(Four(value));
    var t := q;
    ok, q := Put(buf, q, end, [|c|] + c);
    if ok {
      assert buf[p..q] == buf[..t][p..] + buf[t..q];
      assert buf[..p] == buf[..t][..p];
    }
  }

  /** The loop of asn1_decode_integer, in 64 bits: it starts from the sign. */
  method ReadSigned(s: bytes) returns (v: int)
    requires s != []
    ensures v == Signed(s)
  {
    var sign := if s[0] >= 128 then -1 else 0;
    v := sign;
    for i := 0 to |s|
      invariant v == Value(s[..i]) + sign * Pow256(i)
    {
      assert s[..i + 1][..i] == s[..i];
      v := v * 256 + s[i] as int;
    }
    assert s[..|s|] == s;
  }

  /** asn1_decode_integer. */
  method ReadInteger(b: bytes) returns (r: Option<Taken<int>>)
    ensures r == DecodeInteger(b)
  {
    if |b| < 1 || b[0] != ASN1_INTEGER {
      return None;
    }
    var l := ReadLength(b[1..]);
    if l.None? || l.value.value == 0 || l.value.value > 4 || l.value.value > |b| - 1 - l.value.n {
      return None;
    }
    var start, end := 1 + l.value.n, 1 + l.value.n + l.value.value;
    if Redundant(b[start..end]) {
      return None;
    }
    var v := ReadSigned(b[start..end]);
    r := Some(Taken(v, end));
  }

  /** The loop that writes a number in base 128: low digits first, then turned round. */
  method Base128Of(v: nat) returns (s: bytes)
    ensures s == Base128(v)
  {
    s := [v % 128];
    var val: nat := v / 128;
    assert [] + s == s;
    while val > 0
      invariant Base128(v) == Begun(val) + s
    {
      BegunSnoc(val / 128, val % 128);
      assert Begun(val / 128) + [128 + val % 128] + s == Begun(val / 128) + ([128 + val % 128] + s);
      s := [128 + val % 128] + s;
      val := val / 128;
    }
    assert [] + s == s;
  }

  /** The loop of asn1_encode_oid over its text. */
  method ReadDotted(s: string) returns (arcs: Option<seq<Arc>>)
    ensures arcs == ParseArcs(s, 0, 0)
  {
    var i, oids: seq<Arc> := 0, [];
    ghost var goal := ParseArcs(s, 0, 0);
    assert goal == Before([], goal) by { if goal.Some? { assert [] + goal.value == goal.value; } }
    while i < |s| && |oids| < 128
      invariant 0 <= i <= |s| && |oids| <= 128 && goal == Before(oids, ParseArcs(s, i, |oids|))
    {
      if !IsDigit(s[i]) {
        return None;
      }
      var e := NumberEnd(s, i);
      var v := NumberValue(s, i, e);
      assert ParseArcs(s, i, |oids|) == AfterArc(s, v, e, |oids|);
      if v >= TWO32 {
        return None;
      }
      if e < |s| && (s[e] != '.' || e + 1 == |s|) {
        return None;
      }
      BeforeSnoc(oids, v, ParseArcs(s, if e < |s| then e + 1 else e, |oids| + 1));
      oids := oids + [v];
      i := if e < |s| then e + 1 else e;
    }
    if i < |s| {
      return None;
    }
    assert oids + [] == oids;
    arcs := Some(oids);
  }

  function Before(a: seq<Arc>, rest: Option<seq<Arc>>): Option<seq<Arc>> {
    if rest.None? then None else Some(a + rest.value)
  }

  lemma BeforeSnoc(a: seq<Arc>, v: Arc, rest: Option<seq<Arc>>)
    ensures Before(a + [v], rest) == Before(a, if rest.None? then None else Some([v] + rest.value))
    ensures [v] + [] == [v]
  {
    if rest.Some? { assert a + [v] + rest.value == a + ([v] + rest.value); }
  }

  /** The second loop of asn1_decode_oid, over the arcs after the first two. */
  method ReadArcs(b: bytes, cap: nat) returns (r: Option<seq<Arc>>)
    ensures r == DecodeArcs(b, 0, 0, cap)
  {
    var oids: seq<Arc> := [];
    var ptr, val, n := 0, 0, 0;
    ghost var goal := DecodeArcs(b, 0, 0, cap);
    assert b[0..] == b;
    assert goal == Before([], goal) by { if goal.Some? { assert [] + goal.value == goal.value; } }
    while ptr < |b| && |oids| < cap
      invariant 0 <= ptr <= |b| && |oids| <= cap && 0 <= val < TWO32 && 0 <= n
      invariant goal == Before(oids, DecodeArcs(b[ptr..], val, n, cap - |oids|))
    {
      assert b[ptr..][1..] == b[ptr + 1..];
      if n + 1 > 5 || val > 0x1FF_FFFF {
        return None;
      }
      n := n + 1;
      val := val * 128 + b[ptr] % 128;
      if b[ptr] < 128 {
        BeforeSnoc(oids, val, DecodeArcs(b[ptr + 1..], 0, 0, cap - |oids| - 1));
        oids := oids + [val];
        val, n := 0, 0;
      }
      ptr := ptr + 1;
    }
    if ptr != |b| || n != 0 {
      return None;
    }
    assert b[ptr..] == [] && oids + [] == oids;
    r := Some(oids);
  }

  /** The first loop of asn1_decode_oid, over the first two arcs. */
  method ReadFirst(b: bytes) returns (r: Option<Taken<nat>>)
    ensures r == DecodeFirst(b, 0)
  {
    var ptr, val: nat := 0, 0;
    assert b[0..] == b;
    while true
      invariant ptr <= |b| && DecodeFirst(b, 0) == Later(DecodeFirst(b[ptr..], val), ptr)
      decreases |b| - ptr
    {
      if ptr >= |b| || val > 0x1FF_FFFF_FFFF_FFFF {
        return None;
      }
      assert b[ptr..][1..] == b[ptr + 1..];
      val := val * 128 + b[ptr] % 128;
      ptr := ptr + 1;
      if b[ptr - 1] < 128 {
        return Some(Taken(val, ptr));
      }
    }
  }

  /** asn1_decode_oid. */
  method ReadOid(b: bytes, cap: nat) returns (r: Option<Taken<seq<Arc>>>)
    ensures r == DecodeOid(b, cap)
  {
    if cap < 2 || |b| < 1 || b[0] != ASN1_OBJECT_ID {
      return None;
    }
    var l := ReadLength(b[1..]);
    if l.None? || l.value.value == 0 || l.value.value > |b| - 1 - l.value.n {
      return None;
    }
    var start, end := 1 + l.value.n, 1 + l.value.n + l.value.value;
    var c := b[start..end];
    var f := ReadFirst(c);
    if f.None? {
      return None;
    }
    var two := FirstTwo(f.value.value);
    if two.None? {
      return None;
    }
    var rest := ReadArcs(c[f.value.n..], cap - 2);
    r := if rest.None? then None else Some(Taken(two.value + rest.value, end));
  }

  /** One arc goes into the temporary buffer. */
  method AppendArc(temp: array<byte>, t: nat, v: nat) returns (t': nat)
    requires temp.Length == 512 && t + 5 <= 512 && v < TWO32 + 80
    modifies temp
    ensures t' == t + |Base128(v)| <= 512 && temp[..t'] == old(temp[..t]) + Base128(v)
  {
    var e := Base128Of(v);
    ArcSize(v);
    var ok;
    ok, t' := Put(temp, t, 512, e);
    assert temp[..t'] == temp[..t] + temp[t..t'];
  }

  /** asn1_encode_oid: the contents are built in a buffer of 512 bytes, which is never overrun. */
  method OidContent(arcs: seq<Arc>) returns (r: Option<bytes>)
    requires Acceptable(arcs)
    ensures r == if Roomy(|Base128(First(arcs))|, arcs[2..]) then Some(Content(arcs)) else None
    ensures r.Some? ==> |r.value| <= 512
  {
    var temp := new byte[512];
    ghost var first := Base128(First(arcs));
    var t := AppendArc(temp, 0, First(arcs));
    ghost var roomy := Roomy(|first|, arcs[2..]);
    assert temp[..t] == first + Rest128([]);
    for i := 2 to |arcs|
      invariant 0 <= t <= 512 && temp[..t] == first + Rest128(arcs[2..i]) && roomy == Roomy(t, arcs[i..])
    {
      if 512 - t < 5 {
        return None;
      }
      OneMoreArc(first, arcs, i, t);
      t := AppendArc(temp, t, arcs[i]);
    }
    assert arcs[2..|arcs|] == arcs[2..] && arcs[|arcs|..] == [];
    r := Some(temp[..t]);
  }

  lemma OneMoreArc(first: bytes, arcs: seq<Arc>, i: nat, t: nat)
    requires 2 <= i < |arcs| && t + 5 <= 512
    ensures first + Rest128(arcs[2..i + 1]) == first + Rest128(arcs[2..i]) + Base128(arcs[i])
    ensures Roomy(t, arcs[i..]) == Roomy(t + |Base128(arcs[i])|, arcs[i + 1..])
  {
    RestSnoc(arcs[2..i], arcs[i]);
    assert arcs[2..i + 1] == arcs[2..i] + [arcs[i]];
    assert arcs[i..][1..] == arcs[i + 1..];
    assert first + (Rest128(arcs[2..i]) + Base128(arcs[i])) == first + Rest128(arcs[2..i]) + Base128(arcs[i]);
  }

  lemma {:induction false} RestSnoc(arcs: seq<Arc>, v: Arc)
    ensures Rest128(arcs + [v]) == Rest128(arcs) + Base128(v)
  {
    if arcs == [] {
      assert arcs + [v] == [v] && [v][1..] == [];
      assert Base128(v) + [] == [] + Base128(v);
    } else {
      RestSnoc(arcs[1..], v);
      assert (arcs + [v])[1..] == arcs[1..] + [v];
      assert Base128(arcs[0]) + (Rest128(arcs[1..]) + Base128(v)) == Base128(arcs[0]) + Rest128(arcs[1..]) + Base128(v);
    }
  }

  /** asn1_encode_oid. */
  method WriteOid(buf: array<byte>, p: nat, end: nat, text: string) returns (ok: bool, q: nat)
    requires p <= end <= buf.Length
    modifies buf
    ensures var e := EncodeOid(text);
            && (ok <==> e.Some? && p + |e.value| <= end)
            && (ok ==> q == p + |e.value| && buf[p..q] == e.value && buf[..p] == old(buf[..p]))
    ensures buf[end..] == old(buf[end..])
  {
    var arcs := ReadDotted(text);
    if arcs.None? || !Acceptable(arcs.value) || p + 1 > end {
      return false, p;
    }
    ghost var e := EncodeOid(text);
    ok, q := Put(buf, p, end, [ASN1_OBJECT_ID]);
    var c := OidContent(arcs.value);
    if c.None? {
      return false, q;
    }
    assert e.value == [ASN1_OBJECT_ID] + (EncodeLength(|c.value|) + c.value);
    ok, q := WriteRest(buf, p, q, end, c.value, [ASN1_OBJECT_ID]);
  }

  /** Length and contents go behind what was written from `p` to `t`. */
  method WriteRest(buf: array<byte>, p: nat, t: nat, end: nat, c: bytes, ghost head: bytes) returns (ok: bool, q: nat)
    requires p <= t <= end <= buf.Length && |c| < TWO64 && buf[p..t] == head
    modifies buf
    ensures var e := head + (EncodeLength(|c|) + c);
            (ok <==> p + |e| <= end) && (ok ==> q == p + |e| && buf[p..q] == e && buf[..p] == old(buf[..p]))
    ensures buf[end..] == old(buf[end..])
  {
    ok, q := WriteTail(buf, t, end, c);
    if ok {
      assert buf[p..q] == buf[..t][p..] + buf[t..q];
      assert buf[..p] == buf[..t][..p];
    }
  }

  /** Length and contents. */
  method WriteTail(buf: array<byte>, p: nat, end: nat, c: bytes) returns (ok: bool, q: nat)
    requires p <= end <= buf.Length && |c| < TWO64
    modifies buf
    ensures var e := EncodeLength(|c|) + c;
            (ok <==> p + |e| <= end) && (ok ==> q == p + |e| && buf[p..q] == e && buf[..p] == old(buf[..p]))
    ensures buf[end..] == old(buf[end..])
  {
    ok, q := WriteLength(buf, p, end, |c|);
    if !ok {
      return;
    }
    var t := q;
    ok, q := Put(buf, q, end, c);
    if ok {
      assert buf[p..q] == buf[..t][p..] + buf[t..q];
      assert buf[..p] == buf[..t][..p];
    }
  }

  /** The loop of asn1_encode_unsigned. */
  method StripZerosFrom(s: bytes) returns (r: bytes)
    requires s != []
    ensures r == StripZeros(s)
  {
    var start := 0;
    while start < |s| - 1 && s[start] == 0 && s[start + 1] < 128
      invariant 0 <= start < |s| && StripZeros(s[start..]) == StripZeros(s)
    {
      assert s[start..][1..] == s[start + 1..];
      start := start + 1;
    }
    r := s[start..];
  }

  /** asn1_encode_unsigned. */
  method WriteUnsigned(buf: array<byte>, p: nat, end: nat, value: nat, tag: byte) returns (ok: bool, q: nat)
    requires p <= end <= buf.Length && value < TWO32
    modifies buf
    ensures ok <==> p + |EncodeUnsigned(value, tag)| <= end
    ensures ok ==> q == p + |EncodeUnsigned(value, tag)| && buf[p..q] == EncodeUnsigned(value, tag) && buf[..p] == old(buf[..p])
    ensures buf[end..] == old(buf[end..])
  {
    ok, q := Put(buf, p, end, [tag]);
    if !ok {
      return;
    }
    var c := StripZerosFrom([0] + Four(value));
    var t := q;
    ok, q := Put(buf, q, end, [|c|] + c);
    if ok {
      assert buf[p..q] == buf[..t][p..] + buf[t..q];
      assert buf[..p] == buf[..t][..p];
    }
  }
}
