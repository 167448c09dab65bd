/**
 Percent-encoding: url_encode of src/http_request_builder.c and the in-place url_decode_query_component of
 src/http_server.c.  Texts are C strings, so no byte is NUL.
 */
module UrlQuery {
  import opened Common

  type bytes = seq<byte>

  const PERCENT: byte := 0x25
  const PLUS: byte := 0x2B
  const AMPERSAND: byte := 0x26
  const EQUALS: byte := 0x3D

  predicate NulFree(s: bytes) { forall i :: 0 <= i < |s| ==> s[i] != 0 }

  predicate Unreserved(c: byte) {
    0x61 <= c <= 0x7A || 0x41 <= c <= 0x5A || 0x30 <= c <= 0x39 || c == 0x2D || c == 0x5F || c == 0x2E || c == 0x7E
  }

  function HexDigit(h: nat): (c: byte)
    requires h < 16
    ensures HexValue(c) == h
  {
    if h < 10 then 0x30 + h else 0x41 + h - 10
  }

  function HexValue(c: byte): (h: int)
    ensures -1 <= h < 16
  {
    if 0x30 <= c <= 0x39 then c - 0x30
    else if 0x41 <= c <= 0x46 then c - 0x41 + 10
    else if 0x61 <= c <= 0x66 then c - 0x61 + 10
    else -1
  }

  function EncodeByte(c: byte): bytes {
    if Unreserved(c) then [c] else [PERCENT, HexDigit(c / 16), HexDigit(c % 16)]
  }

  function Encode(s: bytes): bytes {
    if s == [] then [] else EncodeByte(s[0]) + Encode(s[1..])
  }

  /** One step of the decoder: the byte written and how many were read; None when the text is rejected. */
  function DecodeStep(s: bytes): (r: Option<(byte, nat)>)
    requires s != []
    ensures r.Some? ==> 0 < r.value.1 <= |s|
  {
    if s[0] == PERCENT then
      if |s| < 3 || HexValue(s[1]) < 0 || HexValue(s[2]) < 0 || HexValue(s[1]) * 16 + HexValue(s[2]) == 0 then None
      else Some((HexValue(s[1]) * 16 + HexValue(s[2]), 3))
    else if s[0] == PLUS then Some((32, 1))
    else Some((s[0], 1))
  }

  function Decode(s: bytes): (r: Option<bytes>)
    ensures r.Some? ==> |r.value| <= |s|
  {
    if s == [] then Some([]) else
      var d := DecodeStep(s);
      if d.None? then None else
        var rest := Decode(s[d.value.1..]);
        if rest.None? then None else Some([d.value.0] + rest.value)
  }

  /** Decoding undoes encoding on every C string. */
  lemma {:induction false} EncodeDecode(s: bytes)
    requires NulFree(s)
    ensures Decode(Encode(s)) == Some(s)
  {
    if s != [] {
      var e, rest := EncodeByte(s[0]), Encode(s[1..]);
      assert (e + rest)[|e|..] == rest;
      EncodeDecode(s[1..]);
      assert [s[0]] + s[1..] == s;
    }
  }

  // ---------------------------------------------------------------- what an encoded text says

  /** A byte as it is, a plus sign for a blank, or a percent sign and two digits of either case. */
  datatype Unit = Raw(c: byte) | Blank | Coded(c: byte, hi: byte, lo: byte)

  predicate Digit(c: byte, h: nat) {
    if h < 10 then c == 0x30 + h else h < 16 && (c == 0x41 + h - 10 || c == 0x61 + h - 10)
  }

  predicate UnitOk(u: Unit) {
    match u
    case Raw(c) => c != PERCENT && c != PLUS
    case Blank => true
    case Coded(c, hi, lo) => c != 0 && Digit(hi, c / 16) && Digit(lo, c % 16)
  }

  function Written(u: Unit): bytes {
    match u
    case Raw(c) => [c]
    case Blank => [PLUS]
    case Coded(_, hi, lo) => [PERCENT, hi, lo]
  }

  function Meant(u: Unit): byte { if u.Blank? then 0x20 else u.c }

  predicate UnitsOk(us: seq<Unit>) { forall i :: 0 <= i < |us| ==> UnitOk(us[i]) }

  function WrittenAll(us: seq<Unit>): bytes {
    if us == [] then [] else Written(us[0]) + WrittenAll(us[1..])
  }

  function MeantAll(us: seq<Unit>): bytes {
    if us == [] then [] else [Meant(us[0])] + MeantAll(us[1..])
  }

  /** The characters that section 2.3 of RFC 3986 calls unreserved. */
  predicate Letter(c: char) {
    'a' <= c <= 'z' || 'A' <= c <= 'Z' || '0' <= c <= '9' || c in "-._~"
  }

  /** url_encode leaves those and writes every other byte as a percent sign and two digits, of the upper case. */
  lemma EncodedByte(c: byte)
    ensures EncodeByte(c) == if Letter(c as char) then [c] else [PERCENT, "0123456789ABCDEF"[c / 16] as byte, "0123456789ABCDEF"[c % 16] as byte]
  {
  }

  lemma UnitIsRead(u: Unit, rest: bytes)
    requires UnitOk(u)
    ensures DecodeStep(Written(u) + rest) == Some((Meant(u), |Written(u)|)) && (Written(u) + rest)[|Written(u)|..] == rest
  {
  }

  /** Any text made of such units decodes to what they mean, in order. */
  lemma {:induction false} UnitsAreRead(us: seq<Unit>)
    requires UnitsOk(us)
    ensures Decode(WrittenAll(us)) == Some(MeantAll(us))
  {
    if us != [] {
      UnitIsRead(us[0], WrittenAll(us[1..]));
      UnitsAreRead(us[1..]);
    }
  }

  lemma ReadIsUnit(s: bytes) returns (u: Unit)
    requires s != [] && DecodeStep(s).Some?
    ensures UnitOk(u) && (Meant(u), |Written(u)|) == DecodeStep(s).value && s == Written(u) + s[|Written(u)|..]
  {
    if s[0] == PERCENT {
      var c := HexValue(s[1]) * 16 + HexValue(s[2]);
      u := Coded(c, s[1], s[2]);
    } else if s[0] == PLUS {
      u := Blank;
    } else {
      u := Raw(s[0]);
    }
  }

  /** And no other text is accepted. */
  lemma {:induction false} ReadIsUnits(s: bytes) returns (us: seq<Unit>)
    requires Decode(s).Some?
    ensures UnitsOk(us) && s == WrittenAll(us)
    decreases |s|
  {
    us := [];
    if s != [] {
      var u := ReadIsUnit(s);
      var rest := ReadIsUnits(s[|Written(u)|..]);
      us := [u] + rest;
      assert us[1..] == rest;
    }
  }

  function Then(a: bytes, rest: Option<bytes>): Option<bytes> {
    if rest.None? then None else Some(a + rest.value)
  }

  /** url_decode_query_component: the write cursor never passes the read cursor, so the text is decoded in place. */
  method DecodeInPlace(str: array<byte>) returns (len: Option<nat>)
    modifies str
    ensures match Decode(old(str[..]))
            case None => len == None
            case Some(d) => len == Some(|d|) && |d| <= str.Length && str[..|d|] == d
  {
    ghost var s := str[..];
    ghost var goal := Decode(s);
    var src, dst, good := 0, 0, true;
    assert s[0..] == s && str[..0] == [];
    if goal.Some? { assert [] + goal.value == goal.value; }
    while src < str.Length
      invariant 0 <= dst <= src <= str.Length == |s| && str[src..] == s[src..]
      invariant goal == Then(str[..dst], Decode(s[src..]))
    {
      good, src, dst := DecodeTurn(str, src, dst, s, goal);
      if !good {
        return None;
      }
    }
    assert s[src..] == [] && str[..dst] + [] == str[..dst];
    len := Some(dst);
  }

  /** One turn of the loop; `good` is false when the text is rejected. */
  method DecodeTurn(str: array<byte>, src: nat, dst: nat, ghost s: bytes, ghost goal: Option<bytes>) returns (good: bool, src': nat, dst': nat)
    requires dst <= src < str.Length == |s| && str[src..] == s[src..] && goal == Then(str[..dst], Decode(s[src..]))
    modifies str
    ensures if good
            then dst' <= src' <= str.Length && src < src' && str[src'..] == s[src'..] && goal == Then(str[..dst'], Decode(s[src'..]))
            else goal == None
  {
    var d := ReadByte(str, src);
    Step(str[..dst], s, src);
    if d.None? {
      return false, src, dst;
    }
    WriteAt(str, dst, d.value.0, src + d.value.1);
    Suffix(s, src, src + d.value.1);
    return true, src + d.value.1, dst + 1;
  }

  /** The byte that the text stands for at `src`, and how many bytes it takes. */
  method ReadByte(str: array<byte>, src: nat) returns (d: Option<(byte, nat)>)
    requires src < str.Length
    ensures d == DecodeStep(str[src..])
  {
    if str[src] == PERCENT {
      if src + 2 >= str.Length {
        return None;
      }
      var hi, lo := HexValue(str[src + 1]), HexValue(str[src + 2]);
      if hi < 0 || lo < 0 {
        return None;
      }
      var decoded := hi * 16 + lo;
      if decoded == 0 {
        return None;
      }
      return Some((decoded, 3));
    }
    if str[src] == PLUS {
      return Some((32, 1));
    }
    return Some((str[src], 1));
  }

  method WriteAt(str: array<byte>, dst: nat, c: byte, ghost next: nat)
    requires dst < next <= str.Length
    modifies str
    ensures str[..dst + 1] == old(str[..dst]) + [c] && str[next..] == old(str[next..])
  {
    str[dst] := c;
  }

  lemma Suffix(s: bytes, i: nat, j: nat)
    requires i <= j <= |s|
    ensures s[i..][j - i..] == s[j..]
  {
  }

  lemma Step(a: bytes, s: bytes, src: nat)
    requires src < |s|
    ensures var d := DecodeStep(s[src..]);
            Then(a, Decode(s[src..])) == if d.None? then None else Then(a + [d.value.0], Decode(s[src + d.value.1..]))
  {
    var t := s[src..];
    var d := DecodeStep(t);
    if d.Some? {
      assert t[d.value.1..] == s[src + d.value.1..];
      var rest := Decode(t[d.value.1..]);
      if rest.Some? { assert a + ([d.value.0] + rest.value) == a + [d.value.0] + rest.value; }
    }
  }

  // ---------------------------------------------------------------- forms and query strings

  datatype Pair = Pair(key: bytes, value: bytes)

  function PairText(p: Pair): bytes {
    Encode(p.key) + [EQUALS] + Encode(p.value)
  }

  /** build_form_body over the keys in their order. */
  function FormBody(ps: seq<Pair>): bytes {
    if ps == [] then [] else PairText(ps[0]) + FormRest(ps[1..])
  }

  function FormRest(ps: seq<Pair>): bytes {
    if ps == [] then [] else [AMPERSAND] + PairText(ps[0]) + FormRest(ps[1..])
  }

  /** The place of the first byte `c`, or the length. */
  function Find(q: bytes, c: byte): (n: nat)
    ensures n <= |q| && (n < |q| ==> q[n] == c) && forall i :: 0 <= i < n ==> q[i] != c
  {
    if q == [] || q[0] == c then 0 else 1 + Find(q[1..], c)
  }

  lemma FindIs(q: bytes, c: byte, n: nat)
    requires n <= |q| && (n < |q| ==> q[n] == c) && forall i :: 0 <= i < n ==> q[i] != c
    ensures Find(q, c) == n
  {
  }

  /** What a token of the query adds to the parameters: nothing when it has no equals sign, None when it is rejected. */
  function TokenPairs(t: bytes): Option<seq<Pair>> {
    var n := Find(t, EQUALS);
    if n == |t| then Some([])
    else
      var k, v := Decode(t[..n]), Decode(t[n + 1..]);
      if k.None? || v.None? then None else Some([Pair(k.value, v.value)])
  }

  function Prepend(a: seq<Pair>, b: Option<seq<Pair>>): Option<seq<Pair>> {
    if b.None? then None else Some(a + b.value)
  }

  /** The parameters of a query string, in order; an empty token between two separators adds nothing. */
  function Query(q: bytes): Option<seq<Pair>> {
    if q == [] then Some([])
    else
      var n := Find(q, AMPERSAND);
      var ps := TokenPairs(q[..n]);
      if ps.None? then None else Prepend(ps.value, if n == |q| then Some([]) else Query(q[n + 1..]))
  }

  /** Tokens with ampersands between them. */
  function WithAmpersands(ts: seq<bytes>): bytes
    requires ts != []
  {
    if |ts| == 1 then ts[0] else ts[0] + [AMPERSAND] + WithAmpersands(ts[1..])
  }

  /** The parameters of the tokens one after another, if none is rejected. */
  function PairsOf(ts: seq<bytes>): Option<seq<Pair>> {
    if ts == [] then Some([]) else
      var ps := TokenPairs(ts[0]);
      if ps.None? then None else Prepend(ps.value, PairsOf(ts[1..]))
  }

  /** A query string is read token by token, whatever its tokens are. */
  lemma {:induction false} QueryIsTokens(ts: seq<bytes>)
    requires ts != [] && forall i :: 0 <= i < |ts| ==> AMPERSAND !in ts[i]
    ensures Query(WithAmpersands(ts)) == PairsOf(ts)
  {
    var t := ts[0];
    assert AMPERSAND !in t;
    FindIs(t, AMPERSAND, |t|);
    if |ts| == 1 {
      assert t[..|t|] == t && PairsOf(ts[1..]) == Some([]);
      if TokenPairs(t).Some? { assert TokenPairs(t).value + [] == TokenPairs(t).value; }
    } else {
      FindAcross(t, WithAmpersands(ts[1..]), WithAmpersands(ts));
      QueryIsTokens(ts[1..]);
    }
  }

  /** A token is a parameter if it has an equals sign; the first one ends the key. */
  lemma TokenIsPair(k: bytes, v: bytes)
    requires EQUALS !in k
    ensures TokenPairs(k) == Some([])
    ensures TokenPairs(k + [EQUALS] + v)
         == if Decode(k).Some? && Decode(v).Some? then Some([Pair(Decode(k).value, Decode(v).value)]) else None
  {
    FindIs(k, EQUALS, |k|);
    Around(k, EQUALS, v);
    FindIs(k + [EQUALS] + v, EQUALS, |k|);
  }

  predicate Safe(s: bytes) {
    forall i :: 0 <= i < |s| ==> s[i] != AMPERSAND && s[i] != EQUALS
  }

  lemma {:induction false} EncodeIsSafe(s: bytes)
    ensures Safe(Encode(s))
  {
    if s != [] { EncodeIsSafe(s[1..]); }
  }

  lemma Around(a: bytes, c: byte, b: bytes)
    ensures var q := a + [c] + b;
            && |q| == |a| + 1 + |b| && q[|a|] == c && q[..|a|] == a && q[|a| + 1..] == b
            && (forall i :: 0 <= i < |a| ==> q[i] == a[i])
  {
  }

  lemma FindInPair(a: bytes, b: bytes)
    requires Safe(a) && Safe(b)
    ensures var t := a + [EQUALS] + b; Find(t, EQUALS) == |a| && t[..|a|] == a && t[|a| + 1..] == b && Find(t, AMPERSAND) == |t|
  {
    var t := a + [EQUALS] + b;
    FindIs(t, EQUALS, |a|);
    FindIs(t, AMPERSAND, |t|);
  }

  lemma PairIsRead(p: Pair)
    requires NulFree(p.key) && NulFree(p.value)
    ensures TokenPairs(PairText(p)) == Some([p]) && Find(PairText(p), AMPERSAND) == |PairText(p)| && PairText(p) != []
  {
    EncodeIsSafe(p.key);
    EncodeIsSafe(p.value);
    FindInPair(Encode(p.key), Encode(p.value));
    EncodeDecode(p.key);
    EncodeDecode(p.value);
  }

  lemma FindAcross(t: bytes, rest: bytes, q: bytes)
    requires Find(t, AMPERSAND) == |t| && q == t + [AMPERSAND] + rest
    ensures Find(q, AMPERSAND) == |t| && q[..|t|] == t && q[|t| + 1..] == rest
  {
    Around(t, AMPERSAND, rest);
    FindIs(q, AMPERSAND, |t|);
  }

  lemma FormStep(ps: seq<Pair>)
    requires |ps| > 1
    ensures FormBody(ps) == PairText(ps[0]) + [AMPERSAND] + FormBody(ps[1..])
  {
    Associate(PairText(ps[0]), [AMPERSAND], PairText(ps[1..][0]) + FormRest(ps[1..][1..]));
    Associate([AMPERSAND], PairText(ps[1..][0]), FormRest(ps[1..][1..]));
  }

  /** Splitting and decoding a form body gives back its keys and values, all of them and in order. */
  lemma {:induction false} FormRoundTrip(ps: seq<Pair>)
    requires forall i :: 0 <= i < |ps| ==> NulFree(ps[i].key) && NulFree(ps[i].value)
    ensures Query(FormBody(ps)) == Some(ps)
  {
    if |ps| == 1 {
      PairIsRead(ps[0]);
      assert FormBody(ps) == PairText(ps[0]) + [] == PairText(ps[0]);
      var t := PairText(ps[0]);
      assert t[..|t|] == t && [ps[0]] + [] == ps;
    } else if |ps| > 1 {
      PairIsRead(ps[0]);
      FormStep(ps);
      FindAcross(PairText(ps[0]), FormBody(ps[1..]), FormBody(ps));
      FormRoundTrip(ps[1..]);
      assert [ps[0]] + ps[1..] == ps;
    }
  }

  /** The loop of build_form_body: an ampersand before every pair but the first. */
  method BuildForm(ps: seq<Pair>) returns (body: bytes)
    ensures body == FormBody(ps)
  {
    body := [];
    ghost var all := FormBody(ps);
    for i := 0 to |ps|
      invariant all == body + if i == 0 then FormBody(ps) else FormRest(ps[i..])
    {
      ghost var was := body;
      if i > 0 {
        body := body + [AMPERSAND];
      }
      body := body + PairText(ps[i]);
      FormTurn(was, ps, i);
    }
    assert ps[|ps|..] == [] && body + [] == body;
  }

  lemma FormTurn(body: bytes, ps: seq<Pair>, i: nat)
    requires i < |ps|
    ensures body + (if i == 0 then FormBody(ps) else FormRest(ps[i..]))
         == (if i > 0 then body + [AMPERSAND] else body) + PairText(ps[i]) + FormRest(ps[i + 1..])
  {
    assert ps[i..][1..] == ps[i + 1..] && ps[i..][0] == ps[i];
    Associate(body, PairText(ps[i]), FormRest(ps[i + 1..]));
    Associate(body, [AMPERSAND] + PairText(ps[i]), FormRest(ps[i + 1..]));
    Associate(body, [AMPERSAND], PairText(ps[i]));
  }

  method FindByte(q: bytes, from: nat, c: byte) returns (n: nat)
    requires from <= |q|
    ensures n == from + Find(q[from..], c)
  {
    n := from;
    assert q[from..][0..] == q[from..];
    while n < |q| && q[n] != c
      invariant from <= n <= |q| && n - from + Find(q[n..], c) == Find(q[from..], c)
    {
      assert q[n..][1..] == q[n + 1..];
      n := n + 1;
    }
  }

  /** A copy of the text is decoded in place. */
  method DecodeCopy(t: bytes) returns (r: Option<bytes>)
    ensures r == Decode(t)
  {
    var copy := new byte[|t|](i requires 0 <= i < |t| => t[i]);
    assert copy[..] == t;
    var len := DecodeInPlace(copy);
    r := if len.None? then None else Some(copy[..len.value]);
  }

  method ReadToken(t: bytes) returns (ps: Option<seq<Pair>>)
    ensures ps == TokenPairs(t)
  {
    var eq := FindByte(t, 0, EQUALS);
    assert t[0..] == t;
    if eq == |t| {
      return Some([]);
    }
    var k := DecodeCopy(t[..eq]);
    var v := DecodeCopy(t[eq + 1..]);
    if k.None? || v.None? {
      return None;
    }
    return Some([Pair(k.value, v.value)]);
  }

  /** The tokens of a query string, one after the other, as strtok_r delivers them. */
  method ReadQuery(q: bytes) returns (r: Option<seq<Pair>>)
    ensures r == Query(q)
  {
    var done, i: nat := [], 0;
    assert q[0..] == q;
    PrependNone(Query(q));
    while i < |q|
      invariant i <= |q| && Query(q) == Prepend(done, Query(q[i..]))
      decreases |q| - i
    {
      var n := FindByte(q, i, AMPERSAND);
      var ps := ReadToken(q[i..n]);
      QueryTurn(q, i, n, done, ps);
      if ps.None? {
        return None;
      }
      done := done + ps.value;
      i := if n < |q| then n + 1 else n;
    }
    r := Some(done);
    AllRead(q, i, done);
  }

  lemma AllRead(q: bytes, i: nat, done: seq<Pair>)
    requires i == |q|
    ensures Prepend(done, Query(q[i..])) == Some(done)
  {
    assert q[i..] == [] && done + [] == done;
  }

  lemma PrependNone(b: Option<seq<Pair>>)
    ensures Prepend([], b) == b
  {
    if b.Some? { assert [] + b.value == b.value; }
  }

  lemma QueryStep(t: bytes, m: nat, rest: bytes)
    requires t != [] && m == Find(t, AMPERSAND) <= |t| && rest == t[if m < |t| then m + 1 else m..]
    ensures var ps := TokenPairs(t[..m]); Query(t) == if ps.None? then None else Prepend(ps.value, Query(rest))
  {
  }

  lemma PrependTwice(a: seq<Pair>, b: seq<Pair>, r: Option<seq<Pair>>)
    ensures Prepend(a, Prepend(b, r)) == Prepend(a + b, r)
  {
    if r.Some? { Associate(a, b, r.value); }
  }

  lemma QueryTurn(q: bytes, i: nat, n: nat, done: seq<Pair>, ps: Option<seq<Pair>>)
    requires i < |q| && n == i + Find(q[i..], AMPERSAND) && n <= |q| && TokenPairs(q[i..n]) == ps
    ensures Prepend(done, Query(q[i..])) == if ps.None? then None else Prepend(done + ps.value, Query(q[if n < |q| then n + 1 else n..]))
  {
    var t, rest := q[i..], q[if n < |q| then n + 1 else n..];
    assert t[..n - i] == q[i..n] && rest == t[if n - i < |t| then n - i + 1 else n - i..];
    QueryStep(t, n - i, rest);
    if ps.Some? { PrependTwice(done, ps.value, Query(rest)); }
  }
}
