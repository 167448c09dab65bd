/**
 The recursive parser and printer of src/json.c over value trees: depth cap, literal boundaries, comma rules,
 objects as hash maps.  Numbers are integers.
 */
module JsonTree {
  import opened Common
  import opened JsonText

  const MAX_JSON_DEPTH: nat := 64

  /** Hash-map keys are C strings. */
  type Key = s: bytes | NulFree(s) witness []

  /** Objects list their fields in some order, as a walk over the hash map does; parsing puts a new key last. */
  datatype Json = Null | Bool(b: bool) | Num(n: int) | Str(s: bytes) | Arr(items: Items) | Obj(fields: Fields)
  datatype Items = NoItems | Item(head: Json, rest: Items)
  datatype Fields = NoFields | Field(key: Key, value: Json, rest: Fields)

  /** The part of a byte string that C's string functions see. */
  function CString(s: bytes): (r: Key)
    ensures NulFree(s) ==> r == s
  {
    if s == [] || s[0] == 0 then [] else [s[0]] + CString(s[1..])
  }

  // ---------------------------------------------------------------- the hash map behind an object

  /** hash_str over signed characters, modulo 2^32. */
  function HashFrom(h: nat, s: bytes): nat
    decreases |s|
  {
    if s == [] then h
    else HashFrom((h * 33 + (if s[0] < 128 then s[0] as int else s[0] as int - 256)) % 0x1_0000_0000, s[1..])
  }

  /** New maps have 16 buckets and never grow. */
  function Bucket(k: bytes): nat { HashFrom(5381, k) % 16 }

  /** strncmp on C strings: equal in their first `n` bytes. */
  predicate SameStart(a: bytes, b: bytes, n: nat)
    decreases n
  {
    n == 0 || (if a == [] || b == [] then a == b else a[0] == b[0] && SameStart(a[1..], b[1..], n - 1))
  }

  /** Keys are compared by their first 128 bytes, within one bucket. */
  predicate SameSlot(a: bytes, b: bytes) {
    Bucket(a) == Bucket(b) && SameStart(a, b, 128)
  }

  lemma {:induction false} SameStartShort(a: bytes, b: bytes, n: nat)
    requires |a| < n
    ensures SameStart(a, b, n) <==> a == b
    decreases n
  {
    if a != [] && b != [] {
      SameStartShort(a[1..], b[1..], n - 1);
      assert a == [a[0]] + a[1..] && b == [b[0]] + b[1..];
    }
  }

  lemma {:induction false} SameStartSymmetric(a: bytes, b: bytes, n: nat)
    ensures SameStart(a, b, n) <==> SameStart(b, a, n)
    decreases n
  {
    if n > 0 && a != [] && b != [] { SameStartSymmetric(a[1..], b[1..], n - 1); }
  }

  lemma SameSlotSymmetric(a: bytes, b: bytes)
    ensures SameSlot(a, b) <==> SameSlot(b, a)
  {
    SameStartSymmetric(a, b, 128);
  }

  /** For keys under 128 bytes that is equality. */
  lemma ShortKeys(a: bytes, b: bytes)
    requires |a| < 128
    ensures SameSlot(a, b) <==> a == b
  {
    SameStartShort(a, b, 128);
  }

  function Put(f: Fields, k: Key, v: Json): Fields {
    match f
    case NoFields => Field(k, v, NoFields)
    case Field(k', v', rest) => if SameSlot(k', k) then Field(k', v, rest) else Field(k', v', Put(rest, k, v))
  }

  predicate Absent(f: Fields, k: bytes) {
    f.Field? ==> !SameSlot(f.key, k) && Absent(f.rest, k)
  }

  // ---------------------------------------------------------------- the parser

  predicate IsSpace(c: int) { c == 32 || 9 <= c <= 13 }
  predicate IsDigit(c: int) { 0x30 <= c <= 0x39 }
  predicate IsBoundary(c: int) { IsSpace(c) || c == 0x2C || c == 0x7D || c == 0x5D || c == 0 }

  function SkipWs(text: bytes, p: nat): (q: nat)
    ensures p <= q && (p <= |text| ==> q <= |text|)
    decreases |text| - p
  {
    if IsSpace(ByteAt(text, p)) then SkipWs(text, p + 1) else p
  }

  function DigitsEnd(text: bytes, p: nat): (q: nat)
    ensures p <= q && (p <= |text| ==> q <= |text|)
    decreases |text| - p
  {
    if IsDigit(ByteAt(text, p)) then DigitsEnd(text, p + 1) else p
  }

  function DigitsValue(text: bytes, p: nat, q: nat): int
    requires p <= q <= |text|
  {
    if p == q then 0 else 10 * DigitsValue(text, p, q - 1) + (text[q - 1] as int - 0x30)
  }

  datatype Parsed<T> = Parsed(value: T, next: nat)

  /** parse_number on integer tokens. */
  function ParseNumber(text: bytes, p: nat): (r: Option<Parsed<Json>>)
    requires p < |text|
    ensures r.Some? ==> p < r.value.next <= |text|
  {
    var s := if text[p] == 0x2D then p + 1 else p;
    var e := DigitsEnd(text, s);
    if ByteAt(text, s) == 0x30 && IsDigit(ByteAt(text, s + 1)) then None
    else if e == s || !IsBoundary(ByteAt(text, e)) then None
    else
      var v := DigitsValue(text, s, e);
      Some(Parsed(Num(if s > p then -v else v), e))
  }

  /** One of the words true, false and null, with a boundary after it. */
  function ParseWord(text: bytes, p: nat): (r: Option<Parsed<Json>>)
    ensures r.Some? ==> p < r.value.next <= |text|
  {
    if At(text, p, TRUE) && IsBoundary(ByteAt(text, p + 4)) then Some(Parsed(Bool(true), p + 4))
    else if At(text, p, FALSE) && IsBoundary(ByteAt(text, p + 5)) then Some(Parsed(Bool(false), p + 5))
    else if At(text, p, NULL) && IsBoundary(ByteAt(text, p + 4)) then Some(Parsed(Null, p + 4))
    else None
  }

  const TRUE: bytes := [0x74, 0x72, 0x75, 0x65]
  const FALSE: bytes := [0x66, 0x61, 0x6C, 0x73, 0x65]
  const NULL: bytes := [0x6E, 0x75, 0x6C, 0x6C]

  function ParseValue(text: bytes, p: nat, d: nat): (r: Option<Parsed<Json>>)
    ensures r.Some? ==> p < r.value.next <= |text|
    decreases |text| - p, 2
  {
    if d > MAX_JSON_DEPTH then None else ParseToken(text, SkipWs(text, p), d)
  }

  /** parse_value at a byte that is no blank. */
  function ParseToken(text: bytes, q: nat, d: nat): (r: Option<Parsed<Json>>)
    ensures r.Some? ==> q < r.value.next <= |text|
    decreases |text| - q, 1
  {
    var c := ByteAt(text, q);
    if c == 0 then None
    else if c == QUOTE then
      var s := ParseString(text, q);
      if s.None? then None else Some(Parsed(Str(s.value.chars), s.value.next))
    else if c == 0x2D || IsDigit(c) then ParseNumber(text, q)
    else if c == 0x7B then
      var f := ParseFields(text, q + 1, d + 1, NoFields);
      if f.None? then None else Some(Parsed(Obj(f.value.value), f.value.next))
    else if c == 0x5B then
      var l := ParseItems(text, q + 1, d + 1);
      if l.None? then None else Some(Parsed(Arr(l.value.value), l.value.next))
    else ParseWord(text, q)
  }

  /** The loop of parse_array: what is left of the list from `p` on. */
  function ParseItems(text: bytes, p: nat, d: nat): (r: Option<Parsed<Items>>)
    ensures r.Some? ==> p < r.value.next <= |text|
    decreases |text| - p, 3
  {
    if ByteAt(text, p) == 0 then None else
      var q := SkipWs(text, p);
      if ByteAt(text, q) == 0x5D then Some(Parsed(NoItems, q + 1)) else
        var v := ParseValue(text, q, d);
        if v.None? then None else
          var next := AfterElement(text, v.value.next, 0x5D);
          if next.None? then None else
            var rest := ParseItems(text, next.value, d);
            if rest.None? then None else Some(Parsed(Item(v.value.value, rest.value.value), rest.value.next))
  }

  /** Where the loop goes on after an element: past a comma that no closing bracket follows, or at the bracket. */
  function AfterElement(text: bytes, p: nat, close: byte): (r: Option<nat>)
    ensures r.Some? ==> p <= r.value && (p <= |text| ==> r.value <= |text|)
  {
    var q := SkipWs(text, p);
    if ByteAt(text, q) == 0x2C then
      var n := SkipWs(text, q + 1);
      if ByteAt(text, n) == close then None else Some(n)
    else if ByteAt(text, q) == close then Some(q)
    else None
  }

  datatype Pair = Pair(key: Key, value: Json)

  /** One key, colon and value of parse_object. */
  function ParsePair(text: bytes, q: nat, d: nat): (r: Option<Parsed<Pair>>)
    ensures r.Some? ==> q < r.value.next <= |text|
    decreases |text| - q, 3
  {
    if ByteAt(text, q) != QUOTE then None else
      var k := ParseString(text, q);
      if k.None? then None else
        var c := SkipWs(text, k.value.next);
        if ByteAt(text, c) != 0x3A then None else
          var v := ParseValue(text, c + 1, d);
          if v.None? then None else Some(Parsed(Pair(CString(k.value.chars), v.value.value), v.value.next))
  }

  /** The loop of parse_object, with the map built so far. */
  function ParseFields(text: bytes, p: nat, d: nat, acc: Fields): (r: Option<Parsed<Fields>>)
    ensures r.Some? ==> p < r.value.next <= |text|
    decreases |text| - p, 4
  {
    if ByteAt(text, p) == 0 then None else
      var q := SkipWs(text, p);
      if ByteAt(text, q) == 0x7D then Some(Parsed(acc, q + 1)) else
        var kv := ParsePair(text, q, d);
        if kv.None? then None else
          var next := AfterElement(text, kv.value.next, 0x7D);
          if next.None? then None else ParseFields(text, next.value, d, Put(acc, kv.value.value.key, kv.value.value.value))
  }

  /** parse_JSON: one value, then nothing but blanks. */
  function Parse(text: bytes): Option<Json> {
    var r := ParseValue(text, 0, 0);
    if r.None? || ByteAt(text, SkipWs(text, r.value.next)) != 0 then None else Some(r.value.value)
  }

  // ---------------------------------------------------------------- the printer

  function Digits(n: nat): (r: bytes)
    ensures r != []
  {
    if n < 10 then [0x30 + n] else Digits(n / 10) + [0x30 + n % 10]
  }

  /** As `%g` writes integers of at most six digits. */
  function PrintInt(n: int): bytes {
    if n < 0 then [0x2D] + Digits(-n) else Digits(n)
  }

  /** The string that stands for a value too deep to print. */
  const MARKER: bytes := [QUOTE, 0x23, 0x44, 0x45, 0x50, 0x54, 0x48, 0x5F, 0x4C, 0x49, 0x4D, 0x49, 0x54, 0x5F,
                          0x45, 0x58, 0x43, 0x45, 0x45, 0x44, 0x45, 0x44, 0x23, QUOTE]

  predicate IsScalar(v: Json) { !v.Arr? && !v.Obj? }

  function PrintScalar(v: Json): bytes
    requires IsScalar(v)
  {
    match v
    case Null => NULL
    case Bool(b) => if b then TRUE else FALSE
    case Num(n) => PrintInt(n)
    case Str(s) => Quoted(CString(s), false)
  }

  /** stringify_recursive at depth `d`. */
  function Print(v: Json, d: nat): bytes
    decreases v, 0
  {
    if d > MAX_JSON_DEPTH then MARKER else
      match v
      case Arr(items) => [0x5B] + PrintItems(items, d + 1) + [0x5D]
      case Obj(fields) => [0x7B] + PrintFields(fields, d + 1) + [0x7D]
      case _ => PrintScalar(v)
  }

  function PrintItems(items: Items, d: nat): bytes
    decreases items, 0
  {
    match items
    case NoItems => []
    case Item(v, rest) => Print(v, d) + (if rest.NoItems? then [] else [0x2C] + PrintItems(rest, d))
  }

  function PrintFields(f: Fields, d: nat): bytes
    decreases f, 0
  {
    match f
    case NoFields => []
    case Field(k, v, rest) =>
      PrintPair(k, v, d) + (if rest.NoFields? then [] else [0x2C] + PrintFields(rest, d))
  }

  function PrintPair(k: Key, v: Json, d: nat): bytes
    decreases v, 1
  {
    Quoted(k, false) + [0x3A] + Print(v, d)
  }
}
