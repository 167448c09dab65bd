/** Parsed values: their depth, their keys, and the equality of src/json.c as equality of meanings. */
module JsonMeaning {
  import opened Common
  import opened JsonText
  import opened JsonTree
  import opened JsonLayout
  import opened JsonRoundTrip

  // ---------------------------------------------------------------- what the parser accepts

  /** No node below depth 64, when the root is at depth `d`. */
  predicate Within(v: Json, d: nat) {
    d <= MAX_JSON_DEPTH &&
    match v
    case Arr(items) => WithinItems(items, d + 1)
    case Obj(fields) => WithinFields(fields, d + 1)
    case _ => true
  }

  predicate WithinItems(items: Items, d: nat) {
    items.Item? ==> Within(items.head, d) && WithinItems(items.rest, d)
  }

  predicate WithinFields(f: Fields, d: nat) {
    f.Field? ==> Within(f.value, d) && WithinFields(f.rest, d)
  }

  lemma {:induction false} AbsentAfterPut(f: Fields, k: Key, v: Json, k': Key)
    requires Absent(f, k') && !SameSlot(k, k')
    ensures Absent(Put(f, k, v), k')
  {
    if f.Field? && !SameSlot(f.key, k) { AbsentAfterPut(f.rest, k, v, k'); }
  }

  /** Putting keeps the slots distinct, whether it adds a key or replaces a value. */
  lemma {:induction false} PutKeeps(f: Fields, k: Key, v: Json, d: nat)
    requires DistinctFields(f) && WithinFields(f, d) && Distinct(v) && Within(v, d)
    ensures DistinctFields(Put(f, k, v)) && WithinFields(Put(f, k, v), d)
  {
    if f.Field? && !SameSlot(f.key, k) {
      PutKeeps(f.rest, k, v, d);
      SameSlotSymmetric(f.key, k);
      AbsentAfterPut(f.rest, k, v, f.key);
    }
  }

  /** Every accepted value stays within the depth cap and holds distinct keys, whatever the text. */
  lemma {:induction false} ParsedValue(text: bytes, p: nat, d: nat)
    requires ParseValue(text, p, d).Some?
    ensures var v := ParseValue(text, p, d).value.value; Within(v, d) && Distinct(v)
    decreases |text| - p, 2
  {
    ParsedToken(text, SkipWs(text, p), d);
  }

  lemma {:induction false} ParsedToken(text: bytes, q: nat, d: nat)
    requires d <= MAX_JSON_DEPTH && ParseToken(text, q, d).Some?
    ensures var v := ParseToken(text, q, d).value.value; Within(v, d) && Distinct(v)
    decreases |text| - q, 1
  {
    var c := ByteAt(text, q);
    if c == 0x7B {
      ParsedFields(text, q + 1, d + 1, NoFields);
    } else if c == 0x5B {
      ParsedItems(text, q + 1, d + 1);
    }
  }

  lemma {:induction false} ParsedItems(text: bytes, p: nat, d: nat)
    requires ParseItems(text, p, d).Some?
    ensures var l := ParseItems(text, p, d).value.value; WithinItems(l, d) && DistinctItems(l)
    decreases |text| - p, 3
  {
    var q := SkipWs(text, p);
    if ByteAt(text, q) != 0x5D {
      ParsedValue(text, q, d);
      var v := ParseValue(text, q, d).value;
      ParsedItems(text, AfterElement(text, v.next, 0x5D).value, d);
    }
  }

  lemma {:induction false} ParsedFields(text: bytes, p: nat, d: nat, acc: Fields)
    requires ParseFields(text, p, d, acc).Some? && WithinFields(acc, d) && DistinctFields(acc)
    ensures var f := ParseFields(text, p, d, acc).value.value; WithinFields(f, d) && DistinctFields(f)
    decreases |text| - p, 4
  {
    var q := SkipWs(text, p);
    if ByteAt(text, q) != 0x7D {
      ParsedPair(text, q, d);
      var kv := ParsePair(text, q, d).value;
      PutKeeps(acc, kv.value.key, kv.value.value, d);
      ParsedFields(text, AfterElement(text, kv.next, 0x7D).value, d, Put(acc, kv.value.key, kv.value.value));
    }
  }

  lemma {:induction false} ParsedPair(text: bytes, q: nat, d: nat)
    requires ParsePair(text, q, d).Some?
    ensures var v := ParsePair(text, q, d).value.value.value; Within(v, d) && Distinct(v)
    decreases |text| - q, 3
  {
    var k := ParseString(text, q).value;
    ParsedValue(text, SkipWs(text, k.next) + 1, d);
  }

  // ---------------------------------------------------------------- the depth marker

  /** The printer without its depth check. */
  function PrintAll(v: Json): bytes {
    match v
    case Arr(items) => [0x5B] + PrintAllItems(items) + [0x5D]
    case Obj(fields) => [0x7B] + PrintAllFields(fields) + [0x7D]
    case _ => PrintScalar(v)
  }

  function PrintAllItems(items: Items): bytes {
    match items
    case NoItems => []
    case Item(v, rest) => PrintAll(v) + (if rest.NoItems? then [] else [0x2C] + PrintAllItems(rest))
  }

  function PrintAllFields(f: Fields): bytes {
    match f
    case NoFields => []
    case Field(k, v, rest) =>
      Quoted(k, false) + [0x3A] + PrintAll(v) + (if rest.NoFields? then [] else [0x2C] + PrintAllFields(rest))
  }

  lemma {:induction false} PrintsAll(v: Json, d: nat)
    requires Within(v, d)
    ensures Print(v, d) == PrintAll(v)
    decreases v
  {
    match v
    case Arr(items) => PrintsAllItems(items, d + 1);
    case Obj(fields) => PrintsAllFields(fields, d + 1);
    case _ =>
  }

  lemma {:induction false} PrintsAllItems(items: Items, d: nat)
    requires WithinItems(items, d)
    ensures PrintItems(items, d) == PrintAllItems(items)
    decreases items
  {
    if items.Item? {
      PrintsAll(items.head, d);
      PrintsAllItems(items.rest, d);
    }
  }

  lemma {:induction false} PrintsAllFields(f: Fields, d: nat)
    requires WithinFields(f, d)
    ensures PrintFields(f, d) == PrintAllFields(f)
    decreases f
  {
    if f.Field? {
      PrintsAll(f.value, d);
      PrintsAllFields(f.rest, d);
    }
  }

  /** A parsed value never makes the printer write its depth marker, and it holds distinct keys. */
  lemma ParsedNeverTooDeep(text: bytes)
    requires Parse(text).Some?
    ensures var v := Parse(text).value; Print(v, 0) == PrintAll(v) && Distinct(v)
  {
    ParsedValue(text, 0, 0);
    PrintsAll(Parse(text).value, 0);
  }

  // ---------------------------------------------------------------- equality

  function Get(f: Fields, k: Key): Option<Json> {
    if f.NoFields? then None else if SameSlot(f.key, k) then Some(f.value) else Get(f.rest, k)
  }

  function Count(f: Fields): nat { if f.NoFields? then 0 else 1 + Count(f.rest) }

  function Length(items: Items): nat { if items.NoItems? then 0 else 1 + Length(items.rest) }

  /** impl_json_equals on trees; strings compare up to their first NUL. */
  predicate JsonEquals(a: Json, b: Json)
    decreases a
  {
    match a
    case Null => b.Null?
    case Bool(x) => b.Bool? && x == b.b
    case Num(n) => b.Num? && n == b.n
    case Str(s) => b.Str? && CString(s) == CString(b.s)
    case Arr(items) => b.Arr? && Length(items) == Length(b.items) && EqualItems(items, b.items)
    case Obj(fields) => b.Obj? && Count(fields) == Count(b.fields) && EqualFields(fields, b.fields)
  }

  predicate EqualItems(a: Items, b: Items)
    requires Length(a) == Length(b)
    decreases a
  {
    a.Item? ==> JsonEquals(a.head, b.head) && EqualItems(a.rest, b.rest)
  }

  predicate EqualFields(a: Fields, b: Fields)
    decreases a
  {
    a.Field? ==> var v := Get(b, a.key); v.Some? && JsonEquals(a.value, v.value) && EqualFields(a.rest, b)
  }

  /** What a tree means: objects are maps, strings end at their first NUL. */
  datatype Meaning = MNull | MBool(b: bool) | MNum(n: int) | MStr(s: Key) | MArr(items: seq<Meaning>) | MObj(fields: map<Key, Meaning>)

  function MeaningOf(v: Json): Meaning {
    match v
    case Null => MNull
    case Bool(b) => MBool(b)
    case Num(n) => MNum(n)
    case Str(s) => MStr(CString(s))
    case Arr(items) => MArr(ItemsMean(items))
    case Obj(fields) => MObj(FieldsMean(fields))
  }

  function ItemsMean(items: Items): (r: seq<Meaning>)
    ensures |r| == Length(items)
  {
    if items.NoItems? then [] else [MeaningOf(items.head)] + ItemsMean(items.rest)
  }

  function FieldsMean(f: Fields): map<Key, Meaning> {
    if f.NoFields? then map[] else FieldsMean(f.rest)[f.key := MeaningOf(f.value)]
  }

  /** Distinct slots and keys under 128 bytes. */
  predicate Plain(v: Json) {
    match v
    case Arr(items) => PlainItems(items)
    case Obj(fields) => PlainFields(fields)
    case _ => true
  }

  predicate PlainItems(items: Items) {
    items.Item? ==> Plain(items.head) && PlainItems(items.rest)
  }

  predicate PlainFields(f: Fields) {
    f.Field? ==> |f.key| < 128 && Absent(f.rest, f.key) && Plain(f.value) && PlainFields(f.rest)
  }

  lemma {:induction false} AbsentIsNotIn(f: Fields, k: Key)
    requires PlainFields(f)
    ensures Absent(f, k) <==> k !in FieldsMean(f)
  {
    if f.Field? {
      ShortKeys(f.key, k);
      AbsentIsNotIn(f.rest, k);
    }
  }

  /** The lookup is the map's. */
  lemma {:induction false} GetIsLookup(f: Fields, k: Key)
    requires PlainFields(f)
    ensures Get(f, k).Some? <==> k in FieldsMean(f)
    ensures Get(f, k).Some? ==> Plain(Get(f, k).value) && MeaningOf(Get(f, k).value) == FieldsMean(f)[k]
  {
    if f.Field? {
      ShortKeys(f.key, k);
      GetIsLookup(f.rest, k);
    }
  }

  lemma {:induction false} CountIsSize(f: Fields)
    requires PlainFields(f)
    ensures Count(f) == |FieldsMean(f)|
  {
    if f.Field? {
      CountIsSize(f.rest);
      AbsentIsNotIn(f.rest, f.key);
      var m := FieldsMean(f.rest);
      assert FieldsMean(f).Keys == m.Keys + {f.key};
    }
  }

  /** `a` is part of `b`. */
  ghost predicate Included(a: map<Key, Meaning>, b: map<Key, Meaning>) {
    forall k :: k in a ==> k in b && a[k] == b[k]
  }

  lemma IncludedOfSameSize(a: map<Key, Meaning>, b: map<Key, Meaning>)
    requires Included(a, b) && |a| == |b|
    ensures a == b
  {
    assert a.Keys <= b.Keys;
    SubsetOfSameSize(a.Keys, b.Keys);
  }

  lemma SubsetOfSameSize(x: set<Key>, y: set<Key>)
    requires x <= y && |x| == |y|
    ensures x == y
  {
    assert |y - x| == |y| - |x|;
    assert y == x + (y - x);
  }

  /** The equality of src/json.c is equality of meanings: the order of keys and of buckets plays no part. */
  lemma {:induction false} EqualsIsSameMeaning(a: Json, b: Json)
    requires Plain(a) && Plain(b)
    ensures JsonEquals(a, b) <==> MeaningOf(a) == MeaningOf(b)
    decreases a
  {
    match a
    case Arr(items) =>
      if b.Arr? && Length(items) == Length(b.items) { EqualItemsMean(items, b.items); }
    case Obj(fields) =>
      if b.Obj? {
        EqualFieldsMean(fields, b.fields);
        CountIsSize(fields);
        CountIsSize(b.fields);
        if JsonEquals(a, b) { IncludedOfSameSize(FieldsMean(fields), FieldsMean(b.fields)); }
      }
    case _ =>
  }

  lemma {:induction false} EqualItemsMean(a: Items, b: Items)
    requires Length(a) == Length(b) && PlainItems(a) && PlainItems(b)
    ensures EqualItems(a, b) <==> ItemsMean(a) == ItemsMean(b)
    decreases a
  {
    if a.Item? {
      EqualsIsSameMeaning(a.head, b.head);
      EqualItemsMean(a.rest, b.rest);
      var x, y := ItemsMean(a), ItemsMean(b);
      assert x[0] == MeaningOf(a.head) && y[0] == MeaningOf(b.head);
      assert x[1..] == ItemsMean(a.rest) && y[1..] == ItemsMean(b.rest);
    }
  }

  lemma {:induction false} EqualFieldsMean(a: Fields, b: Fields)
    requires PlainFields(a) && PlainFields(b)
    ensures EqualFields(a, b) <==> Included(FieldsMean(a), FieldsMean(b))
    decreases a
  {
    if a.Field? {
      GetIsLookup(b, a.key);
      var v := Get(b, a.key);
      if v.Some? { EqualsIsSameMeaning(a.value, v.value); }
      EqualFieldsMean(a.rest, b);
      AbsentIsNotIn(a.rest, a.key);
      var x, y := FieldsMean(a), FieldsMean(b);
      assert x[a.key] == MeaningOf(a.value);
      assert forall k :: k in FieldsMean(a.rest) ==> k in x && x[k] == FieldsMean(a.rest)[k];
    }
  }

  /** Printing, parsing and comparing: any order of printing the keys gives a value equal to the one printed. */
  lemma ReorderedRoundTrip(v: Json, w: Json)
    requires Plain(v) && Plain(w) && Distinct(w) && MeaningOf(v) == MeaningOf(w)
    requires SmallNumbers(w) && Fine(w, 0) && Cut(w) == w
    ensures Parse(Print(w, 0)).Some? && JsonEquals(v, Parse(Print(w, 0)).value)
  {
    RoundTrip(w);
    EqualsIsSameMeaning(v, w);
  }
}
