/**
 The tree induction behind the JSON round trip: what any parser that obeys the rules of parse_value, parse_array
 and parse_object makes of a tree laid out in a text, given what it makes of scalars and keys.
 */
module JsonLayout {
  import opened Common
  import opened JsonText
  import opened JsonTree

  /** A byte that a printed value may start with. */
  predicate Starts(c: int) {
    c == QUOTE || c == 0x2D || IsDigit(c) || c == 0x5B || c == 0x7B || c == 0x74 || c == 0x66 || c == 0x6E
  }

  lemma Here(text: bytes, p: nat)
    requires !IsSpace(ByteAt(text, p))
    ensures SkipWs(text, p) == p
  {
  }

  /** The list is over: the closing bracket comes next. */
  lemma ElementLast(text: bytes, q: nat, close: byte)
    requires ByteAt(text, q) == close && (close == 0x5D || close == 0x7D)
    ensures AfterElement(text, q, close) == Some(q)
  {
  }

  /** A comma and another element come next. */
  lemma ElementMore(text: bytes, q: nat, close: byte)
    requires ByteAt(text, q) == 0x2C && Starts(ByteAt(text, q + 1)) && (close == 0x5D || close == 0x7D)
    ensures AfterElement(text, q, close) == Some(q + 1)
  {
    Here(text, q + 1);
  }


  // ---------------------------------------------------------------- rules

  /** How scalars and keys are written and read. */
  datatype Leaves = Leaves(
    size: Json -> nat,                 // length of a printed scalar
    keySize: Key -> nat,               // length of a quoted key
    at: (nat, Json) -> bool,           // the printed scalar stands at this place of the text
    keyAt: (nat, Key) -> bool,         // the quoted key stands at this place
    read: Json -> Option<Json>,        // what reading the printed scalar gives
    clean: Key -> bool)                // the quoted key is read back

  /** The parsing functions over one text. */
  datatype Parser = Parser(
    value: (nat, nat) -> Option<Parsed<Json>>,
    items: (nat, nat) -> Option<Parsed<Items>>,
    fields: (nat, nat, Fields) -> Option<Parsed<Fields>>,
    pair: (nat, nat) -> Option<Parsed<Pair>>)

  function InArray(l: Option<Parsed<Items>>): Option<Parsed<Json>> {
    if l.None? then None else Some(Parsed(Arr(l.value.value), l.value.next))
  }

  function InObject(f: Option<Parsed<Fields>>): Option<Parsed<Json>> {
    if f.None? then None else Some(Parsed(Obj(f.value.value), f.value.next))
  }

  function AddItem(v: Json, rest: Option<Parsed<Items>>): Option<Parsed<Items>> {
    if rest.None? then None else Some(Parsed(Item(v, rest.value.value), rest.value.next))
  }

  function WithKey(k: Key, v: Option<Parsed<Json>>): Option<Parsed<Pair>> {
    if v.None? then None else Some(Parsed(Pair(k, v.value.value), v.value.next))
  }

  function EndingAt<T>(v: Option<T>, next: nat): Option<Parsed<T>> {
    if v.None? then None else Some(Parsed(v.value, next))
  }

  datatype Rule =
    | TooDeep(p: nat, d: nat) | Scalar(p: nat, v: Json, d: nat) | Array(p: nat, d: nat) | Object(p: nat, d: nat)
    | ItemsEnd(p: nat, d: nat) | ItemsStep(p: nat, d: nat)
    | FieldsEnd(p: nat, d: nat, acc: Fields) | FieldsStep(p: nat, d: nat, acc: Fields) | KeyStep(p: nat, k: Key, d: nat)

  ghost predicate ScalarRule(g: Parser, l: Leaves, text: bytes, p: nat, v: Json, d: nat) {
    d <= MAX_JSON_DEPTH && IsScalar(v) && l.at(p, v) && IsBoundary(ByteAt(text, p + l.size(v))) ==>
      g.value(p, d) == EndingAt(l.read(v), p + l.size(v))
  }

  ghost predicate ArrayRule(g: Parser, text: bytes, p: nat, d: nat) {
    d <= MAX_JSON_DEPTH && ByteAt(text, p) == 0x5B ==> g.value(p, d) == InArray(g.items(p + 1, d + 1))
  }

  ghost predicate ObjectRule(g: Parser, text: bytes, p: nat, d: nat) {
    d <= MAX_JSON_DEPTH && ByteAt(text, p) == 0x7B ==> g.value(p, d) == InObject(g.fields(p + 1, d + 1, NoFields))
  }

  ghost predicate ItemsRule(g: Parser, text: bytes, p: nat, d: nat) {
    Starts(ByteAt(text, p)) ==>
      var v := g.value(p, d);
      if v.None? then g.items(p, d) == None else
        var n := AfterElement(text, v.value.next, 0x5D);
        n.Some? ==> g.items(p, d) == AddItem(v.value.value, g.items(n.value, d))
  }

  ghost predicate FieldsRule(g: Parser, text: bytes, p: nat, d: nat, acc: Fields) {
    ByteAt(text, p) == QUOTE ==>
      var kv := g.pair(p, d);
      if kv.None? then g.fields(p, d, acc) == None else
        var n := AfterElement(text, kv.value.next, 0x7D);
        n.Some? ==> g.fields(p, d, acc) == g.fields(n.value, d, Put(acc, kv.value.value.key, kv.value.value.value))
  }

  ghost predicate KeyRule(g: Parser, l: Leaves, text: bytes, p: nat, k: Key, d: nat) {
    l.keyAt(p, k) && ByteAt(text, p + l.keySize(k)) == 0x3A ==>
      g.pair(p, d) == if l.clean(k) then WithKey(k, g.value(p + l.keySize(k) + 1, d)) else None
  }

  ghost predicate RuleOk(g: Parser, l: Leaves, text: bytes, r: Rule) {
    match r
    case TooDeep(p, d) => d > MAX_JSON_DEPTH ==> g.value(p, d) == None
    case Scalar(p, v, d) => ScalarRule(g, l, text, p, v, d)
    case Array(p, d) => ArrayRule(g, text, p, d)
    case Object(p, d) => ObjectRule(g, text, p, d)
    case ItemsEnd(p, d) => ByteAt(text, p) == 0x5D ==> g.items(p, d) == Some(Parsed(NoItems, p + 1))
    case ItemsStep(p, d) => ItemsRule(g, text, p, d)
    case FieldsEnd(p, d, acc) => ByteAt(text, p) == 0x7D ==> g.fields(p, d, acc) == Some(Parsed(acc, p + 1))
    case FieldsStep(p, d, acc) => FieldsRule(g, text, p, d, acc)
    case KeyStep(p, k, d) => KeyRule(g, l, text, p, k, d)
  }

  ghost predicate Obeys(g: Parser, l: Leaves, text: bytes) {
    forall r: Rule :: RuleOk(g, l, text, r)
  }

  lemma Law(g: Parser, l: Leaves, text: bytes, r: Rule)
    requires Obeys(g, l, text)
    ensures RuleOk(g, l, text, r)
  {
  }

  // ---------------------------------------------------------------- building the map

  function Concat(a: Fields, b: Fields): Fields {
    if a.NoFields? then b else Field(a.key, a.value, Concat(a.rest, b))
  }

  /** No key of `f` is in `acc`. */
  predicate Fresh(acc: Fields, f: Fields) {
    f.Field? ==> Absent(acc, f.key) && Fresh(acc, f.rest)
  }

  lemma {:induction false} PutAbsent(acc: Fields, k: Key, v: Json)
    requires Absent(acc, k)
    ensures Put(acc, k, v) == Concat(acc, Field(k, v, NoFields))
  {
    if acc.Field? { PutAbsent(acc.rest, k, v); }
  }

  lemma {:induction false} ConcatField(acc: Fields, k: Key, v: Json, f: Fields)
    ensures Concat(Concat(acc, Field(k, v, NoFields)), f) == Concat(acc, Field(k, v, f))
  {
    if acc.Field? { ConcatField(acc.rest, k, v, f); }
  }

  lemma {:induction false} AbsentConcat(acc: Fields, k: Key, v: Json, k': Key)
    requires Absent(acc, k') && !SameSlot(k, k')
    ensures Absent(Concat(acc, Field(k, v, NoFields)), k')
  {
    if acc.Field? { AbsentConcat(acc.rest, k, v, k'); }
  }

  lemma {:induction false} FreshPut(acc: Fields, k: Key, v: Json, f: Fields)
    requires Fresh(acc, f) && Absent(f, k)
    ensures Fresh(Concat(acc, Field(k, v, NoFields)), f)
  {
    if f.Field? {
      SameSlotSymmetric(f.key, k);
      AbsentConcat(acc, k, v, f.key);
      FreshPut(acc, k, v, f.rest);
    }
  }

  /** The map after a new key has been put. */
  lemma PutFresh(acc: Fields, k: Key, v: Json, f: Fields) returns (r: Fields)
    requires Absent(acc, k) && Fresh(acc, f) && Absent(f, k)
    ensures r == Put(acc, k, v) && Fresh(r, f)
    ensures forall g: Fields :: Concat(r, g) == Concat(acc, Field(k, v, g))
  {
    r := Put(acc, k, v);
    PutAbsent(acc, k, v);
    FreshPut(acc, k, v, f);
    forall g: Fields ensures Concat(r, g) == Concat(acc, Field(k, v, g)) { ConcatField(acc, k, v, g); }
  }

  lemma {:induction false} FreshEmpty(f: Fields)
    ensures Fresh(NoFields, f)
  {
    if f.Field? { FreshEmpty(f.rest); }
  }

  lemma {:induction false} ConcatNone(acc: Fields)
    ensures Concat(acc, NoFields) == acc
  {
    if acc.Field? { ConcatNone(acc.rest); }
  }

  // ---------------------------------------------------------------- trees in a text

  const MARKER_SIZE: nat := 24

  /** How long a printed value, list of items or list of fields is. */
  function Size(v: Json, d: nat, l: Leaves): nat {
    if d > MAX_JSON_DEPTH then MARKER_SIZE else
      match v
      case Arr(items) => SizeItems(items, d + 1, l) + 2
      case Obj(fields) => SizeFields(fields, d + 1, l) + 2
      case _ => l.size(v)
  }

  function SizeItems(items: Items, d: nat, l: Leaves): nat {
    match items
    case NoItems => 0
    case Item(v, rest) => Size(v, d, l) + if rest.NoItems? then 0 else SizeItems(rest, d, l) + 1
  }

  function SizeFields(f: Fields, d: nat, l: Leaves): nat {
    match f
    case NoFields => 0
    case Field(k, v, rest) => l.keySize(k) + 1 + Size(v, d, l) + if rest.NoFields? then 0 else SizeFields(rest, d, l) + 1
  }

  /** The value printed at depth `d` stands at place `p` of the text. */
  predicate Laid(text: bytes, p: nat, v: Json, d: nat, l: Leaves)
    decreases v
  {
    Starts(ByteAt(text, p)) &&
    (d <= MAX_JSON_DEPTH ==>
      match v
      case Arr(items) =>
        ByteAt(text, p) == 0x5B && LaidItems(text, p + 1, items, d + 1, l) && ByteAt(text, p + 1 + SizeItems(items, d + 1, l)) == 0x5D
      case Obj(fields) =>
        ByteAt(text, p) == 0x7B && LaidFields(text, p + 1, fields, d + 1, l) && ByteAt(text, p + 1 + SizeFields(fields, d + 1, l)) == 0x7D
      case _ => l.at(p, v))
  }

  predicate LaidItems(text: bytes, p: nat, items: Items, d: nat, l: Leaves)
    decreases items
  {
    items.Item? ==>
      var q := p + Size(items.head, d, l);
      && Laid(text, p, items.head, d, l)
      && (items.rest.Item? ==> ByteAt(text, q) == 0x2C && LaidItems(text, q + 1, items.rest, d, l))
  }

  predicate LaidFields(text: bytes, p: nat, f: Fields, d: nat, l: Leaves)
    decreases f
  {
    f.Field? ==>
      var c := p + l.keySize(f.key);
      var q := c + 1 + Size(f.value, d, l);
      && l.keyAt(p, f.key) && ByteAt(text, p) == QUOTE && ByteAt(text, c) == 0x3A && Laid(text, c + 1, f.value, d, l)
      && (f.rest.Field? ==> ByteAt(text, q) == 0x2C && LaidFields(text, q + 1, f.rest, d, l))
  }

  lemma ObjectLaid(text: bytes, p: nat, v: Json, d: nat, l: Leaves)
    requires v.Obj? && d <= MAX_JSON_DEPTH && Starts(ByteAt(text, p)) && ByteAt(text, p) == 0x7B
    requires LaidFields(text, p + 1, v.fields, d + 1, l) && ByteAt(text, p + 1 + SizeFields(v.fields, d + 1, l)) == 0x7D
    ensures Laid(text, p, v, d, l) && Size(v, d, l) == SizeFields(v.fields, d + 1, l) + 2
  {
  }

  lemma ArrayLaid(text: bytes, p: nat, v: Json, d: nat, l: Leaves)
    requires v.Arr? && d <= MAX_JSON_DEPTH && Starts(ByteAt(text, p)) && ByteAt(text, p) == 0x5B
    requires LaidItems(text, p + 1, v.items, d + 1, l) && ByteAt(text, p + 1 + SizeItems(v.items, d + 1, l)) == 0x5D
    ensures Laid(text, p, v, d, l) && Size(v, d, l) == SizeItems(v.items, d + 1, l) + 2
  {
  }

  lemma FieldLaid(text: bytes, p: nat, f: Fields, d: nat, l: Leaves, q: nat)
    requires f.Field? && q == p + l.keySize(f.key) + 1 + Size(f.value, d, l)
    requires l.keyAt(p, f.key) && ByteAt(text, p) == QUOTE && ByteAt(text, p + l.keySize(f.key)) == 0x3A
    requires Laid(text, p + l.keySize(f.key) + 1, f.value, d, l)
    requires f.rest.Field? ==> ByteAt(text, q) == 0x2C && LaidFields(text, q + 1, f.rest, d, l)
    ensures LaidFields(text, p, f, d, l)
    ensures p + SizeFields(f, d, l) == if f.rest.Field? then q + 1 + SizeFields(f.rest, d, l) else q
  {
  }

  lemma StartsItems(text: bytes, p: nat, items: Items, d: nat, l: Leaves)
    requires LaidItems(text, p, items, d, l) && items.Item?
    ensures Starts(ByteAt(text, p))
  {
  }

  lemma StartsFields(text: bytes, p: nat, f: Fields, d: nat, l: Leaves)
    requires LaidFields(text, p, f, d, l) && f.Field?
    ensures Starts(ByteAt(text, p))
  {
  }

  // ---------------------------------------------------------------- what is read

  /** No two keys of an object share a slot of its hash map. */
  predicate Distinct(v: Json) {
    match v
    case Arr(items) => DistinctItems(items)
    case Obj(fields) => DistinctFields(fields)
    case _ => true
  }

  predicate DistinctItems(items: Items) {
    items.Item? ==> Distinct(items.head) && DistinctItems(items.rest)
  }

  predicate DistinctFields(f: Fields) {
    f.Field? ==> Absent(f.rest, f.key) && Distinct(f.value) && DistinctFields(f.rest)
  }

  /** What reading a laid-out value gives: nothing when it goes below depth 64 or when one of its leaves fails. */
  function Read(v: Json, d: nat, l: Leaves): Option<Json> {
    if d > MAX_JSON_DEPTH then None else
      match v
      case Arr(items) =>
        var r := ReadItems(items, d + 1, l);
        if r.None? then None else Some(Arr(r.value))
      case Obj(fields) =>
        var r := ReadFields(fields, d + 1, l);
        if r.None? then None else Some(Obj(r.value))
      case _ => l.read(v)
  }

  function ReadItems(items: Items, d: nat, l: Leaves): Option<Items> {
    if items.NoItems? then Some(NoItems) else
      var v, rest := Read(items.head, d, l), ReadItems(items.rest, d, l);
      if v.None? || rest.None? then None else Some(Item(v.value, rest.value))
  }

  function ReadFields(f: Fields, d: nat, l: Leaves): Option<Fields> {
    if f.NoFields? then Some(NoFields) else
      var v, rest := Read(f.value, d, l), ReadFields(f.rest, d, l);
      if !l.clean(f.key) || v.None? || rest.None? then None else Some(Field(f.key, v.value, rest.value))
  }

  function After(acc: Fields, f: Option<Fields>): Option<Fields> {
    if f.None? then None else Some(Concat(acc, f.value))
  }

  /** What reading gives at any place of any text that holds the printed value. */
  lemma {:induction false} ValueParsed(g: Parser, l: Leaves, text: bytes, p: nat, v: Json, d: nat)
    requires Obeys(g, l, text) && Laid(text, p, v, d, l) && IsBoundary(ByteAt(text, p + Size(v, d, l))) && Distinct(v)
    ensures g.value(p, d) == EndingAt(Read(v, d, l), p + Size(v, d, l))
    decreases v, 0
  {
    if d > MAX_JSON_DEPTH {
      Law(g, l, text, TooDeep(p, d));
    } else {
      match v
      case Arr(_) => ArrayParsed(g, l, text, p, v, d);
      case Obj(_) => ObjectParsed(g, l, text, p, v, d);
      case _ => Law(g, l, text, Scalar(p, v, d));
    }
  }

  lemma {:induction false} ArrayParsed(g: Parser, l: Leaves, text: bytes, p: nat, v: Json, d: nat)
    requires Obeys(g, l, text) && Laid(text, p, v, d, l) && d <= MAX_JSON_DEPTH && v.Arr? && Distinct(v)
    ensures g.value(p, d) == EndingAt(Read(v, d, l), p + Size(v, d, l))
    decreases v.items, 2
  {
    Law(g, l, text, Array(p, d));
    ItemsParsed(g, l, text, p + 1, v.items, d + 1);
  }

  lemma {:induction false} ObjectParsed(g: Parser, l: Leaves, text: bytes, p: nat, v: Json, d: nat)
    requires Obeys(g, l, text) && Laid(text, p, v, d, l) && d <= MAX_JSON_DEPTH && v.Obj? && Distinct(v)
    ensures g.value(p, d) == EndingAt(Read(v, d, l), p + Size(v, d, l))
    decreases v.fields, 2
  {
    Law(g, l, text, Object(p, d));
    FreshEmpty(v.fields);
    FieldsParsed(g, l, text, p + 1, v.fields, d + 1, NoFields);
  }

  lemma {:induction false} ItemsParsed(g: Parser, l: Leaves, text: bytes, p: nat, items: Items, d: nat)
    requires Obeys(g, l, text) && LaidItems(text, p, items, d, l) && ByteAt(text, p + SizeItems(items, d, l)) == 0x5D
    requires DistinctItems(items)
    ensures g.items(p, d) == EndingAt(ReadItems(items, d, l), p + SizeItems(items, d, l) + 1)
    decreases items, 1
  {
    match items
    case NoItems =>
      Law(g, l, text, ItemsEnd(p, d));
    case Item(v, rest) =>
      var n := AfterItem(text, p, items, d, l);
      ValueParsed(g, l, text, p, v, d);
      Law(g, l, text, ItemsStep(p, d));
      ItemsParsed(g, l, text, n, rest, d);
  }

  /** Where the loop goes on after the first item. */
  lemma AfterItem(text: bytes, p: nat, items: Items, d: nat, l: Leaves) returns (n: nat)
    requires LaidItems(text, p, items, d, l) && ByteAt(text, p + SizeItems(items, d, l)) == 0x5D && items.Item?
    ensures var q := p + Size(items.head, d, l); IsBoundary(ByteAt(text, q)) && AfterElement(text, q, 0x5D) == Some(n)
    ensures LaidItems(text, n, items.rest, d, l) && n + SizeItems(items.rest, d, l) == p + SizeItems(items, d, l)
  {
    var q := p + Size(items.head, d, l);
    if items.rest.Item? {
      n := q + 1;
      StartsItems(text, n, items.rest, d, l);
      ElementMore(text, q, 0x5D);
    } else {
      n := q;
      ElementLast(text, q, 0x5D);
    }
  }

  lemma {:induction false} FieldsParsed(g: Parser, l: Leaves, text: bytes, p: nat, f: Fields, d: nat, acc: Fields)
    requires Obeys(g, l, text) && LaidFields(text, p, f, d, l) && ByteAt(text, p + SizeFields(f, d, l)) == 0x7D
    requires DistinctFields(f) && Fresh(acc, f)
    ensures g.fields(p, d, acc) == EndingAt(After(acc, ReadFields(f, d, l)), p + SizeFields(f, d, l) + 1)
    decreases f, 1
  {
    match f
    case NoFields =>
      Law(g, l, text, FieldsEnd(p, d, acc));
      ConcatNone(acc);
    case Field(k, v, rest) =>
      var n := AfterField(text, p, f, d, l);
      FieldParsed(g, l, text, p, f, d, acc, n);
      var r := Read(v, d, l);
      if l.clean(k) && r.Some? {
        var acc' := PutFresh(acc, k, r.value, rest);
        FieldsParsed(g, l, text, n, rest, d, acc');
      }
  }

  /** Where the loop goes on after the first field. */
  lemma AfterField(text: bytes, p: nat, f: Fields, d: nat, l: Leaves) returns (n: nat)
    requires LaidFields(text, p, f, d, l) && ByteAt(text, p + SizeFields(f, d, l)) == 0x7D && f.Field?
    ensures var q := p + l.keySize(f.key) + 1 + Size(f.value, d, l);
            IsBoundary(ByteAt(text, q)) && AfterElement(text, q, 0x7D) == Some(n)
    ensures LaidFields(text, n, f.rest, d, l) && n + SizeFields(f.rest, d, l) == p + SizeFields(f, d, l)
  {
    var q := p + l.keySize(f.key) + 1 + Size(f.value, d, l);
    if f.rest.Field? {
      n := q + 1;
      StartsFields(text, n, f.rest, d, l);
      ElementMore(text, q, 0x7D);
    } else {
      n := q;
      ElementLast(text, q, 0x7D);
    }
  }

  /** One turn of the loop of parse_object. */
  lemma {:induction false} FieldParsed(g: Parser, l: Leaves, text: bytes, p: nat, f: Fields, d: nat, acc: Fields, n: nat)
    requires Obeys(g, l, text) && f.Field? && LaidFields(text, p, f, d, l) && Distinct(f.value)
    requires var q := p + l.keySize(f.key) + 1 + Size(f.value, d, l);
             IsBoundary(ByteAt(text, q)) && AfterElement(text, q, 0x7D) == Some(n)
    ensures var r := Read(f.value, d, l);
            g.fields(p, d, acc) == if l.clean(f.key) && r.Some? then g.fields(n, d, Put(acc, f.key, r.value)) else None
    decreases f, 0
  {
    Law(g, l, text, KeyStep(p, f.key, d));
    ValueParsed(g, l, text, p + l.keySize(f.key) + 1, f.value, d);
    Law(g, l, text, FieldsStep(p, d, acc));
  }
}
