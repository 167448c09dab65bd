/**
 The grammar of JSON texts, told without the parser of src/json.c: derivation trees over the places of a text, after
 section 2 of RFC 8259, with six blanks instead of four and integers for numbers.  The parser accepts exactly the texts
 that have a derivation no deeper than 64, and gives their value.
 */
module JsonGrammar {
  import opened Common
  import opened JsonText
  import opened JsonSpelling
  import opened JsonTree
  import opened L = JsonLayout
  import opened R = JsonRoundTrip

  // ---------------------------------------------------------------- derivations

  /** Numbers of type nat are numbers of blanks. */
  datatype Doc =
    | Word(v: Json)
    | Number(minus: bool, n: nat)
    | Chars(ps: seq<Piece>, outs: seq<bytes>)
    | List(elems: Elems)
    | Record(members: Members)
  datatype Elems = NoElems(w: nat) | LastElem(w: nat, doc: Doc, after: nat) | Elem(w: nat, doc: Doc, after: nat, rest: Elems)
  datatype Members =
    | NoMembers(w: nat)
    | LastMember(w: nat, key: Name, doc: Doc, after: nat)
    | Member(w: nat, key: Name, doc: Doc, after: nat, rest: Members)

  /** A key, with the blanks before and after the colon. */
  datatype Name = Name(ps: seq<Piece>, outs: seq<bytes>, colon: nat, gap: nat)

  /** Words, numbers, strings and keys with their colons: how long they are, and where in a text they stand. */
  datatype Tokens = Tokens(
    len: Doc -> nat,
    nameLen: Name -> nat,
    at: (nat, Doc) -> bool,
    nameAt: (nat, Name) -> bool)

  predicate IsLeaf(doc: Doc) { !doc.List? && !doc.Record? }

  function Len(doc: Doc, t: Tokens): nat {
    match doc
    case List(elems) => 1 + ElemsLen(elems, t)
    case Record(members) => 1 + MembersLen(members, t)
    case _ => t.len(doc)
  }

  /** Up to and with the closing bracket. */
  function ElemsLen(e: Elems, t: Tokens): nat {
    match e
    case NoElems(w) => w + 1
    case LastElem(w, doc, after) => w + Len(doc, t) + after + 1
    case Elem(w, doc, after, rest) => w + Len(doc, t) + after + 1 + ElemsLen(rest, t)
  }

  function MembersLen(m: Members, t: Tokens): nat {
    match m
    case NoMembers(w) => w + 1
    case LastMember(w, key, doc, after) => w + t.nameLen(key) + key.gap + Len(doc, t) + after + 1
    case Member(w, key, doc, after, rest) => w + t.nameLen(key) + key.gap + Len(doc, t) + after + 1 + MembersLen(rest, t)
  }

  /** The `w` bytes from `p` on are blanks. */
  predicate Gap(text: bytes, p: nat, w: nat) {
    p + w <= |text| && forall i :: p <= i < p + w ==> IsSpace(text[i])
  }

  predicate DocAt(text: bytes, p: nat, doc: Doc, t: Tokens)
    decreases doc, 0
  {
    match doc
    case List(elems) => ByteAt(text, p) == 0x5B && ElemsAt(text, p + 1, elems, t)
    case Record(members) => ByteAt(text, p) == 0x7B && MembersAt(text, p + 1, members, t)
    case _ => t.at(p, doc)
  }

  /** A value, the blanks around it, and the byte after it. */
  predicate ValueAt(text: bytes, p: nat, w: nat, doc: Doc, after: nat, next: byte, t: Tokens)
    decreases doc, 1
  {
    && Gap(text, p, w) && DocAt(text, p + w, doc, t)
    && Gap(text, p + w + Len(doc, t), after) && ByteAt(text, p + w + Len(doc, t) + after) == next
  }

  predicate ElemsAt(text: bytes, p: nat, e: Elems, t: Tokens)
    decreases e, 0
  {
    match e
    case NoElems(w) => Gap(text, p, w) && ByteAt(text, p + w) == 0x5D
    case LastElem(w, doc, after) => ValueAt(text, p, w, doc, after, 0x5D, t)
    case Elem(w, doc, after, rest) =>
      ValueAt(text, p, w, doc, after, 0x2C, t) && !rest.NoElems? && ElemsAt(text, p + w + Len(doc, t) + after + 1, rest, t)
  }

  /** A key and its value, the blanks around them, and the byte after them. */
  predicate PairAt(text: bytes, p: nat, w: nat, key: Name, doc: Doc, after: nat, next: byte, t: Tokens)
    decreases doc, 2
  {
    Gap(text, p, w) && t.nameAt(p + w, key) && ValueAt(text, p + w + t.nameLen(key), key.gap, doc, after, next, t)
  }

  predicate MembersAt(text: bytes, p: nat, m: Members, t: Tokens)
    decreases m, 0
  {
    match m
    case NoMembers(w) => Gap(text, p, w) && ByteAt(text, p + w) == 0x7D
    case LastMember(w, key, doc, after) => PairAt(text, p, w, key, doc, after, 0x7D, t)
    case Member(w, key, doc, after, rest) =>
      && PairAt(text, p, w, key, doc, after, 0x2C, t) && !rest.NoMembers?
      && MembersAt(text, p + w + t.nameLen(key) + key.gap + Len(doc, t) + after + 1, rest, t)
  }

  // ---------------------------------------------------------------- tokens of a text

  function WordText(v: Json): bytes { if v.Null? then NULL else if v == Bool(true) then TRUE else FALSE }

  function NumberText(minus: bool, n: nat): bytes { if minus then [0x2D] + Digits(n) else Digits(n) }

  predicate CharsAt(text: bytes, p: nat, ps: seq<Piece>, outs: seq<bytes>) {
    AllFair(ps) && AllQuotable(ps) && AllStand(ps, outs) && At(text, p, [QUOTE] + Text(ps) + [QUOTE])
  }

  function LeafLen(doc: Doc): nat {
    match doc
    case Word(v) => |WordText(v)|
    case Number(minus, n) => |NumberText(minus, n)|
    case Chars(ps, _) => |Text(ps)| + 2
    case _ => 0
  }

  predicate LeafAt(text: bytes, p: nat, doc: Doc) {
    match doc
    case Word(v) => (v.Null? || v.Bool?) && At(text, p, WordText(v))
    case Number(minus, n) => At(text, p, NumberText(minus, n))
    case Chars(ps, outs) => CharsAt(text, p, ps, outs)
    case _ => false
  }

  /** A string, blanks and a colon. */
  function NameLen(k: Name): nat { |Text(k.ps)| + 2 + k.colon + 1 }

  predicate NameAt(text: bytes, p: nat, k: Name) {
    && CharsAt(text, p, k.ps, k.outs)
    && var q := p + |Text(k.ps)| + 2; Gap(text, q, k.colon) && ByteAt(text, q + k.colon) == 0x3A
  }

  function TokensOf(text: bytes): Tokens {
    Tokens((doc: Doc) => LeafLen(doc), (k: Name) => NameLen(k), (p: nat, doc: Doc) => LeafAt(text, p, doc), (p: nat, k: Name) => NameAt(text, p, k))
  }

  // ---------------------------------------------------------------- their values

  function ValueOf(doc: Doc): Json {
    match doc
    case Word(v) => v
    case Number(minus, n) => Num(if minus then -(n as int) else n)
    case Chars(_, outs) => Str(Joined(outs))
    case List(elems) => Arr(ItemsOf(elems))
    case Record(members) => Obj(FieldsOf(members, NoFields))
  }

  function ItemsOf(e: Elems): Items {
    match e
    case NoElems(_) => NoItems
    case LastElem(_, doc, _) => Item(ValueOf(doc), NoItems)
    case Elem(_, doc, _, rest) => Item(ValueOf(doc), ItemsOf(rest))
  }

  function KeyOf(k: Name): Key { CString(Joined(k.outs)) }

  function FieldsOf(m: Members, acc: Fields): Fields
    decreases m
  {
    match m
    case NoMembers(_) => acc
    case LastMember(_, key, doc, _) => Put(acc, KeyOf(key), ValueOf(doc))
    case Member(_, key, doc, _, rest) => FieldsOf(rest, Put(acc, KeyOf(key), ValueOf(doc)))
  }

  /** No value below depth 64, when this one is at depth `d`. */
  predicate Shallow(doc: Doc, d: nat) {
    d <= 64 &&
    match doc
    case List(elems) => ShallowElems(elems, d + 1)
    case Record(members) => ShallowMembers(members, d + 1)
    case _ => true
  }

  predicate ShallowElems(e: Elems, d: nat) {
    match e
    case NoElems(_) => true
    case LastElem(_, doc, _) => Shallow(doc, d)
    case Elem(_, doc, _, rest) => Shallow(doc, d) && ShallowElems(rest, d)
  }

  predicate ShallowMembers(m: Members, d: nat) {
    match m
    case NoMembers(_) => true
    case LastMember(_, _, doc, _) => Shallow(doc, d)
    case Member(_, _, doc, _, rest) => Shallow(doc, d) && ShallowMembers(rest, d)
  }

  // ---------------------------------------------------------------- blanks

  /** isspace in the C locale. */
  lemma BlankCharacters(c: byte)
    ensures IsSpace(c) <==> c as char == ' ' || c as char == '\t' || c as char == '\n' || c as char == '\r' || c == 11 || c == 12
  {
  }

  lemma {:induction false} SkipIs(text: bytes, p: nat, w: nat)
    requires Gap(text, p, w) && !IsSpace(ByteAt(text, p + w))
    ensures SkipWs(text, p) == p + w
    decreases w
  {
    if w > 0 { SkipIs(text, p + 1, w - 1); }
  }

  lemma {:induction false} SkipGap(text: bytes, p: nat)
    requires p <= |text|
    ensures Gap(text, p, SkipWs(text, p) - p) && !IsSpace(ByteAt(text, SkipWs(text, p)))
    decreases |text| - p
  {
    if IsSpace(ByteAt(text, p)) { SkipGap(text, p + 1); }
  }

  lemma GapJoin(text: bytes, p: nat, v: nat, w: nat)
    requires Gap(text, p, v) && Gap(text, p + v, w)
    ensures Gap(text, p, v + w)
  {
  }

  /** After an element come blanks and a comma or bracket, so a boundary. */
  lemma GapBoundary(text: bytes, p: nat, w: nat)
    requires Gap(text, p, w) && IsBoundary(ByteAt(text, p + w))
    ensures IsBoundary(ByteAt(text, p))
  {
  }

  // ---------------------------------------------------------------- strings

  lemma CharacterRange(out: bytes, cp: nat)
    requires IsCharacter(out, cp)
    ensures |out| == if cp < 0x80 then 1 else if cp < 0x800 then 2 else if cp < 0x10000 then 3 else 4
  {
  }

  /** A code point has one character. */
  lemma CharacterUnique(a: bytes, b: bytes, cp: nat)
    requires IsCharacter(a, cp) && IsCharacter(b, cp)
    ensures a == b
  {
    CharacterRange(a, cp);
    CharacterRange(b, cp);
  }

  lemma {:induction false} StandUnique(ps: seq<Piece>, a: seq<bytes>, b: seq<bytes>)
    requires AllStand(ps, a) && AllStand(ps, b)
    ensures a == b
  {
    forall i | 0 <= i < |ps| ensures a[i] == b[i] {
      if ps[i].Point? { CharacterUnique(a[i], b[i], ps[i].cp); }
    }
  }

  lemma CharsRead(text: bytes, p: nat, ps: seq<Piece>, outs: seq<bytes>)
    requires CharsAt(text, p, ps, outs)
    ensures ByteAt(text, p) == QUOTE && ParseString(text, p) == Some(Literal(Joined(outs), p + |Text(ps)| + 2))
  {
    var body := Text(ps);
    AtByte(text, p, [QUOTE] + body + [QUOTE], 0);
    var read := LiteralIsRead(text, p, ps, body);
    StandUnique(ps, outs, read);
  }

  lemma ReadIsChars(text: bytes, p: nat) returns (ps: seq<Piece>, outs: seq<bytes>)
    requires ByteAt(text, p) == QUOTE && ParseString(text, p).Some?
    ensures CharsAt(text, p, ps, outs) && ParseString(text, p).value == Literal(Joined(outs), p + |Text(ps)| + 2)
  {
    ps, outs := LiteralIsSpelled(text, p);
    LiteralPlace(text, p, ParseString(text, p).value.next, Text(ps));
  }

  lemma LiteralPlace(text: bytes, p: nat, next: nat, body: bytes)
    requires p + 1 < next <= |text| && text[p] == QUOTE && text[p + 1..next] == body + [QUOTE]
    ensures At(text, p, [QUOTE] + body + [QUOTE]) && next == p + |body| + 2
  {
    var e := [QUOTE] + body + [QUOTE];
    forall i | 0 <= i < |e| ensures text[p + i] == e[i] {
      if i > 0 { assert text[p + 1..next][i - 1] == e[i]; }
    }
    SameFrom(text, p, e, 0);
  }

  // ---------------------------------------------------------------- rules of a parser

  ghost predicate LeafRule(g: Parser, t: Tokens, text: bytes, p: nat, doc: Doc, d: nat) {
    IsLeaf(doc) && t.at(p, doc) ==>
      && Starts(ByteAt(text, p)) && p + t.len(doc) <= |text|
      && (d <= MAX_JSON_DEPTH && IsBoundary(ByteAt(text, p + t.len(doc))) ==> g.value(p, d) == Some(Parsed(ValueOf(doc), p + t.len(doc))))
  }

  ghost predicate NameRule(g: Parser, t: Tokens, text: bytes, p: nat, key: Name, d: nat) {
    t.nameAt(p, key) ==> ByteAt(text, p) == QUOTE && g.pair(p, d) == WithKey(KeyOf(key), g.value(p + t.nameLen(key), d))
  }

  ghost predicate ElemRule(g: Parser, text: bytes, p: nat, w: nat, d: nat) {
    Gap(text, p, w) && Starts(ByteAt(text, p + w)) ==>
      var v := g.value(p + w, d);
      if v.None? then g.items(p, d) == None else
        var n := AfterElement(text, v.value.next, 0x5D);
        n.Some? ==> g.items(p, d) == AddItem(v.value.value, g.items(n.value, d))
  }

  ghost predicate MemberRule(g: Parser, text: bytes, p: nat, w: nat, d: nat, acc: Fields) {
    Gap(text, p, w) && ByteAt(text, p + w) == QUOTE ==>
      var kv := g.pair(p + w, d);
      if kv.None? then g.fields(p, d, acc) == None else
        var n := AfterElement(text, kv.value.next, 0x7D);
        n.Some? ==> g.fields(p, d, acc) == g.fields(n.value, d, Put(acc, kv.value.value.key, kv.value.value.value))
  }

  /** Blanks before a value, and before an element or member that is not the first, do not matter. */
  ghost predicate SkipRule(g: Parser, text: bytes, p: nat, w: nat, d: nat) {
    Gap(text, p, w) && Starts(ByteAt(text, p + w)) ==> g.value(p, d) == g.value(p + w, d) && g.items(p, d) == g.items(p + w, d)
  }

  ghost predicate SkipFieldsRule(g: Parser, text: bytes, p: nat, w: nat, d: nat, acc: Fields) {
    Gap(text, p, w) && ByteAt(text, p + w) == QUOTE ==> g.fields(p, d, acc) == g.fields(p + w, d, acc)
  }

  datatype Law =
    | Below(p: nat, d: nat) | Leaf(p: nat, doc: Doc, d: nat) | Opens(p: nat, d: nat)
    | ElemsEnd(p: nat, w: nat, d: nat) | ElemStep(p: nat, w: nat, d: nat) | Skips(p: nat, w: nat, d: nat)
    | MembersEnd(p: nat, w: nat, d: nat, acc: Fields) | MemberStep(p: nat, w: nat, d: nat, acc: Fields)
    | SkipsMember(p: nat, w: nat, d: nat, acc: Fields) | NameStep(p: nat, key: Name, d: nat)

  ghost predicate Satisfies(g: Parser, t: Tokens, text: bytes, law: Law) {
    match law
    case Below(p, d) => d > MAX_JSON_DEPTH ==> g.value(p, d) == None
    case Leaf(p, doc, d) => LeafRule(g, t, text, p, doc, d)
    case Opens(p, d) => ArrayRule(g, text, p, d) && ObjectRule(g, text, p, d)
    case ElemsEnd(p, w, d) => Gap(text, p, w) && ByteAt(text, p + w) == 0x5D ==> g.items(p, d) == Some(Parsed(NoItems, p + w + 1))
    case ElemStep(p, w, d) => ElemRule(g, text, p, w, d)
    case Skips(p, w, d) => SkipRule(g, text, p, w, d)
    case MembersEnd(p, w, d, acc) => Gap(text, p, w) && ByteAt(text, p + w) == 0x7D ==> g.fields(p, d, acc) == Some(Parsed(acc, p + w + 1))
    case MemberStep(p, w, d, acc) => MemberRule(g, text, p, w, d, acc)
    case SkipsMember(p, w, d, acc) => SkipFieldsRule(g, text, p, w, d, acc)
    case NameStep(p, key, d) => NameRule(g, t, text, p, key, d)
  }

  ghost predicate Lawful(g: Parser, t: Tokens, text: bytes) {
    forall law: Law :: Satisfies(g, t, text, law)
  }

  lemma By(g: Parser, t: Tokens, text: bytes, law: Law)
    requires Lawful(g, t, text)
    ensures Satisfies(g, t, text, law)
  {
  }

  // ---------------------------------------------------------------- where things are

  lemma DocStarts(g: Parser, t: Tokens, text: bytes, p: nat, doc: Doc)
    requires Lawful(g, t, text) && DocAt(text, p, doc, t)
    ensures Starts(ByteAt(text, p))
  {
    if IsLeaf(doc) { By(g, t, text, Leaf(p, doc, 0)); }
  }

  lemma NextElem(g: Parser, t: Tokens, text: bytes, p: nat, e: Elems)
    requires Lawful(g, t, text) && ElemsAt(text, p, e, t) && !e.NoElems?
    ensures Gap(text, p, e.w) && Starts(ByteAt(text, p + e.w))
  {
    DocStarts(g, t, text, p + e.w, e.doc);
  }

  lemma NextMember(g: Parser, t: Tokens, text: bytes, p: nat, m: Members)
    requires Lawful(g, t, text) && MembersAt(text, p, m, t) && !m.NoMembers?
    ensures Gap(text, p, m.w) && ByteAt(text, p + m.w) == QUOTE
  {
    By(g, t, text, NameStep(p + m.w, m.key, 0));
  }

  lemma AfterLast(text: bytes, p: nat, after: nat, close: byte)
    requires Gap(text, p, after) && ByteAt(text, p + after) == close && (close == 0x5D || close == 0x7D)
    ensures AfterElement(text, p, close) == Some(p + after)
  {
    SkipIs(text, p, after);
  }

  lemma AfterComma(text: bytes, p: nat, after: nat, w: nat, close: byte)
    requires Gap(text, p, after) && ByteAt(text, p + after) == 0x2C && (close == 0x5D || close == 0x7D)
    requires Gap(text, p + after + 1, w) && Starts(ByteAt(text, p + after + 1 + w))
    ensures AfterElement(text, p, close) == Some(p + after + 1 + w)
  {
    SkipIs(text, p, after);
    SkipIs(text, p + after + 1, w);
  }

  // ---------------------------------------------------------------- derivations are parsed

  function Result<T>(ok: bool, v: T, next: nat): Option<Parsed<T>> {
    if ok then Some(Parsed(v, next)) else None
  }

  /** A derivation that a boundary follows is parsed to its value, unless it is too deep. */
  lemma {:induction false} DocIsParsed(g: Parser, t: Tokens, text: bytes, p: nat, doc: Doc, d: nat)
    requires Lawful(g, t, text) && DocAt(text, p, doc, t) && IsBoundary(ByteAt(text, p + Len(doc, t)))
    ensures g.value(p, d) == Result(Shallow(doc, d), ValueOf(doc), p + Len(doc, t))
    decreases doc, 0
  {
    if d > MAX_JSON_DEPTH {
      By(g, t, text, Below(p, d));
    } else if doc.List? {
      By(g, t, text, Opens(p, d));
      ElemsAreParsed(g, t, text, p + 1, doc.elems, d + 1);
    } else if doc.Record? {
      By(g, t, text, Opens(p, d));
      MembersAreParsed(g, t, text, p + 1, doc.members, d + 1, NoFields);
    } else {
      By(g, t, text, Leaf(p, doc, d));
    }
  }

  /** The value of an element or member, with what is around it. */
  lemma {:induction false} InnerIsParsed(g: Parser, t: Tokens, text: bytes, p: nat, w: nat, doc: Doc, after: nat, next: byte, d: nat)
    requires Lawful(g, t, text) && ValueAt(text, p, w, doc, after, next, t) && IsBoundary(next)
    ensures Starts(ByteAt(text, p + w)) && g.value(p, d) == g.value(p + w, d)
    ensures g.value(p + w, d) == Result(Shallow(doc, d), ValueOf(doc), p + w + Len(doc, t))
    decreases doc, 1
  {
    DocStarts(g, t, text, p + w, doc);
    GapBoundary(text, p + w + Len(doc, t), after);
    DocIsParsed(g, t, text, p + w, doc, d);
    By(g, t, text, Skips(p, w, d));
  }

  /** What a list is read as when its first element is, and the rest from `n` on. */
  ghost function AddedItem(g: Parser, ok: bool, v: Json, n: nat, d: nat): Option<Parsed<Items>> {
    if ok then AddItem(v, g.items(n, d)) else None
  }

  lemma {:induction false} ElemIsParsed(g: Parser, t: Tokens, text: bytes, p: nat, w: nat, doc: Doc, after: nat, next: byte, d: nat, n: nat)
    requires Lawful(g, t, text) && ValueAt(text, p, w, doc, after, next, t) && IsBoundary(next)
    requires AfterElement(text, p + w + Len(doc, t), 0x5D) == Some(n)
    ensures g.items(p, d) == AddedItem(g, Shallow(doc, d), ValueOf(doc), n, d)
    decreases doc, 2
  {
    InnerIsParsed(g, t, text, p, w, doc, after, next, d);
    By(g, t, text, ElemStep(p, w, d));
  }

  lemma {:induction false} LastIsParsed(g: Parser, t: Tokens, text: bytes, p: nat, w: nat, doc: Doc, after: nat, d: nat)
    requires Lawful(g, t, text) && ValueAt(text, p, w, doc, after, 0x5D, t)
    ensures g.items(p, d) == Result(Shallow(doc, d), Item(ValueOf(doc), NoItems), p + w + Len(doc, t) + after + 1)
    decreases doc, 3
  {
    var q := p + w + Len(doc, t);
    AfterLast(text, q, after, 0x5D);
    ElemIsParsed(g, t, text, p, w, doc, after, 0x5D, d, q + after);
    By(g, t, text, ElemsEnd(q + after, 0, d));
  }

  /** An element and a comma, when blanks and another element follow. */
  lemma {:induction false} MoreIsParsed(g: Parser, t: Tokens, text: bytes, p: nat, w: nat, doc: Doc, after: nat, d: nat, n: nat, v: nat)
    requires Lawful(g, t, text) && ValueAt(text, p, w, doc, after, 0x2C, t) && n == p + w + Len(doc, t) + after + 1
    requires Gap(text, n, v) && Starts(ByteAt(text, n + v))
    ensures g.items(p, d) == AddedItem(g, Shallow(doc, d), ValueOf(doc), n, d)
    decreases doc, 3
  {
    AfterComma(text, p + w + Len(doc, t), after, v, 0x5D);
    ElemIsParsed(g, t, text, p, w, doc, after, 0x2C, d, n + v);
    By(g, t, text, Skips(n, v, d));
  }

  lemma {:induction false} ElemsAreParsed(g: Parser, t: Tokens, text: bytes, p: nat, e: Elems, d: nat)
    requires Lawful(g, t, text) && ElemsAt(text, p, e, t)
    ensures g.items(p, d) == Result(ShallowElems(e, d), ItemsOf(e), p + ElemsLen(e, t))
    decreases e, 0
  {
    match e
    case NoElems(w) => By(g, t, text, ElemsEnd(p, w, d));
    case LastElem(w, doc, after) => LastIsParsed(g, t, text, p, w, doc, after, d);
    case Elem(w, doc, after, rest) =>
      var n := p + w + Len(doc, t) + after + 1;
      NextElem(g, t, text, n, rest);
      MoreIsParsed(g, t, text, p, w, doc, after, d, n, rest.w);
      ElemsAreParsed(g, t, text, n, rest, d);
  }

  /** A key, its colon and its value. */
  lemma {:induction false} PairIsParsed(g: Parser, t: Tokens, text: bytes, p: nat, w: nat, key: Name, doc: Doc, after: nat, next: byte, d: nat)
    requires Lawful(g, t, text) && PairAt(text, p, w, key, doc, after, next, t) && IsBoundary(next)
    ensures ByteAt(text, p + w) == QUOTE
    ensures g.pair(p + w, d) == WithKey(KeyOf(key), Result(Shallow(doc, d), ValueOf(doc), p + w + t.nameLen(key) + key.gap + Len(doc, t)))
    decreases doc, 2
  {
    By(g, t, text, NameStep(p + w, key, d));
    InnerIsParsed(g, t, text, p + w + t.nameLen(key), key.gap, doc, after, next, d);
  }

  ghost function PutField(g: Parser, ok: bool, k: Key, v: Json, n: nat, d: nat, acc: Fields): Option<Parsed<Fields>> {
    if ok then g.fields(n, d, Put(acc, k, v)) else None
  }

  lemma {:induction false} MemberIsParsed(
    g: Parser, t: Tokens, text: bytes, p: nat, w: nat, key: Name, doc: Doc, after: nat, next: byte, d: nat, acc: Fields, n: nat)
    requires Lawful(g, t, text) && PairAt(text, p, w, key, doc, after, next, t) && IsBoundary(next)
    requires AfterElement(text, p + w + t.nameLen(key) + key.gap + Len(doc, t), 0x7D) == Some(n)
    ensures g.fields(p, d, acc) == PutField(g, Shallow(doc, d), KeyOf(key), ValueOf(doc), n, d, acc)
    decreases doc, 3
  {
    PairIsParsed(g, t, text, p, w, key, doc, after, next, d);
    By(g, t, text, MemberStep(p, w, d, acc));
  }

  lemma {:induction false} LastMemberIsParsed(g: Parser, t: Tokens, text: bytes, p: nat, w: nat, key: Name, doc: Doc, after: nat, d: nat, acc: Fields)
    requires Lawful(g, t, text) && PairAt(text, p, w, key, doc, after, 0x7D, t)
    ensures g.fields(p, d, acc)
         == Result(Shallow(doc, d), Put(acc, KeyOf(key), ValueOf(doc)), p + w + t.nameLen(key) + key.gap + Len(doc, t) + after + 1)
    decreases doc, 4
  {
    var q := p + w + t.nameLen(key) + key.gap + Len(doc, t);
    AfterLast(text, q, after, 0x7D);
    MemberIsParsed(g, t, text, p, w, key, doc, after, 0x7D, d, acc, q + after);
    By(g, t, text, MembersEnd(q + after, 0, d, Put(acc, KeyOf(key), ValueOf(doc))));
  }

  lemma {:induction false} MoreMembersAreParsed(
    g: Parser, t: Tokens, text: bytes, p: nat, w: nat, key: Name, doc: Doc, after: nat, d: nat, acc: Fields, n: nat, v: nat)
    requires Lawful(g, t, text) && PairAt(text, p, w, key, doc, after, 0x2C, t)
    requires n == p + w + t.nameLen(key) + key.gap + Len(doc, t) + after + 1 && Gap(text, n, v) && ByteAt(text, n + v) == QUOTE
    ensures g.fields(p, d, acc) == PutField(g, Shallow(doc, d), KeyOf(key), ValueOf(doc), n, d, acc)
    decreases doc, 4
  {
    AfterComma(text, p + w + t.nameLen(key) + key.gap + Len(doc, t), after, v, 0x7D);
    MemberIsParsed(g, t, text, p, w, key, doc, after, 0x2C, d, acc, n + v);
    By(g, t, text, SkipsMember(n, v, d, Put(acc, KeyOf(key), ValueOf(doc))));
  }

  lemma {:induction false} MembersAreParsed(g: Parser, t: Tokens, text: bytes, p: nat, m: Members, d: nat, acc: Fields)
    requires Lawful(g, t, text) && MembersAt(text, p, m, t)
    ensures g.fields(p, d, acc) == Result(ShallowMembers(m, d), FieldsOf(m, acc), p + MembersLen(m, t))
    decreases m, 0
  {
    match m
    case NoMembers(w) => By(g, t, text, MembersEnd(p, w, d, acc));
    case LastMember(w, key, doc, after) => LastMemberIsParsed(g, t, text, p, w, key, doc, after, d, acc);
    case Member(w, key, doc, after, rest) =>
      var n := p + w + t.nameLen(key) + key.gap + Len(doc, t) + after + 1;
      NextMember(g, t, text, n, rest);
      MoreMembersAreParsed(g, t, text, p, w, key, doc, after, d, acc, n, rest.w);
      MembersAreParsed(g, t, text, n, rest, d, Put(acc, KeyOf(key), ValueOf(doc)));
  }

  // ---------------------------------------------------------------- the parser is lawful

  lemma GapNotNul(text: bytes, p: nat, w: nat)
    requires Gap(text, p, w) && ByteAt(text, p + w) != 0
    ensures ByteAt(text, p) != 0
  {
  }

  lemma WordIsParsed(text: bytes, p: nat, v: Json, d: nat)
    requires v.Null? || v.Bool?
    requires At(text, p, WordText(v)) && IsBoundary(ByteAt(text, p + |WordText(v)|))
    ensures ParseToken(text, p, d) == Some(Parsed(v, p + |WordText(v)|))
  {
    assert WordText(v) == PrintScalar(v);
    WordParsed(text, p, v, d);
  }

  lemma NumberIsParsed(text: bytes, p: nat, minus: bool, n: nat, d: nat)
    requires At(text, p, NumberText(minus, n)) && IsBoundary(ByteAt(text, p + |NumberText(minus, n)|))
    ensures ParseToken(text, p, d) == Some(Parsed(Num(if minus then -(n as int) else n), p + |NumberText(minus, n)|))
  {
    if minus { NegativeParsed(text, p, n); } else { PositiveParsed(text, p, n); }
  }

  lemma LeafIsParsed(text: bytes, p: nat, doc: Doc, d: nat)
    requires LeafAt(text, p, doc) && IsBoundary(ByteAt(text, p + LeafLen(doc)))
    ensures ParseToken(text, p, d) == Some(Parsed(ValueOf(doc), p + LeafLen(doc)))
  {
    match doc
    case Word(v) => WordIsParsed(text, p, v, d);
    case Number(minus, n) => NumberIsParsed(text, p, minus, n, d);
    case Chars(ps, outs) => CharsRead(text, p, ps, outs);
  }

  lemma LeafStarts(text: bytes, p: nat, doc: Doc)
    requires LeafAt(text, p, doc)
    ensures Starts(ByteAt(text, p)) && p + LeafLen(doc) <= |text|
  {
    match doc
    case Word(v) => AtByte(text, p, WordText(v), 0);
    case Number(minus, n) =>
      DigitsAreDigits(n);
      AtByte(text, p, NumberText(minus, n), 0);
    case Chars(ps, outs) => AtByte(text, p, [QUOTE] + Text(ps) + [QUOTE], 0);
  }

  lemma ParserLeaf(text: bytes, p: nat, doc: Doc, d: nat)
    ensures LeafRule(TheParser(text), TokensOf(text), text, p, doc, d)
  {
    if IsLeaf(doc) && LeafAt(text, p, doc) {
      LeafStarts(text, p, doc);
      if d <= MAX_JSON_DEPTH && IsBoundary(ByteAt(text, p + LeafLen(doc))) {
        Here(text, p);
        LeafIsParsed(text, p, doc, d);
        ParserOfValue(text, p, d);
      }
    }
  }

  lemma ParserElem(text: bytes, p: nat, w: nat, d: nat)
    ensures ElemRule(TheParser(text), text, p, w, d)
  {
    if Gap(text, p, w) && Starts(ByteAt(text, p + w)) {
      SkipIs(text, p, w);
      GapNotNul(text, p, w);
    }
  }

  lemma ParserMember(text: bytes, p: nat, w: nat, d: nat, acc: Fields)
    ensures MemberRule(TheParser(text), text, p, w, d, acc)
  {
    if Gap(text, p, w) && ByteAt(text, p + w) == QUOTE {
      SkipIs(text, p, w);
      GapNotNul(text, p, w);
    }
  }

  lemma ParserSkips(text: bytes, p: nat, w: nat, d: nat)
    ensures SkipRule(TheParser(text), text, p, w, d)
  {
    if Gap(text, p, w) && Starts(ByteAt(text, p + w)) {
      SkipIs(text, p, w);
      GapNotNul(text, p, w);
      Here(text, p + w);
    }
  }

  lemma ParserSkipsMember(text: bytes, p: nat, w: nat, d: nat, acc: Fields)
    ensures SkipFieldsRule(TheParser(text), text, p, w, d, acc)
  {
    if Gap(text, p, w) && ByteAt(text, p + w) == QUOTE {
      SkipIs(text, p, w);
      GapNotNul(text, p, w);
      Here(text, p + w);
    }
  }

  lemma ParserElemsEnd(text: bytes, p: nat, w: nat, d: nat)
    requires Gap(text, p, w) && ByteAt(text, p + w) == 0x5D
    ensures ParseItems(text, p, d) == Some(Parsed(NoItems, p + w + 1))
  {
    SkipIs(text, p, w);
    GapNotNul(text, p, w);
  }

  lemma ParserMembersEnd(text: bytes, p: nat, w: nat, d: nat, acc: Fields)
    requires Gap(text, p, w) && ByteAt(text, p + w) == 0x7D
    ensures ParseFields(text, p, d, acc) == Some(Parsed(acc, p + w + 1))
  {
    SkipIs(text, p, w);
    GapNotNul(text, p, w);
  }

  lemma PairTurn(text: bytes, q: nat, s: Literal, colon: nat, d: nat)
    requires ByteAt(text, q) == QUOTE && ParseString(text, q) == Some(s) && Gap(text, s.next, colon) && ByteAt(text, s.next + colon) == 0x3A
    ensures ParsePair(text, q, d) == WithKey(CString(s.chars), ParseValue(text, s.next + colon + 1, d))
  {
    SkipIs(text, s.next, colon);
  }

  lemma NameIsParsed(text: bytes, q: nat, key: Name, d: nat)
    requires NameAt(text, q, key)
    ensures ByteAt(text, q) == QUOTE && ParsePair(text, q, d) == WithKey(KeyOf(key), ParseValue(text, q + NameLen(key), d))
  {
    CharsRead(text, q, key.ps, key.outs);
    PairTurn(text, q, Literal(Joined(key.outs), q + |Text(key.ps)| + 2), key.colon, d);
  }

  lemma ParserName(text: bytes, q: nat, key: Name, d: nat)
    ensures NameRule(TheParser(text), TokensOf(text), text, q, key, d)
  {
    if NameAt(text, q, key) { NameIsParsed(text, q, key, d); }
  }

  lemma ParserIsLawful(text: bytes)
    ensures Lawful(TheParser(text), TokensOf(text), text)
  {
    forall law: Law ensures Satisfies(TheParser(text), TokensOf(text), text, law) {
      match law
      case Below(p, d) =>
      case Leaf(p, doc, d) => ParserLeaf(text, p, doc, d);
      case Opens(p, d) =>
        ParserArray(text, p, d);
        ParserObject(text, p, d);
      case ElemsEnd(p, w, d) => if Gap(text, p, w) && ByteAt(text, p + w) == 0x5D { ParserElemsEnd(text, p, w, d); }
      case ElemStep(p, w, d) => ParserElem(text, p, w, d);
      case Skips(p, w, d) => ParserSkips(text, p, w, d);
      case MembersEnd(p, w, d, acc) => if Gap(text, p, w) && ByteAt(text, p + w) == 0x7D { ParserMembersEnd(text, p, w, d, acc); }
      case MemberStep(p, w, d, acc) => ParserMember(text, p, w, d, acc);
      case SkipsMember(p, w, d, acc) => ParserSkipsMember(text, p, w, d, acc);
      case NameStep(p, key, d) => ParserName(text, p, key, d);
    }
  }
}
