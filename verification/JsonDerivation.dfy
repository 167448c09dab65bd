/**
 The other half of the grammar: whatever the parser of src/json.c accepts has a derivation.  With JsonGrammar, the
 parser accepts exactly the texts of the grammar.
 */
module JsonDerivation {
  import opened Common
  import opened JsonText
  import opened JsonSpelling
  import opened JsonTree
  import opened L = JsonLayout
  import opened R = JsonRoundTrip
  import opened JsonGrammar
  import M = JsonMeaning

  // ---------------------------------------------------------------- tokens

  lemma {:induction false} DigitsToEnd(text: bytes, p: nat)
    requires p <= |text|
    ensures forall i :: p <= i < DigitsEnd(text, p) ==> IsDigit(text[i])
    decreases |text| - p
  {
    if IsDigit(ByteAt(text, p)) { DigitsToEnd(text, p + 1); }
  }

  lemma {:induction false} DigitsCanonical(text: bytes, p: nat, q: nat)
    requires p < q <= |text| && (forall i :: p <= i < q ==> IsDigit(text[i])) && (text[p] == 0x30 ==> q == p + 1)
    ensures DigitsValue(text, p, q) >= 0 && (text[p] != 0x30 ==> DigitsValue(text, p, q) > 0)
    ensures text[p..q] == Digits(DigitsValue(text, p, q))
    decreases q - p
  {
    var c := text[q - 1] as int - 0x30;
    if q == p + 1 {
      assert DigitsValue(text, p, p) == 0;
    } else {
      DigitsCanonical(text, p, q - 1);
      var v := DigitsValue(text, p, q - 1);
      assert (10 * v + c) / 10 == v && (10 * v + c) % 10 == c;
      assert text[p..q] == text[p..q - 1] + [text[q - 1]];
    }
  }

  lemma SliceAt(text: bytes, p: nat, q: nat, e: bytes)
    requires p <= q <= |text| && text[p..q] == e
    ensures At(text, p, e) && |e| == q - p
  {
    forall i | 0 <= i < |e| ensures text[p + i] == e[i] { assert text[p..q][i] == e[i]; }
    SameFrom(text, p, e, 0);
  }

  lemma ReadIsNumber(text: bytes, p: nat) returns (doc: Doc)
    requires p < |text| && ParseNumber(text, p).Some?
    ensures doc.Number? && LeafAt(text, p, doc) && ParseNumber(text, p).value == Parsed(ValueOf(doc), p + LeafLen(doc))
  {
    var minus := text[p] == 0x2D;
    var s := if minus then p + 1 else p;
    var e := DigitsEnd(text, s);
    DigitsToEnd(text, s);
    DigitsCanonical(text, s, e);
    var n := DigitsValue(text, s, e);
    doc := Number(minus, n);
    NumberPlace(text, p, s, e, minus, n);
  }

  lemma NumberPlace(text: bytes, p: nat, s: nat, e: nat, minus: bool, n: nat)
    requires p <= s < e <= |text| && s == (if minus then p + 1 else p) && (minus ==> text[p] == 0x2D) && text[s..e] == Digits(n)
    ensures At(text, p, NumberText(minus, n)) && |NumberText(minus, n)| == e - p
  {
    if minus { assert text[p..e] == [0x2D] + text[s..e]; }
    SliceAt(text, p, e, NumberText(minus, n));
  }

  lemma ReadIsLeaf(text: bytes, q: nat, d: nat) returns (doc: Doc)
    requires ParseToken(text, q, d).Some? && ByteAt(text, q) != 0x7B && ByteAt(text, q) != 0x5B
    ensures IsLeaf(doc) && LeafAt(text, q, doc) && ParseToken(text, q, d).value == Parsed(ValueOf(doc), q + LeafLen(doc))
  {
    var c := ByteAt(text, q);
    if c == QUOTE {
      var ps, outs := ReadIsChars(text, q);
      doc := Chars(ps, outs);
    } else if c == 0x2D || IsDigit(c) {
      doc := ReadIsNumber(text, q);
    } else {
      doc := Word(ParseToken(text, q, d).value.value);
    }
  }

  // ---------------------------------------------------------------- rules of a parser, read backwards

  /** A value starts behind its blanks; it is not too deep. */
  ghost predicate ValueBack(g: Parser, text: bytes, p: nat, d: nat) {
    g.value(p, d).Some? ==>
      && d <= MAX_JSON_DEPTH && p < |text| && p < g.value(p, d).value.next <= |text|
      && g.value(SkipWs(text, p), d) == g.value(p, d)
  }

  ghost predicate LeafBack(g: Parser, t: Tokens, text: bytes, p: nat, d: nat) {
    g.value(p, d).Some? && !IsSpace(ByteAt(text, p)) && ByteAt(text, p) != 0x5B && ByteAt(text, p) != 0x7B ==>
      exists doc: Doc :: IsLeaf(doc) && t.at(p, doc) && g.value(p, d).value == Parsed(ValueOf(doc), p + t.len(doc))
  }

  ghost predicate ElemBack(g: Parser, text: bytes, p: nat, d: nat) {
    g.items(p, d).Some? ==>
      var q := SkipWs(text, p);
      if ByteAt(text, q) == 0x5D then g.items(p, d) == Some(Parsed(NoItems, q + 1)) else
        var v := g.value(q, d);
        && v.Some? && var n := AfterElement(text, v.value.next, 0x5D);
        n.Some? && g.items(n.value, d).Some? && g.items(p, d) == AddItem(v.value.value, g.items(n.value, d))
  }

  ghost predicate MemberBack(g: Parser, text: bytes, p: nat, d: nat, acc: Fields) {
    g.fields(p, d, acc).Some? ==>
      var q := SkipWs(text, p);
      if ByteAt(text, q) == 0x7D then g.fields(p, d, acc) == Some(Parsed(acc, q + 1)) else
        var kv := g.pair(q, d);
        && kv.Some? && var n := AfterElement(text, kv.value.next, 0x7D);
        n.Some? && g.fields(p, d, acc) == g.fields(n.value, d, Put(acc, kv.value.value.key, kv.value.value.value))
  }

  ghost predicate NameBack(g: Parser, t: Tokens, text: bytes, p: nat, d: nat) {
    g.pair(p, d).Some? ==>
      exists key: Name ::
        && t.nameAt(p, key) && t.nameLen(key) > 0 && Gap(text, p + t.nameLen(key), key.gap)
        && !IsSpace(ByteAt(text, p + t.nameLen(key) + key.gap))
        && g.pair(p, d) == WithKey(KeyOf(key), g.value(p + t.nameLen(key) + key.gap, d))
  }

  ghost predicate Back(g: Parser, t: Tokens, text: bytes) {
    && (forall p: nat, d: nat :: ValueBack(g, text, p, d)) && (forall p: nat, d: nat :: LeafBack(g, t, text, p, d))
    && (forall p: nat, d: nat :: ElemBack(g, text, p, d)) && (forall p: nat, d: nat :: NameBack(g, t, text, p, d))
    && (forall p: nat, d: nat, acc: Fields :: MemberBack(g, text, p, d, acc))
    && (forall p: nat, d: nat :: ArrayRule(g, text, p, d) && ObjectRule(g, text, p, d))
  }

  // ---------------------------------------------------------------- derivations of what was read

  /** `doc` is a derivation at `p`, at depth `d`, of what was read there. */
  ghost predicate Derives(t: Tokens, text: bytes, p: nat, doc: Doc, d: nat, r: Parsed<Json>) {
    DocAt(text, p, doc, t) && Shallow(doc, d) && r == Parsed(ValueOf(doc), p + Len(doc, t))
  }

  ghost predicate DerivesElems(t: Tokens, text: bytes, p: nat, e: Elems, d: nat, r: Parsed<Items>) {
    ElemsAt(text, p, e, t) && ShallowElems(e, d) && r == Parsed(ItemsOf(e), p + ElemsLen(e, t))
  }

  ghost predicate DerivesMembers(t: Tokens, text: bytes, p: nat, m: Members, d: nat, acc: Fields, r: Parsed<Fields>) {
    MembersAt(text, p, m, t) && ShallowMembers(m, d) && r == Parsed(FieldsOf(m, acc), p + MembersLen(m, t))
  }

  /** What follows an element: blanks, then the closing bracket or a comma, more blanks and something else. */
  lemma AfterIs(text: bytes, r: nat, close: byte) returns (a: nat)
    requires r <= |text| && AfterElement(text, r, close).Some? && (close == 0x5D || close == 0x7D)
    ensures r <= a < |text| && Gap(text, r, a - r)
    ensures var n := AfterElement(text, r, close).value;
            || (text[a] == close && n == a)
            || (text[a] == 0x2C && a < n <= |text| && Gap(text, a + 1, n - a - 1) && ByteAt(text, n) != close && SkipWs(text, n) == n)
  {
    a := SkipWs(text, r);
    SkipGap(text, r);
    if text[a] == 0x2C {
      SkipGap(text, a + 1);
      Here(text, SkipWs(text, a + 1));
    }
  }

  lemma {:induction false} ReadIsDoc(g: Parser, t: Tokens, text: bytes, q: nat, d: nat) returns (doc: Doc)
    requires Back(g, t, text) && g.value(q, d).Some? && !IsSpace(ByteAt(text, q))
    ensures Derives(t, text, q, doc, d, g.value(q, d).value)
    decreases |text| - q, 1
  {
    var c := ByteAt(text, q);
    assert ValueBack(g, text, q, d) && ArrayRule(g, text, q, d) && ObjectRule(g, text, q, d);
    if c == 0x7B {
      var m := ReadIsMembers(g, t, text, q + 1, q + 1, d + 1, NoFields);
      doc := Record(m);
    } else if c == 0x5B {
      var e := ReadIsElems(g, t, text, q + 1, q + 1, d + 1);
      doc := List(e);
    } else {
      assert LeafBack(g, t, text, q, d);
      doc :| IsLeaf(doc) && t.at(q, doc) && g.value(q, d).value == Parsed(ValueOf(doc), q + t.len(doc));
    }
  }

  lemma LastDerived(t: Tokens, text: bytes, start: nat, w: nat, doc: Doc, after: nat, d: nat, v: Parsed<Json>)
    requires Gap(text, start, w) && Derives(t, text, start + w, doc, d, v) && Gap(text, v.next, after) && ByteAt(text, v.next + after) == 0x5D
    ensures DerivesElems(t, text, start, LastElem(w, doc, after), d, Parsed(Item(v.value, NoItems), v.next + after + 1))
  {
  }

  lemma MoreDerived(t: Tokens, text: bytes, start: nat, w: nat, doc: Doc, after: nat, rest: Elems, d: nat, v: Parsed<Json>, r: Parsed<Items>)
    requires Gap(text, start, w) && Derives(t, text, start + w, doc, d, v) && Gap(text, v.next, after) && ByteAt(text, v.next + after) == 0x2C
    requires DerivesElems(t, text, v.next + after + 1, rest, d, r) && !rest.NoElems?
    ensures DerivesElems(t, text, start, Elem(w, doc, after, rest), d, Parsed(Item(v.value, r.value), r.next))
  {
  }

  /** From `p` on, where the blanks since `start` have been skipped already. */
  lemma {:induction false} ReadIsElems(g: Parser, t: Tokens, text: bytes, start: nat, p: nat, d: nat) returns (e: Elems)
    requires Back(g, t, text) && start <= p <= |text| && Gap(text, start, p - start) && g.items(p, d).Some?
    ensures DerivesElems(t, text, start, e, d, g.items(p, d).value) && (e.NoElems? <==> ByteAt(text, SkipWs(text, p)) == 0x5D)
    decreases |text| - p, 3
  {
    var q := SkipWs(text, p);
    SkipGap(text, p);
    GapJoin(text, start, p - start, q - p);
    assert ElemBack(g, text, p, d);
    if ByteAt(text, q) == 0x5D {
      e := NoElems(q - start);
    } else {
      var v := g.value(q, d).value;
      assert ValueBack(g, text, q, d);
      var doc := ReadIsDoc(g, t, text, q, d);
      e := ReadIsMore(g, t, text, start, q, d, doc, v);
    }
  }

  /** What the loop does after an element. */
  lemma {:induction false} ReadIsMore(g: Parser, t: Tokens, text: bytes, start: nat, q: nat, d: nat, doc: Doc, v: Parsed<Json>) returns (e: Elems)
    requires Back(g, t, text) && start <= q < v.next <= |text| && Gap(text, start, q - start) && Derives(t, text, q, doc, d, v)
    requires var n := AfterElement(text, v.next, 0x5D); n.Some? && g.items(n.value, d).Some?
    ensures DerivesElems(t, text, start, e, d, AddItem(v.value, g.items(AfterElement(text, v.next, 0x5D).value, d)).value) && !e.NoElems?
    decreases |text| - q, 0
  {
    var n := AfterElement(text, v.next, 0x5D).value;
    var a := AfterIs(text, v.next, 0x5D);
    assert ElemBack(g, text, n, d);
    if text[a] == 0x5D {
      Here(text, a);
      LastDerived(t, text, start, q - start, doc, a - v.next, d, v);
      e := LastElem(q - start, doc, a - v.next);
    } else {
      var rest := ReadIsElems(g, t, text, a + 1, n, d);
      MoreDerived(t, text, start, q - start, doc, a - v.next, rest, d, v, g.items(n, d).value);
      e := Elem(q - start, doc, a - v.next, rest);
    }
  }

  /** A key and its value, as they were read. */
  ghost predicate DerivesPair(t: Tokens, text: bytes, p: nat, key: Name, doc: Doc, d: nat, kv: Parsed<Pair>) {
    var v := p + t.nameLen(key);
    t.nameAt(p, key) && Gap(text, v, key.gap) && kv.value.key == KeyOf(key) && Derives(t, text, v + key.gap, doc, d, Parsed(kv.value.value, kv.next))
  }

  lemma {:induction false} ReadIsPair(g: Parser, t: Tokens, text: bytes, q: nat, d: nat) returns (key: Name, doc: Doc)
    requires Back(g, t, text) && g.pair(q, d).Some?
    ensures DerivesPair(t, text, q, key, doc, d, g.pair(q, d).value) && q < g.pair(q, d).value.next <= |text|
    decreases |text| - q, 2
  {
    assert NameBack(g, t, text, q, d);
    key :| t.nameAt(q, key) && t.nameLen(key) > 0 && Gap(text, q + t.nameLen(key), key.gap)
           && !IsSpace(ByteAt(text, q + t.nameLen(key) + key.gap))
           && g.pair(q, d) == WithKey(KeyOf(key), g.value(q + t.nameLen(key) + key.gap, d));
    var v := q + t.nameLen(key) + key.gap;
    assert ValueBack(g, text, v, d);
    doc := ReadIsDoc(g, t, text, v, d);
  }

  lemma PairDerived(t: Tokens, text: bytes, start: nat, w: nat, key: Name, doc: Doc, after: nat, d: nat, kv: Parsed<Pair>, next: byte)
    requires Gap(text, start, w) && DerivesPair(t, text, start + w, key, doc, d, kv) && Gap(text, kv.next, after) && ByteAt(text, kv.next + after) == next
    ensures PairAt(text, start, w, key, doc, after, next, t) && Shallow(doc, d) && kv.value == Pair(KeyOf(key), ValueOf(doc))
    ensures kv.next == start + w + t.nameLen(key) + key.gap + Len(doc, t)
  {
    assert ValueAt(text, start + w + t.nameLen(key), key.gap, doc, after, next, t);
  }

  lemma LastMemberDerived(t: Tokens, text: bytes, start: nat, w: nat, key: Name, doc: Doc, after: nat, d: nat, acc: Fields, kv: Parsed<Pair>)
    requires Gap(text, start, w) && DerivesPair(t, text, start + w, key, doc, d, kv)
    requires Gap(text, kv.next, after) && ByteAt(text, kv.next + after) == 0x7D
    ensures DerivesMembers(t, text, start, LastMember(w, key, doc, after), d, acc, Parsed(Put(acc, kv.value.key, kv.value.value), kv.next + after + 1))
  {
    PairDerived(t, text, start, w, key, doc, after, d, kv, 0x7D);
  }

  lemma MoreMembersDerived(
    t: Tokens, text: bytes, start: nat, w: nat, key: Name, doc: Doc, after: nat, rest: Members, d: nat, acc: Fields, kv: Parsed<Pair>, r: Parsed<Fields>)
    requires Gap(text, start, w) && DerivesPair(t, text, start + w, key, doc, d, kv)
    requires Gap(text, kv.next, after) && ByteAt(text, kv.next + after) == 0x2C
    requires DerivesMembers(t, text, kv.next + after + 1, rest, d, Put(acc, kv.value.key, kv.value.value), r) && !rest.NoMembers?
    ensures DerivesMembers(t, text, start, Member(w, key, doc, after, rest), d, acc, r)
  {
    PairDerived(t, text, start, w, key, doc, after, d, kv, 0x2C);
  }

  lemma {:induction false} ReadIsMembers(g: Parser, t: Tokens, text: bytes, start: nat, p: nat, d: nat, acc: Fields) returns (m: Members)
    requires Back(g, t, text) && start <= p <= |text| && Gap(text, start, p - start) && g.fields(p, d, acc).Some?
    ensures DerivesMembers(t, text, start, m, d, acc, g.fields(p, d, acc).value)
    ensures m.NoMembers? <==> ByteAt(text, SkipWs(text, p)) == 0x7D
    decreases |text| - p, 3
  {
    var q := SkipWs(text, p);
    SkipGap(text, p);
    GapJoin(text, start, p - start, q - p);
    assert MemberBack(g, text, p, d, acc);
    if ByteAt(text, q) == 0x7D {
      m := NoMembers(q - start);
    } else {
      var kv := g.pair(q, d).value;
      var key, doc := ReadIsPair(g, t, text, q, d);
      m := ReadIsMoreMembers(g, t, text, start, q, d, acc, key, doc, kv);
    }
  }

  /** What the loop does after a member. */
  lemma {:induction false} ReadIsMoreMembers(
    g: Parser, t: Tokens, text: bytes, start: nat, q: nat, d: nat, acc: Fields, key: Name, doc: Doc, kv: Parsed<Pair>) returns (m: Members)
    requires Back(g, t, text) && start <= q < kv.next <= |text| && Gap(text, start, q - start) && DerivesPair(t, text, q, key, doc, d, kv)
    requires var n := AfterElement(text, kv.next, 0x7D); n.Some? && g.fields(n.value, d, Put(acc, kv.value.key, kv.value.value)).Some?
    ensures var n := AfterElement(text, kv.next, 0x7D).value;
            DerivesMembers(t, text, start, m, d, acc, g.fields(n, d, Put(acc, kv.value.key, kv.value.value)).value) && !m.NoMembers?
    decreases |text| - q, 0
  {
    var n, acc' := AfterElement(text, kv.next, 0x7D).value, Put(acc, kv.value.key, kv.value.value);
    var a := AfterIs(text, kv.next, 0x7D);
    if text[a] == 0x7D {
      MembersEndBack(g, t, text, a, d, acc');
      LastMemberDerived(t, text, start, q - start, key, doc, a - kv.next, d, acc, kv);
      m := LastMember(q - start, key, doc, a - kv.next);
    } else {
      var rest := ReadIsMembers(g, t, text, a + 1, n, d, acc');
      MoreMembersDerived(t, text, start, q - start, key, doc, a - kv.next, rest, d, acc, kv, g.fields(n, d, acc').value);
      m := Member(q - start, key, doc, a - kv.next, rest);
    }
  }

  lemma MembersEndBack(g: Parser, t: Tokens, text: bytes, a: nat, d: nat, acc: Fields)
    requires Back(g, t, text) && ByteAt(text, a) == 0x7D && g.fields(a, d, acc).Some?
    ensures g.fields(a, d, acc) == Some(Parsed(acc, a + 1))
  {
    assert MemberBack(g, text, a, d, acc);
    Here(text, a);
  }

  // ---------------------------------------------------------------- the parser read backwards

  lemma {:induction false} SkipAgain(text: bytes, p: nat)
    ensures SkipWs(text, SkipWs(text, p)) == SkipWs(text, p)
    decreases |text| - p
  {
    if IsSpace(ByteAt(text, p)) { SkipAgain(text, p + 1); }
  }

  lemma ParserValueBack(text: bytes, p: nat, d: nat)
    ensures ValueBack(TheParser(text), text, p, d)
  {
    ValueSkips(text, p, d);
  }

  lemma ParserLeafBack(text: bytes, p: nat, d: nat)
    ensures LeafBack(TheParser(text), TokensOf(text), text, p, d)
  {
    if ParseValue(text, p, d).Some? && !IsSpace(ByteAt(text, p)) && ByteAt(text, p) != 0x5B && ByteAt(text, p) != 0x7B {
      Here(text, p);
      var doc := ReadIsLeaf(text, p, d);
      assert TokensOf(text).at(p, doc);
    }
  }

  lemma ParserElemBack(text: bytes, p: nat, d: nat)
    ensures ElemBack(TheParser(text), text, p, d)
  {
  }

  lemma ParserMemberBack(text: bytes, p: nat, d: nat, acc: Fields)
    ensures MemberBack(TheParser(text), text, p, d, acc)
  {
  }

  lemma PairUnfold(text: bytes, p: nat, d: nat) returns (k: Literal, c: nat, b: nat)
    requires ParsePair(text, p, d).Some?
    ensures ByteAt(text, p) == QUOTE && ParseString(text, p) == Some(k) && k.next <= c < b <= |text| && Gap(text, k.next, c - k.next)
    ensures ByteAt(text, c) == 0x3A && Gap(text, c + 1, b - c - 1) && !IsSpace(ByteAt(text, b))
    ensures ParsePair(text, p, d) == WithKey(CString(k.chars), ParseValue(text, b, d))
  {
    k := ParseString(text, p).value;
    c := SkipWs(text, k.next);
    SkipGap(text, k.next);
    b := SkipWs(text, c + 1);
    SkipGap(text, c + 1);
    ValueSkips(text, c + 1, d);
  }

  lemma NameFrom(text: bytes, p: nat, ps: seq<Piece>, outs: seq<bytes>, c: nat, b: nat) returns (key: Name)
    requires CharsAt(text, p, ps, outs) && var n := p + |Text(ps)| + 2; n <= c < b <= |text| && Gap(text, n, c - n)
    requires ByteAt(text, c) == 0x3A && Gap(text, c + 1, b - c - 1)
    ensures NameAt(text, p, key) && p + NameLen(key) == c + 1 && key.gap == b - c - 1 && KeyOf(key) == CString(Joined(outs))
  {
    key := Name(ps, outs, c - (p + |Text(ps)| + 2), b - c - 1);
  }

  lemma ReadIsName(text: bytes, p: nat, d: nat) returns (key: Name)
    requires ParsePair(text, p, d).Some?
    ensures NameAt(text, p, key) && Gap(text, p + NameLen(key), key.gap) && !IsSpace(ByteAt(text, p + NameLen(key) + key.gap))
    ensures ParsePair(text, p, d) == WithKey(KeyOf(key), ParseValue(text, p + NameLen(key) + key.gap, d))
  {
    var k, c, b := PairUnfold(text, p, d);
    key := KeyFrom(text, p, k, c, b);
  }

  lemma KeyFrom(text: bytes, p: nat, k: Literal, c: nat, b: nat) returns (key: Name)
    requires ByteAt(text, p) == QUOTE && ParseString(text, p) == Some(k) && k.next <= c < b <= |text| && Gap(text, k.next, c - k.next)
    requires ByteAt(text, c) == 0x3A && Gap(text, c + 1, b - c - 1)
    ensures NameAt(text, p, key) && p + NameLen(key) == c + 1 && key.gap == b - c - 1 && KeyOf(key) == CString(k.chars)
  {
    var ps, outs := ReadIsChars(text, p);
    key := NameFrom(text, p, ps, outs, c, b);
  }

  lemma ValueSkips(text: bytes, p: nat, d: nat)
    ensures ParseValue(text, SkipWs(text, p), d) == ParseValue(text, p, d)
  {
    SkipAgain(text, p);
  }

  lemma ParserNameBack(text: bytes, p: nat, d: nat)
    ensures NameBack(TheParser(text), TokensOf(text), text, p, d)
  {
    if ParsePair(text, p, d).Some? {
      var key := ReadIsName(text, p, d);
      assert TokensOf(text).nameAt(p, key);
    }
  }

  lemma ParserBack(text: bytes)
    ensures Back(TheParser(text), TokensOf(text), text)
  {
    forall p: nat, d: nat ensures ValueBack(TheParser(text), text, p, d) { ParserValueBack(text, p, d); }
    forall p: nat, d: nat ensures LeafBack(TheParser(text), TokensOf(text), text, p, d) { ParserLeafBack(text, p, d); }
    forall p: nat, d: nat ensures ElemBack(TheParser(text), text, p, d) { ParserElemBack(text, p, d); }
    forall p: nat, d: nat ensures NameBack(TheParser(text), TokensOf(text), text, p, d) { ParserNameBack(text, p, d); }
    forall p: nat, d: nat, acc: Fields ensures MemberBack(TheParser(text), text, p, d, acc) { ParserMemberBack(text, p, d, acc); }
    forall p: nat, d: nat ensures ArrayRule(TheParser(text), text, p, d) && ObjectRule(TheParser(text), text, p, d) {
      ParserArray(text, p, d);
      ParserObject(text, p, d);
    }
  }

  // ---------------------------------------------------------------- the parser is the grammar

  /** The whole text is a derivation with blanks around it. */
  ghost predicate Document(text: bytes, w: nat, doc: Doc) {
    var t := TokensOf(text);
    var e := w + Len(doc, t);
    Gap(text, 0, w) && DocAt(text, w, doc, t) && e <= |text| && Gap(text, e, |text| - e)
  }

  lemma DocumentValue(text: bytes, w: nat, doc: Doc)
    requires Document(text, w, doc)
    ensures ParseValue(text, 0, 0) == Result(Shallow(doc, 0), ValueOf(doc), w + Len(doc, TokensOf(text)))
  {
    var g, t := TheParser(text), TokensOf(text);
    ParserIsLawful(text);
    var e := w + Len(doc, t);
    GapBoundary(text, e, |text| - e);
    DocIsParsed(g, t, text, w, doc, 0);
    DocStarts(g, t, text, w, doc);
    By(g, t, text, Skips(0, w, 0));
    ParserOfValue(text, 0, 0);
  }

  /** A document is accepted, with its value, exactly when nothing in it lies below depth 64. */
  lemma DocumentIsParsed(text: bytes, w: nat, doc: Doc)
    requires Document(text, w, doc)
    ensures Parse(text) == if Shallow(doc, 0) then Some(ValueOf(doc)) else None
  {
    DocumentValue(text, w, doc);
    var e := w + Len(doc, TokensOf(text));
    SkipIs(text, e, |text| - e);
  }

  /** Whatever C string is accepted is a document. */
  lemma ParsedIsDocument(text: bytes) returns (w: nat, doc: Doc)
    requires NulFree(text) && Parse(text).Some?
    ensures Document(text, w, doc) && Shallow(doc, 0) && Parse(text) == Some(ValueOf(doc))
  {
    var g, t := TheParser(text), TokensOf(text);
    ParserBack(text);
    ParserOfValue(text, 0, 0);
    assert ValueBack(g, text, 0, 0);
    w := SkipWs(text, 0);
    SkipGap(text, 0);
    doc := ReadIsDoc(g, t, text, w, 0);
    SkipGap(text, w + Len(doc, t));
  }

  // ---------------------------------------------------------------- repeated keys

  /** Putting a field is updating the map that the fields mean: the last value of a key stays. */
  lemma {:induction false} PutMeans(f: Fields, k: Key, v: Json)
    requires |k| < 128
    ensures M.FieldsMean(Put(f, k, v)) == M.FieldsMean(f)[k := M.MeaningOf(v)]
  {
    if f.Field? {
      SameSlotSymmetric(f.key, k);
      ShortKeys(k, f.key);
      if f.key != k { PutMeans(f.rest, k, v); }
    }
  }

  /** What a derivation means, with objects as maps. */
  function DocMeans(doc: Doc): M.Meaning {
    match doc
    case Word(v) => M.MeaningOf(v)
    case Number(minus, n) => M.MNum(if minus then -(n as int) else n)
    case Chars(_, outs) => M.MStr(CString(Joined(outs)))
    case List(elems) => M.MArr(ElemsMean(elems))
    case Record(members) => M.MObj(MembersMean(members, map[]))
  }

  function ElemsMean(e: Elems): seq<M.Meaning> {
    match e
    case NoElems(_) => []
    case LastElem(_, doc, _) => [DocMeans(doc)]
    case Elem(_, doc, _, rest) => [DocMeans(doc)] + ElemsMean(rest)
  }

  function MembersMean(m: Members, before: map<Key, M.Meaning>): map<Key, M.Meaning>
    decreases m
  {
    match m
    case NoMembers(_) => before
    case LastMember(_, key, doc, _) => before[KeyOf(key) := DocMeans(doc)]
    case Member(_, key, doc, _, rest) => MembersMean(rest, before[KeyOf(key) := DocMeans(doc)])
  }

  /** Keys have at most 127 bytes, those that the hash map compares in full. */
  predicate ShortNames(doc: Doc) {
    match doc
    case List(elems) => ShortElems(elems)
    case Record(members) => ShortMembers(members)
    case _ => true
  }

  predicate ShortElems(e: Elems) {
    match e
    case NoElems(_) => true
    case LastElem(_, doc, _) => ShortNames(doc)
    case Elem(_, doc, _, rest) => ShortNames(doc) && ShortElems(rest)
  }

  predicate ShortMembers(m: Members) {
    match m
    case NoMembers(_) => true
    case LastMember(_, key, doc, _) => |KeyOf(key)| < 128 && ShortNames(doc)
    case Member(_, key, doc, _, rest) => |KeyOf(key)| < 128 && ShortNames(doc) && ShortMembers(rest)
  }

  lemma {:induction false} ValueMeans(doc: Doc)
    requires ShortNames(doc)
    ensures M.MeaningOf(ValueOf(doc)) == DocMeans(doc)
    decreases doc
  {
    match doc
    case List(elems) => ItemsMeanElems(elems);
    case Record(members) => FieldsMeanMembers(members, NoFields);
    case _ =>
  }

  lemma {:induction false} ItemsMeanElems(e: Elems)
    requires ShortElems(e)
    ensures M.ItemsMean(ItemsOf(e)) == ElemsMean(e)
    decreases e
  {
    match e
    case NoElems(_) =>
    case LastElem(_, doc, _) => ValueMeans(doc);
    case Elem(_, doc, _, rest) =>
      ValueMeans(doc);
      ItemsMeanElems(rest);
  }

  lemma {:induction false} FieldsMeanMembers(m: Members, acc: Fields)
    requires ShortMembers(m)
    ensures M.FieldsMean(FieldsOf(m, acc)) == MembersMean(m, M.FieldsMean(acc))
    decreases m
  {
    match m
    case NoMembers(_) =>
    case LastMember(_, key, doc, _) =>
      ValueMeans(doc);
      PutMeans(acc, KeyOf(key), ValueOf(doc));
    case Member(_, key, doc, _, rest) =>
      ValueMeans(doc);
      PutMeans(acc, KeyOf(key), ValueOf(doc));
      FieldsMeanMembers(rest, Put(acc, KeyOf(key), ValueOf(doc)));
  }

  /** So a document means what its derivation means: of members with the same key the last one counts. */
  lemma DocumentMeans(text: bytes, w: nat, doc: Doc)
    requires Document(text, w, doc) && Shallow(doc, 0) && ShortNames(doc)
    ensures Parse(text).Some? && M.MeaningOf(Parse(text).value) == DocMeans(doc)
  {
    DocumentIsParsed(text, w, doc);
    ValueMeans(doc);
  }
}
