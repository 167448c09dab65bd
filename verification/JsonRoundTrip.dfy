/** What parsing makes of printed value trees: equal trees, exactly for the trees that can be read back. */
module JsonRoundTrip {
  import opened Common
  import opened JsonText
  import opened JsonTree
  import opened JsonLayout

  // ---------------------------------------------------------------- which trees

  /** Integers that `%g` prints digit by digit. */
  predicate SmallNumbers(v: Json) {
    match v
    case Num(n) => -1_000_000 < n < 1_000_000
    case Arr(items) => SmallItems(items)
    case Obj(fields) => SmallFields(fields)
    case _ => true
  }

  predicate SmallItems(items: Items) {
    items.Item? ==> SmallNumbers(items.head) && SmallItems(items.rest)
  }

  predicate SmallFields(f: Fields) {
    f.Field? ==> SmallNumbers(f.value) && SmallFields(f.rest)
  }

  /** A string that is read back as it was written. */
  predicate Clean(s: bytes) { WellFormed(s) && NoRawControl(s) }

  /** No node below depth 64, and every string clean up to its first NUL. */
  predicate Fine(v: Json, d: nat) {
    d <= MAX_JSON_DEPTH &&
    match v
    case Str(s) => Clean(CString(s))
    case Arr(items) => FineItems(items, d + 1)
    case Obj(fields) => FineFields(fields, d + 1)
    case _ => true
  }

  predicate FineItems(items: Items, d: nat) {
    items.Item? ==> Fine(items.head, d) && FineItems(items.rest, d)
  }

  predicate FineFields(f: Fields, d: nat) {
    f.Field? ==> Clean(f.key) && Fine(f.value, d) && FineFields(f.rest, d)
  }

  /** The tree with every string cut at its first NUL, as the printer sees it. */
  function Cut(v: Json): Json {
    match v
    case Str(s) => Str(CString(s))
    case Arr(items) => Arr(CutItems(items))
    case Obj(fields) => Obj(CutFields(fields))
    case _ => v
  }

  function CutItems(items: Items): Items {
    if items.NoItems? then NoItems else Item(Cut(items.head), CutItems(items.rest))
  }

  function CutFields(f: Fields): Fields {
    if f.NoFields? then NoFields else Field(f.key, Cut(f.value), CutFields(f.rest))
  }

  // ---------------------------------------------------------------- numbers

  lemma {:induction false} DigitsAreDigits(n: nat)
    ensures forall i :: 0 <= i < |Digits(n)| ==> IsDigit(Digits(n)[i])
    ensures Digits(n)[0] == 0x30 ==> n == 0 && |Digits(n)| == 1
  {
    if n >= 10 {
      DigitsAreDigits(n / 10);
      var a := Digits(n / 10);
      assert Digits(n)[0] == a[0];
    }
  }

  lemma {:induction false} DigitsEndIs(text: bytes, p: nat, q: nat)
    requires p <= q <= |text| && (forall i :: p <= i < q ==> IsDigit(text[i])) && !IsDigit(ByteAt(text, q))
    ensures DigitsEnd(text, p) == q
    decreases q - p
  {
    if p < q { DigitsEndIs(text, p + 1, q); }
  }

  lemma {:induction false} DigitsValueIs(text: bytes, p: nat, n: nat)
    requires At(text, p, Digits(n))
    ensures DigitsValue(text, p, p + |Digits(n)|) == n
  {
    if n < 10 {
      AtByte(text, p, Digits(n), 0);
      assert DigitsValue(text, p, p) == 0;
    } else {
      var a := Digits(n / 10);
      AtSplit(text, p, a, [0x30 + n % 10]);
      AtByte(text, p + |a|, [0x30 + n % 10], 0);
      DigitsValueIs(text, p, n / 10);
    }
  }

  lemma DigitsParsed(text: bytes, p: nat, n: nat)
    requires At(text, p, Digits(n)) && IsBoundary(ByteAt(text, p + |Digits(n)|))
    ensures DigitsEnd(text, p) == p + |Digits(n)| && DigitsValue(text, p, p + |Digits(n)|) == n
    ensures IsDigit(ByteAt(text, p)) && !(ByteAt(text, p) == 0x30 && IsDigit(ByteAt(text, p + 1)))
  {
    var e := Digits(n);
    DigitsAreDigits(n);
    forall i | p <= i < p + |e| ensures IsDigit(text[i]) { AtByte(text, p, e, i - p); }
    AtByte(text, p, e, 0);
    DigitsEndIs(text, p, p + |e|);
    DigitsValueIs(text, p, n);
  }

  lemma NumberIs(text: bytes, p: nat, s: nat, e: nat, v: int)
    requires p < |text| && s == (if text[p] == 0x2D then p + 1 else p) && s < e <= |text| && DigitsEnd(text, s) == e
    requires DigitsValue(text, s, e) == v && IsBoundary(ByteAt(text, e))
    requires !(ByteAt(text, s) == 0x30 && IsDigit(ByteAt(text, s + 1)))
    ensures ParseNumber(text, p) == Some(Parsed(Num(if s > p then -v else v), e))
  {
  }

  lemma NegativeParsed(text: bytes, p: nat, n: nat)
    requires At(text, p, [0x2D] + Digits(n)) && IsBoundary(ByteAt(text, p + 1 + |Digits(n)|))
    ensures p < |text| && text[p] == 0x2D && ParseNumber(text, p) == Some(Parsed(Num(-(n as int)), p + 1 + |Digits(n)|))
  {
    AtSplit(text, p, [0x2D], Digits(n));
    AtByte(text, p, [0x2D], 0);
    DigitsParsed(text, p + 1, n);
    NumberIs(text, p, p + 1, p + 1 + |Digits(n)|, n);
  }

  lemma PositiveParsed(text: bytes, p: nat, n: nat)
    requires At(text, p, Digits(n)) && IsBoundary(ByteAt(text, p + |Digits(n)|))
    ensures p < |text| && IsDigit(text[p]) && ParseNumber(text, p) == Some(Parsed(Num(n), p + |Digits(n)|))
  {
    DigitsParsed(text, p, n);
    NumberIs(text, p, p, p + |Digits(n)|, n);
  }

  lemma NumberParsed(text: bytes, p: nat, n: int)
    requires At(text, p, PrintInt(n)) && IsBoundary(ByteAt(text, p + |PrintInt(n)|))
    ensures p < |text| && (text[p] == 0x2D || IsDigit(text[p]))
    ensures ParseNumber(text, p) == Some(Parsed(Num(n), p + |PrintInt(n)|))
  {
    if n < 0 { NegativeParsed(text, p, -n); } else { PositiveParsed(text, p, n); }
  }

  // ---------------------------------------------------------------- where things are

  lemma FirstByte(v: Json, d: nat)
    ensures Print(v, d) != [] && Starts(Print(v, d)[0])
  {
    if d <= MAX_JSON_DEPTH && v.Num? {
      DigitsAreDigits(if v.n < 0 then -v.n else v.n);
    }
  }

  lemma ValueStarts(text: bytes, p: nat, v: Json, d: nat)
    requires At(text, p, Print(v, d))
    ensures Starts(ByteAt(text, p)) && SkipWs(text, p) == p
  {
    FirstByte(v, d);
    AtByte(text, p, Print(v, d), 0);
  }

  predicate CleanScalar(v: Json) { v.Str? ==> Clean(CString(v.s)) }

  lemma StringParsed(text: bytes, p: nat, s: bytes, d: nat)
    requires At(text, p, PrintScalar(Str(s)))
    ensures ParseToken(text, p, d) == if CleanScalar(Str(s)) then Some(Parsed(Cut(Str(s)), p + |PrintScalar(Str(s))|)) else None
  {
    AtByte(text, p, PrintScalar(Str(s)), 0);
    ParseQuoted(text, p, CString(s), false);
  }

  lemma IntegerParsed(text: bytes, p: nat, v: Json, d: nat)
    requires v.Num? && At(text, p, PrintScalar(v)) && IsBoundary(ByteAt(text, p + |PrintScalar(v)|))
    ensures ParseToken(text, p, d) == Some(Parsed(v, p + |PrintScalar(v)|))
  {
    NumberParsed(text, p, v.n);
  }

  lemma ScalarParsed(text: bytes, p: nat, v: Json, d: nat)
    requires IsScalar(v) && At(text, p, PrintScalar(v)) && IsBoundary(ByteAt(text, p + |PrintScalar(v)|))
    ensures ParseToken(text, p, d) == if CleanScalar(v) then Some(Parsed(Cut(v), p + |PrintScalar(v)|)) else None
  {
    match v
    case Num(n) => IntegerParsed(text, p, v, d);
    case Str(s) => StringParsed(text, p, s, d);
    case Bool(b) => WordParsed(text, p, v, d);
    case Null => WordParsed(text, p, v, d);
  }

  lemma WordParsed(text: bytes, p: nat, v: Json, d: nat)
    requires v.Bool? || v.Null?
    requires At(text, p, PrintScalar(v)) && IsBoundary(ByteAt(text, p + |PrintScalar(v)|))
    ensures ParseToken(text, p, d) == Some(Parsed(v, p + |PrintScalar(v)|))
  {
    AtByte(text, p, PrintScalar(v), 0);
    if At(text, p, TRUE) { AtByte(text, p, TRUE, 0); }
    if At(text, p, FALSE) { AtByte(text, p, FALSE, 0); }
  }

  // ---------------------------------------------------------------- the leaves of this parser and printer

  ghost function TheLeaves(text: bytes): Leaves {
    Leaves((v: Json) => if IsScalar(v) then |PrintScalar(v)| else 0,
           (k: Key) => |Quoted(k, false)|,
           (p: nat, v: Json) => IsScalar(v) && At(text, p, PrintScalar(v)),
           (p: nat, k: Key) => At(text, p, Quoted(k, false)),
           (v: Json) => if CleanScalar(v) then Some(Cut(v)) else None,
           (k: Key) => Clean(k))
  }

  /** Reading gives the tree with its strings cut, exactly when it is fine. */
  lemma {:induction false} ReadIs(text: bytes, v: Json, d: nat)
    ensures Read(v, d, TheLeaves(text)) == if Fine(v, d) then Some(Cut(v)) else None
    decreases v
  {
    match v
    case Arr(items) => ReadItemsIs(text, items, d + 1);
    case Obj(fields) => ReadFieldsIs(text, fields, d + 1);
    case _ =>
  }

  lemma {:induction false} ReadItemsIs(text: bytes, items: Items, d: nat)
    ensures ReadItems(items, d, TheLeaves(text)) == if FineItems(items, d) then Some(CutItems(items)) else None
    decreases items
  {
    if items.Item? {
      ReadIs(text, items.head, d);
      ReadItemsIs(text, items.rest, d);
    }
  }

  lemma {:induction false} ReadFieldsIs(text: bytes, f: Fields, d: nat)
    ensures ReadFields(f, d, TheLeaves(text)) == if FineFields(f, d) then Some(CutFields(f)) else None
    decreases f
  {
    if f.Field? {
      ReadIs(text, f.value, d);
      ReadFieldsIs(text, f.rest, d);
    }
  }

  // ---------------------------------------------------------------- printing lays the tree out

  lemma Brackets(text: bytes, p: nat, open: byte, e: bytes, close: byte)
    requires At(text, p, [open] + e + [close])
    ensures ByteAt(text, p) == open && At(text, p + 1, e) && ByteAt(text, p + 1 + |e|) == close
  {
    AtSplit(text, p, [open] + e, [close]);
    AtSplit(text, p, [open], e);
    AtByte(text, p, [open], 0);
    AtByte(text, p + 1 + |e|, [close], 0);
  }

  lemma {:induction false} PrintIsLaid(text: bytes, p: nat, v: Json, d: nat)
    requires At(text, p, Print(v, d))
    ensures Laid(text, p, v, d, TheLeaves(text)) && Size(v, d, TheLeaves(text)) == |Print(v, d)|
    decreases v, 0
  {
    ValueStarts(text, p, v, d);
    if d <= MAX_JSON_DEPTH {
      match v
      case Arr(items) => ArrayIsLaid(text, p, v, d);
      case Obj(fields) => ObjectIsLaid(text, p, v, d);
      case _ =>
    }
  }

  lemma ArrayParts(text: bytes, p: nat, v: Json, d: nat)
    requires At(text, p, Print(v, d)) && d <= MAX_JSON_DEPTH && v.Arr?
    ensures var b := PrintItems(v.items, d + 1);
            At(text, p + 1, b) && ByteAt(text, p) == 0x5B && ByteAt(text, p + 1 + |b|) == 0x5D && |Print(v, d)| == |b| + 2
  {
    Brackets(text, p, 0x5B, PrintItems(v.items, d + 1), 0x5D);
  }

  lemma {:induction false} ArrayIsLaid(text: bytes, p: nat, v: Json, d: nat)
    requires At(text, p, Print(v, d)) && d <= MAX_JSON_DEPTH && v.Arr? && Starts(ByteAt(text, p))
    ensures Laid(text, p, v, d, TheLeaves(text)) && Size(v, d, TheLeaves(text)) == |Print(v, d)|
    decreases v.items, 1
  {
    ArrayParts(text, p, v, d);
    ItemsAreLaid(text, p + 1, v.items, d + 1);
    ArrayLaid(text, p, v, d, TheLeaves(text));
  }

  lemma ObjectParts(text: bytes, p: nat, v: Json, d: nat)
    requires At(text, p, Print(v, d)) && d <= MAX_JSON_DEPTH && v.Obj?
    ensures var b := PrintFields(v.fields, d + 1);
            At(text, p + 1, b) && ByteAt(text, p) == 0x7B && ByteAt(text, p + 1 + |b|) == 0x7D && |Print(v, d)| == |b| + 2
  {
    Brackets(text, p, 0x7B, PrintFields(v.fields, d + 1), 0x7D);
  }

  lemma {:induction false} ObjectIsLaid(text: bytes, p: nat, v: Json, d: nat)
    requires At(text, p, Print(v, d)) && d <= MAX_JSON_DEPTH && v.Obj? && Starts(ByteAt(text, p))
    ensures Laid(text, p, v, d, TheLeaves(text)) && Size(v, d, TheLeaves(text)) == |Print(v, d)|
    decreases v.fields, 1
  {
    ObjectParts(text, p, v, d);
    FieldsAreLaid(text, p + 1, v.fields, d + 1);
    ObjectLaid(text, p, v, d, TheLeaves(text));
  }

  lemma {:induction false} ItemsAreLaid(text: bytes, p: nat, items: Items, d: nat)
    requires At(text, p, PrintItems(items, d))
    ensures LaidItems(text, p, items, d, TheLeaves(text)) && SizeItems(items, d, TheLeaves(text)) == |PrintItems(items, d)|
    decreases items, 0
  {
    if items.Item? {
      var e, more := Print(items.head, d), if items.rest.NoItems? then [] else [0x2C] + PrintItems(items.rest, d);
      AtSplit(text, p, e, more);
      PrintIsLaid(text, p, items.head, d);
      if items.rest.Item? {
        AtSplit(text, p + |e|, [0x2C], PrintItems(items.rest, d));
        AtByte(text, p + |e|, [0x2C], 0);
        ItemsAreLaid(text, p + |e| + 1, items.rest, d);
      }
    }
  }

  lemma CommaAt(text: bytes, p: nat, e: bytes, rest: bytes)
    requires At(text, p, e + ([0x2C] + rest))
    ensures At(text, p, e) && ByteAt(text, p + |e|) == 0x2C && At(text, p + |e| + 1, rest)
  {
    AtSplit(text, p, e, [0x2C] + rest);
    AtSplit(text, p + |e|, [0x2C], rest);
    AtByte(text, p + |e|, [0x2C], 0);
  }

  lemma {:induction false} FieldsAreLaid(text: bytes, p: nat, f: Fields, d: nat)
    requires At(text, p, PrintFields(f, d))
    ensures LaidFields(text, p, f, d, TheLeaves(text)) && SizeFields(f, d, TheLeaves(text)) == |PrintFields(f, d)|
    decreases f, 0
  {
    if f.Field? {
      var e, l := PrintPair(f.key, f.value, d), TheLeaves(text);
      if f.rest.Field? {
        CommaAt(text, p, e, PrintFields(f.rest, d));
        FieldsAreLaid(text, p + |e| + 1, f.rest, d);
      } else {
        AtSplit(text, p, e, []);
      }
      PairLies(text, p, f.key, f.value, d, l);
      FieldLaid(text, p, f, d, l, p + |e|);
    }
  }

  lemma {:induction false} PairLies(text: bytes, p: nat, k: Key, v: Json, d: nat, l: Leaves)
    requires At(text, p, PrintPair(k, v, d)) && l == TheLeaves(text)
    ensures l.keyAt(p, k) && ByteAt(text, p) == QUOTE && ByteAt(text, p + l.keySize(k)) == 0x3A
    ensures Laid(text, p + l.keySize(k) + 1, v, d, l) && |PrintPair(k, v, d)| == l.keySize(k) + 1 + Size(v, d, l)
    decreases v, 2
  {
    LeavesOfKey(text, p, k);
    PairIsLaid(text, p, k, v, d);
  }

  lemma {:induction false} PairIsLaid(text: bytes, p: nat, k: Key, v: Json, d: nat)
    requires At(text, p, PrintPair(k, v, d))
    ensures var c := p + |Quoted(k, false)|;
            At(text, p, Quoted(k, false)) && ByteAt(text, p) == QUOTE && ByteAt(text, c) == 0x3A && Laid(text, c + 1, v, d, TheLeaves(text))
    ensures |PrintPair(k, v, d)| == |Quoted(k, false)| + 1 + Size(v, d, TheLeaves(text))
    decreases v, 1
  {
    AtSplit(text, p, Quoted(k, false) + [0x3A], Print(v, d));
    AtSplit(text, p, Quoted(k, false), [0x3A]);
    AtByte(text, p, Quoted(k, false), 0);
    AtByte(text, p + |Quoted(k, false)|, [0x3A], 0);
    PrintIsLaid(text, p + |Quoted(k, false)| + 1, v, d);
  }

  // ---------------------------------------------------------------- the parser obeys the rules

  ghost function TheParser(text: bytes): Parser {
    Parser((p: nat, d: nat) => ParseValue(text, p, d),
           (p: nat, d: nat) => ParseItems(text, p, d),
           (p: nat, d: nat, acc: Fields) => ParseFields(text, p, d, acc),
           (p: nat, d: nat) => ParsePair(text, p, d))
  }

  lemma ScalarRead(text: bytes, p: nat, v: Json, d: nat)
    requires d <= MAX_JSON_DEPTH && IsScalar(v) && At(text, p, PrintScalar(v)) && IsBoundary(ByteAt(text, p + |PrintScalar(v)|))
    ensures ParseValue(text, p, d) == if CleanScalar(v) then Some(Parsed(Cut(v), p + |PrintScalar(v)|)) else None
  {
    assert Print(v, d) == PrintScalar(v);
    ValueStarts(text, p, v, d);
    ScalarParsed(text, p, v, d);
  }

  lemma LeavesOfScalar(text: bytes, p: nat, v: Json)
    requires IsScalar(v)
    ensures var l := TheLeaves(text);
            && l.size(v) == |PrintScalar(v)| && l.at(p, v) == At(text, p, PrintScalar(v))
            && l.read(v) == if CleanScalar(v) then Some(Cut(v)) else None
  {
  }

  lemma ParserOfValue(text: bytes, p: nat, d: nat)
    ensures TheParser(text).value(p, d) == ParseValue(text, p, d)
  {
  }

  lemma ScalarRuleFrom(g: Parser, l: Leaves, text: bytes, p: nat, v: Json, d: nat)
    requires d <= MAX_JSON_DEPTH && IsScalar(v) && l.at(p, v) && IsBoundary(ByteAt(text, p + l.size(v))) ==>
               g.value(p, d) == EndingAt(l.read(v), p + l.size(v))
    ensures ScalarRule(g, l, text, p, v, d)
  {
  }

  lemma ParserScalar(text: bytes, p: nat, v: Json, d: nat)
    ensures ScalarRule(TheParser(text), TheLeaves(text), text, p, v, d)
  {
    var l := TheLeaves(text);
    if d <= MAX_JSON_DEPTH && IsScalar(v) {
      LeavesOfScalar(text, p, v);
      if l.at(p, v) && IsBoundary(ByteAt(text, p + l.size(v))) {
        ScalarRead(text, p, v, d);
        ParserOfValue(text, p, d);
      }
    }
    ScalarRuleFrom(TheParser(text), l, text, p, v, d);
  }

  lemma PairGoes(text: bytes, p: nat, d: nat, s: Literal)
    requires ByteAt(text, p) == QUOTE && ParseString(text, p) == Some(s) && ByteAt(text, s.next) == 0x3A
    ensures ParsePair(text, p, d) == WithKey(CString(s.chars), ParseValue(text, s.next + 1, d))
  {
    Here(text, s.next);
  }

  lemma PairFails(text: bytes, p: nat, d: nat)
    requires ByteAt(text, p) == QUOTE && ParseString(text, p) == None
    ensures ParsePair(text, p, d) == None
  {
  }

  lemma KeyParsed(text: bytes, p: nat, k: Key, d: nat, ok: bool, n: nat)
    requires ByteAt(text, p) == QUOTE && ByteAt(text, n) == 0x3A
    requires ParseString(text, p) == if ok then Some(Literal(k, n)) else None
    ensures ParsePair(text, p, d) == if ok then WithKey(k, ParseValue(text, n + 1, d)) else None
  {
    if ok { PairGoes(text, p, d, Literal(k, n)); } else { PairFails(text, p, d); }
  }

  lemma KeyRead(text: bytes, p: nat, k: Key)
    requires At(text, p, Quoted(k, false))
    ensures ByteAt(text, p) == QUOTE
    ensures ParseString(text, p) == if Clean(k) then Some(Literal(k, p + |Quoted(k, false)|)) else None
  {
    AtByte(text, p, Quoted(k, false), 0);
    ParseQuoted(text, p, k, false);
  }

  lemma LeavesOfKey(text: bytes, p: nat, k: Key)
    ensures var l := TheLeaves(text);
            l.keyAt(p, k) == At(text, p, Quoted(k, false)) && l.clean(k) == Clean(k) && l.keySize(k) == |Quoted(k, false)|
  {
  }

  lemma ParserOfPair(text: bytes, p: nat, n: nat, k: Key, d: nat, ok: bool)
    requires ParsePair(text, p, d) == if ok then WithKey(k, ParseValue(text, n, d)) else None
    ensures var g := TheParser(text); g.pair(p, d) == if ok then WithKey(k, g.value(n, d)) else None
  {
  }

  /** What the rule about keys asks of any parser. */
  lemma KeyRuleFrom(g: Parser, l: Leaves, text: bytes, p: nat, k: Key, d: nat)
    requires l.keyAt(p, k) && ByteAt(text, p + l.keySize(k)) == 0x3A ==>
               g.pair(p, d) == if l.clean(k) then WithKey(k, g.value(p + l.keySize(k) + 1, d)) else None
    ensures KeyRule(g, l, text, p, k, d)
  {
  }

  /** A key and its colon, read by the functions of the parser. */
  lemma PairRead(text: bytes, p: nat, k: Key, d: nat, n: nat)
    requires At(text, p, Quoted(k, false)) && n == p + |Quoted(k, false)| && ByteAt(text, n) == 0x3A
    ensures ParsePair(text, p, d) == if Clean(k) then WithKey(k, ParseValue(text, n + 1, d)) else None
  {
    KeyRead(text, p, k);
    KeyParsed(text, p, k, d, Clean(k), n);
  }

  lemma KeyStepRead(text: bytes, p: nat, k: Key, d: nat, n: nat)
    requires At(text, p, Quoted(k, false)) && n == p + |Quoted(k, false)| && ByteAt(text, n) == 0x3A
    ensures TheParser(text).pair(p, d) == if Clean(k) then WithKey(k, TheParser(text).value(n + 1, d)) else None
  {
    PairRead(text, p, k, d, n);
    ParserOfPair(text, p, n + 1, k, d, Clean(k));
  }

  lemma ParserKey(text: bytes, p: nat, k: Key, d: nat)
    ensures KeyRule(TheParser(text), TheLeaves(text), text, p, k, d)
  {
    var g, l := TheParser(text), TheLeaves(text);
    LeavesOfKey(text, p, k);
    if l.keyAt(p, k) && ByteAt(text, p + l.keySize(k)) == 0x3A {
      KeyStepRead(text, p, k, d, p + l.keySize(k));
    }
    KeyRuleFrom(g, l, text, p, k, d);
  }

  lemma ParserItems(text: bytes, p: nat, d: nat)
    ensures ItemsRule(TheParser(text), text, p, d)
  {
    if Starts(ByteAt(text, p)) { Here(text, p); }
  }

  lemma ParserFields(text: bytes, p: nat, d: nat, acc: Fields)
    ensures FieldsRule(TheParser(text), text, p, d, acc)
  {
    if ByteAt(text, p) == QUOTE { Here(text, p); }
  }

  lemma ParserArray(text: bytes, p: nat, d: nat)
    ensures ArrayRule(TheParser(text), text, p, d)
  {
    if d <= MAX_JSON_DEPTH && ByteAt(text, p) == 0x5B {
      Here(text, p);
      assert ParseValue(text, p, d) == ParseToken(text, p, d);
      assert ParseToken(text, p, d) == InArray(ParseItems(text, p + 1, d + 1));
    }
  }

  lemma ParserObject(text: bytes, p: nat, d: nat)
    ensures ObjectRule(TheParser(text), text, p, d)
  {
    if d <= MAX_JSON_DEPTH && ByteAt(text, p) == 0x7B {
      Here(text, p);
      assert ParseValue(text, p, d) == ParseToken(text, p, d);
      assert ParseToken(text, p, d) == InObject(ParseFields(text, p + 1, d + 1, NoFields));
    }
  }

  lemma ParserObeys(text: bytes)
    ensures Obeys(TheParser(text), TheLeaves(text), text)
  {
    forall r: Rule ensures RuleOk(TheParser(text), TheLeaves(text), text, r) {
      match r
      case Scalar(p, v, d) => ParserScalar(text, p, v, d);
      case Array(p, d) => ParserArray(text, p, d);
      case Object(p, d) => ParserObject(text, p, d);
      case ItemsStep(p, d) => ParserItems(text, p, d);
      case FieldsStep(p, d, acc) => ParserFields(text, p, d, acc);
      case KeyStep(p, k, d) => ParserKey(text, p, k, d);
      case _ =>
    }
  }

  /** Parsing undoes printing exactly when no node lies below depth 64 and every string is clean and without NUL. */
  lemma RoundTrip(v: Json)
    requires SmallNumbers(v) && Distinct(v)
    ensures Parse(Print(v, 0)) == if Fine(v, 0) then Some(Cut(v)) else None
    ensures Parse(Print(v, 0)) == Some(v) <==> Fine(v, 0) && Cut(v) == v
  {
    var text := Print(v, 0);
    AtSelf(text);
    WholeText(v, text);
    if Fine(v, 0) { assert SkipWs(text, |text|) == |text|; }
  }

  lemma WholeText(v: Json, text: bytes)
    requires Distinct(v) && At(text, 0, Print(v, 0)) && |text| == |Print(v, 0)|
    ensures ParseValue(text, 0, 0) == if Fine(v, 0) then Some(Parsed(Cut(v), |text|)) else None
  {
    ParserObeys(text);
    PrintIsLaid(text, 0, v, 0);
    ReadIs(text, v, 0);
    ValueParsed(TheParser(text), TheLeaves(text), text, 0, v, 0);
  }

  /** The printer writes the control character 1 as it is, and the parser refuses it. */
  lemma ControlCharacterIsLost()
    ensures Parse(Print(Str([1]), 0)) == None
  {
    var v := Str([1]);
    RoundTrip(v);
  }
}
