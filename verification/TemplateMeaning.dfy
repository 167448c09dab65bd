/**
 What a rendered page consists of, stated of Render alone: which values come out how, in which order, and that nothing
 but the template itself and the digits of numbers can bring markup into the page.
 */
module TemplateMeaning {
  import opened Common
  import opened Template

  // ---------------------------------------------------------------- values

  /** The context is an object that has `v` under key `k`. */
  predicate Binds(ctx: Option<Data>, k: string, v: Data) {
    ctx.Some? && ctx.value.Obj? && k in ctx.value.fields && ctx.value.fields[k] == v
  }

  /** Of the special characters only ampersands. */
  predicate Inert(s: string) {
    forall i :: 0 <= i < |s| ==> s[i] == '&' || !Special(s[i])
  }

  /** How a value comes out: a string inert and readable, digits and words as they are, everything else as nothing. */
  predicate Shows(v: Option<Data>, out: string) {
    match v
    case Some(Str(s)) => Inert(out) && Unescape(out) == s
    case Some(Num(d)) => out == d
    case Some(Bool(b)) => out == if b then "true" else "false"
    case _ => out == ""
  }

  lemma ValueShows(v: Option<Data>)
    ensures Shows(v, ValueText(v))
  {
    if v.Some? && v.value.Str? {
      EscapeRoundTrip(v.value.chars);
      EscapedIsInert(v.value.chars);
    }
  }

  function Variable(l: Blanks, k: KeyName, r: Blanks): Tree { Var(l, k, r, End) }

  lemma RenderedVariable(l: Blanks, k: KeyName, r: Blanks, ctx: Option<Data>)
    ensures Render(Print(Variable(l, k, r)), ctx) == Some(ValueText(Lookup(ctx, k)))
  {
    RenderIsInterp(Variable(l, k, r), ctx);
    assert Interp(End, ctx) == "";
    assert ValueText(Lookup(ctx, k)) + "" == ValueText(Lookup(ctx, k));
  }

  /** A string comes out inert, and a reader of the page gets it back. */
  lemma StringIsShown(l: Blanks, k: KeyName, r: Blanks, ctx: Option<Data>, s: string)
    requires Binds(ctx, k, Str(s))
    ensures var out := Render(Print(Variable(l, k, r)), ctx); out.Some? && Inert(out.value) && Unescape(out.value) == s
  {
    RenderedVariable(l, k, r, ctx);
    ValueShows(Lookup(ctx, k));
  }

  /** Numbers come out as their digits, truth values as words, and everything else as nothing. */
  lemma OtherIsShown(l: Blanks, k: KeyName, r: Blanks, ctx: Option<Data>)
    requires !exists s: string :: Binds(ctx, k, Str(s))
    ensures forall d: string :: Binds(ctx, k, Num(d)) ==> Render(Print(Variable(l, k, r)), ctx) == Some(d)
    ensures Binds(ctx, k, Bool(true)) ==> Render(Print(Variable(l, k, r)), ctx) == Some("true")
    ensures Binds(ctx, k, Bool(false)) ==> Render(Print(Variable(l, k, r)), ctx) == Some("false")
    ensures (forall d: string :: !Binds(ctx, k, Num(d))) && (forall b: bool :: !Binds(ctx, k, Bool(b)))
        ==> Render(Print(Variable(l, k, r)), ctx) == Some("")
  {
    RenderedVariable(l, k, r, ctx);
    var v := Lookup(ctx, k);
    if v.Some? {
      match v.value {
        case Str(s) => assert Binds(ctx, k, Str(s));
        case Num(d) => assert Binds(ctx, k, Num(d));
        case Bool(b) => assert Binds(ctx, k, Bool(b));
        case _ =>
      }
    }
  }

  // ---------------------------------------------------------------- order

  /** One template after another. */
  function Join(a: Tree, b: Tree): Tree {
    match a
    case End => b
    case Text(s, next) => Text(s, Join(next, b))
    case Var(l, k, r, next) => Var(l, k, r, Join(next, b))
    case Section(k, body, next) => Section(k, body, Join(next, b))
  }

  lemma {:induction false} PrintJoin(a: Tree, b: Tree)
    ensures Print(Join(a, b)) == Print(a) + Print(b)
  {
    match a
    case End => assert "" + Print(b) == Print(b);
    case Text(s, next) =>
      PrintJoin(next, b);
      Associate(s, Print(next), Print(b));
    case Var(l, k, r, next) =>
      PrintJoin(next, b);
      Associate(Tag(l + k + r), Print(next), Print(b));
    case Section(k, body, next) =>
      PrintJoin(next, b);
      Associate(OpenTag(k) + Print(body) + CloseTag(k), Print(next), Print(b));
  }

  lemma {:induction false} InterpJoin(a: Tree, b: Tree, ctx: Option<Data>)
    ensures Interp(Join(a, b), ctx) == Interp(a, ctx) + Interp(b, ctx)
  {
    match a
    case End => assert "" + Interp(b, ctx) == Interp(b, ctx);
    case Text(s, next) =>
      InterpJoin(next, b, ctx);
      Associate(s, Interp(next, ctx), Interp(b, ctx));
    case Var(_, k, _, next) =>
      InterpJoin(next, b, ctx);
      Associate(ValueText(Lookup(ctx, k)), Interp(next, ctx), Interp(b, ctx));
    case Section(k, body, next) =>
      InterpJoin(next, b, ctx);
      Associate(InterpItems(body, ItemsOf(Lookup(ctx, k))), Interp(next, ctx), Interp(b, ctx));
  }

  /** The page of two templates after one another is their pages after one another; text stays as it is. */
  lemma PagesInOrder(a: Tree, b: Tree, s: PlainText, ctx: Option<Data>)
    ensures var x, y := Render(Print(a), ctx), Render(Print(b), ctx);
            x.Some? && y.Some? && Render(Print(a) + Print(b), ctx) == Some(x.value + y.value)
    ensures Render(s, ctx) == Some(s)
  {
    PrintJoin(a, b);
    InterpJoin(a, b, ctx);
    RenderIsInterp(a, ctx);
    RenderIsInterp(b, ctx);
    RenderIsInterp(Join(a, b), ctx);
    RenderIsInterp(Text(s, End), ctx);
    assert s + "" == s;
  }

  function Joined(outs: seq<string>): string {
    if outs == [] then "" else outs[0] + Joined(outs[1..])
  }

  /** `outs` are the pages of `body` for the objects among `items`, in order; items of other kinds give nothing. */
  predicate PagesOf(body: Tree, items: seq<Data>, outs: seq<string>) {
    && |outs| == |items|
    && forall i :: 0 <= i < |items| ==> if items[i].Obj? then Render(Print(body), Some(items[i])) == Some(outs[i]) else outs[i] == ""
  }

  lemma {:induction false} ItemPages(body: Tree, items: seq<Data>) returns (outs: seq<string>)
    ensures PagesOf(body, items, outs) && InterpItems(body, items) == Joined(outs)
    decreases |items|
  {
    if items == [] {
      outs := [];
    } else {
      var rest := ItemPages(body, items[1..]);
      if items[0].Obj? { RenderIsInterp(body, Some(items[0])); }
      outs := [if items[0].Obj? then Interp(body, Some(items[0])) else ""] + rest;
      assert outs[1..] == rest;
      forall i | 0 < i < |items| ensures outs[i] == rest[i - 1] && items[i] == items[1..][i - 1] { }
    }
  }

  /** A section gives the pages of its body for the objects of the array, in order, and nothing if there is no array. */
  lemma SectionPages(k: KeyName, body: Tree, ctx: Option<Data>, items: seq<Data>) returns (outs: seq<string>)
    requires Binds(ctx, k, Arr(items)) || (items == [] && !exists other: seq<Data> :: Binds(ctx, k, Arr(other)))
    ensures PagesOf(body, items, outs) && Render(Print(Section(k, body, End)), ctx) == Some(Joined(outs))
  {
    var v := Lookup(ctx, k);
    if v.Some? && v.value.Arr? { assert Binds(ctx, k, Arr(v.value.items)); }
    outs := ItemPages(body, items);
    RenderIsInterp(Section(k, body, End), ctx);
    assert Joined(outs) + "" == Joined(outs);
  }

  // ---------------------------------------------------------------- where the characters of a page come from

  /** `v` is `d` or somewhere inside it. */
  ghost predicate Inside(v: Data, d: Data)
    decreases d
  {
    || v == d
    || (d.Obj? && exists k :: k in d.fields && Inside(v, d.fields[k]))
    || (d.Arr? && exists i :: 0 <= i < |d.items| && Inside(v, d.items[i]))
  }

  /** What may be copied into a page as it is: stretches of a text, or the texts of a tree. */
  type Source = string -> bool

  ghost function Stretches(text: string): Source {
    s => exists a: nat, b: nat :: a <= b <= |text| && s == text[a..b]
  }

  ghost function TextsOf(t: Tree): Source {
    s => TextOf(s, t)
  }

  /** `s` is one of the texts of the tree, at any depth. */
  predicate TextOf(s: string, t: Tree) {
    match t
    case End => false
    case Text(s', next) => s == s' || TextOf(s, next)
    case Var(_, _, _, next) => TextOf(s, next)
    case Section(_, body, next) => TextOf(s, body) || TextOf(s, next)
  }

  datatype Origin = Copied | Number | Word | Value(s: string)
  datatype Piece = Piece(origin: Origin, out: string)

  /**
   A piece of the template, the digits of a number of the context, a truth value, or a string of the context, which
   is inert and can be read back.
   */
  ghost predicate Comes(source: Source, root: Data, p: Piece) {
    match p.origin
    case Copied => source(p.out)
    case Number => Inside(Num(p.out), root)
    case Word => p.out == "true" || p.out == "false" || p.out == ""
    case Value(s) => Inside(Str(s), root) && Inert(p.out) && Unescape(p.out) == s
  }

  ghost predicate AllCome(source: Source, root: Data, ps: seq<Piece>) {
    forall i :: 0 <= i < |ps| ==> Comes(source, root, ps[i])
  }

  function Page(ps: seq<Piece>): string {
    if ps == [] then "" else ps[0].out + Page(ps[1..])
  }

  lemma {:induction false} InsideTransitive(v: Data, c: Data, d: Data)
    requires Inside(v, c) && Inside(c, d)
    ensures Inside(v, d)
    decreases d
  {
    if c != d {
      if d.Obj? && exists k :: k in d.fields && Inside(c, d.fields[k]) {
        var k :| k in d.fields && Inside(c, d.fields[k]);
        InsideTransitive(v, c, d.fields[k]);
      } else {
        var i :| 0 <= i < |d.items| && Inside(c, d.items[i]);
        InsideTransitive(v, c, d.items[i]);
      }
    }
  }

  ghost predicate Known(ctx: Option<Data>, root: Data) {
    ctx.Some? ==> Inside(ctx.value, root)
  }

  ghost predicate AllInside(items: seq<Data>, root: Data) {
    forall i :: 0 <= i < |items| ==> Inside(items[i], root)
  }

  lemma LookupInside(ctx: Option<Data>, k: string, root: Data)
    requires Known(ctx, root) && Lookup(ctx, k).Some?
    ensures Inside(Lookup(ctx, k).value, root)
  {
    var v := Lookup(ctx, k).value;
    assert Inside(v, ctx.value.fields[k]);
    InsideTransitive(v, ctx.value, root);
  }

  lemma ItemsInside(ctx: Option<Data>, k: string, root: Data)
    requires Known(ctx, root)
    ensures AllInside(ItemsOf(Lookup(ctx, k)), root)
  {
    var items := ItemsOf(Lookup(ctx, k));
    forall i | 0 <= i < |items| ensures Inside(items[i], root) {
      LookupInside(ctx, k, root);
      var list := Lookup(ctx, k).value;
      assert Inside(items[i], list.items[i]);
      InsideTransitive(items[i], list, root);
    }
  }

  /** What a variable brings into the page. */
  lemma ValuePiece(source: Source, ctx: Option<Data>, k: string, root: Data) returns (p: Piece)
    requires Known(ctx, root)
    ensures Comes(source, root, p) && p.out == ValueText(Lookup(ctx, k))
  {
    p := Piece(Word, "");
    var v := Lookup(ctx, k);
    if v.Some? {
      LookupInside(ctx, k, root);
      match v.value {
        case Str(s) =>
          EscapeRoundTrip(s);
          EscapedIsInert(s);
          p := Piece(Value(s), Escape(s));
        case Num(d) => p := Piece(Number, d);
        case Bool(b) => p := Piece(Word, if b then "true" else "false");
        case _ =>
      }
    }
  }

  lemma MorePieces(source: Source, root: Data, p: Piece, ps: seq<Piece>)
    requires Comes(source, root, p) && AllCome(source, root, ps)
    ensures AllCome(source, root, [p] + ps) && Page([p] + ps) == p.out + Page(ps)
  {
    assert ([p] + ps)[1..] == ps;
  }

  lemma {:induction false} PageConcat(ps: seq<Piece>, qs: seq<Piece>)
    ensures Page(ps + qs) == Page(ps) + Page(qs)
    decreases |ps|
  {
    if ps == [] {
      assert ps + qs == qs;
    } else {
      ConcatHead(ps, qs);
      PageConcat(ps[1..], qs);
      Associate(ps[0].out, Page(ps[1..]), Page(qs));
    }
  }

  lemma PiecesInOrder(source: Source, root: Data, ps: seq<Piece>, qs: seq<Piece>)
    requires AllCome(source, root, ps) && AllCome(source, root, qs)
    ensures AllCome(source, root, ps + qs) && Page(ps + qs) == Page(ps) + Page(qs)
  {
    PageConcat(ps, qs);
  }

  lemma CopiedFirst(source: Source, root: Data, s: string, ps: seq<Piece>) returns (r: seq<Piece>)
    requires source(s) && AllCome(source, root, ps)
    ensures AllCome(source, root, r) && Page(r) == s + Page(ps)
  {
    MorePieces(source, root, Piece(Copied, s), ps);
    r := [Piece(Copied, s)] + ps;
  }

  // ---------------------------------------------------------------- pages of any text

  /** The pieces make the page, if there is one. */
  ghost predicate Made(text: string, root: Data, ps: seq<Piece>, page: Option<string>) {
    page.Some? ==> AllCome(Stretches(text), root, ps) && Page(ps) == page.value
  }

  lemma Nothing(text: string, root: Data)
    ensures Made(text, root, [], Some(""))
  {
  }

  lemma AfterText(text: string, root: Data, p: nat, s: nat, page: Option<string>, ps: seq<Piece>) returns (r: seq<Piece>)
    requires p <= s <= |text| && Made(text, root, ps, page)
    ensures Made(text, root, r, Prefix(text[p..s], page))
  {
    r := [];
    if page.Some? { r := CopiedFirst(Stretches(text), root, text[p..s], ps); }
  }

  lemma LastText(text: string, root: Data, p: nat, end: nat) returns (r: seq<Piece>)
    requires p <= end <= |text|
    ensures Made(text, root, r, Some(text[p..end]))
  {
    Nothing(text, root);
    r := AfterText(text, root, p, end, Some(""), []);
    assert text[p..end] + "" == text[p..end];
  }

  lemma OpenBraces(text: string, root: Data, p: nat, s: nat, page: Option<string>, ps: seq<Piece>) returns (r: seq<Piece>)
    requires p <= s && At(text, s, "{{") && Made(text, root, ps, page)
    ensures Made(text, root, r, Prefix(text[p..s] + "{{", page))
  {
    r := AfterText(text, root, p, s + 2, page, ps);
    AtSlice(text, s, "{{");
    CutSlice(text, p, s, s + 2);
  }

  lemma AfterValue(text: string, root: Data, p: nat, s: nat, v: Piece, page: Option<string>, ps: seq<Piece>) returns (r: seq<Piece>)
    requires p <= s <= |text| && Comes(Stretches(text), root, v) && Made(text, root, ps, page)
    ensures Made(text, root, r, Prefix(text[p..s] + v.out, page))
  {
    r := [];
    if page.Some? {
      MorePieces(Stretches(text), root, v, ps);
      r := AfterText(text, root, p, s, Some(v.out + page.value), [v] + ps);
      Associate(text[p..s], v.out, page.value);
    }
  }

  lemma AfterItems(text: string, root: Data, p: nat, s: nat, inner: Option<string>, qs: seq<Piece>, page: Option<string>, ps: seq<Piece>)
    returns (r: seq<Piece>)
    requires p <= s <= |text| && Made(text, root, qs, inner) && Made(text, root, ps, page)
    ensures inner.Some? ==> Made(text, root, r, Prefix(text[p..s] + inner.value, page))
  {
    r := [];
    if inner.Some? && page.Some? {
      PiecesInOrder(Stretches(text), root, qs, ps);
      r := AfterText(text, root, p, s, Some(inner.value + page.value), qs + ps);
      Associate(text[p..s], inner.value, page.value);
    }
  }

  lemma {:induction false} RangePieces(text: string, p: nat, end: nat, ctx: Option<Data>, root: Data) returns (ps: seq<Piece>)
    requires end <= |text| && Known(ctx, root)
    ensures Made(text, root, ps, RenderRange(text, p, end, ctx))
    decreases end - p, 3, 0
  {
    if p >= end {
      Nothing(text, root);
      ps := [];
    } else {
      var s := Find(text, p, "{{");
      FindIsFirst(text, p, "{{");
      assert RenderRange(text, p, end, ctx) == FromText(text, p, s, end, ctx);
      if s.None? || s.value >= end {
        ps := LastText(text, root, p, end);
      } else {
        ps := TagPieces(text, p, s.value, end, ctx, root);
      }
    }
  }

  lemma {:induction false} TagPieces(text: string, p: nat, s: nat, end: nat, ctx: Option<Data>, root: Data) returns (ps: seq<Piece>)
    requires p <= s < end <= |text| && At(text, s, "{{") && Known(ctx, root)
    ensures Made(text, root, ps, FromTag(text, text[p..s], s, end, ctx))
    decreases end - s, 1, 0
  {
    match TagAt(text, s, end) {
      case Unclosed =>
        var rest := RangePieces(text, s + 2, end, ctx, root);
        ps := OpenBraces(text, root, p, s, RenderRange(text, s + 2, end, ctx), rest);
      case Close(next) =>
        var rest := RangePieces(text, next, end, ctx, root);
        ps := AfterText(text, root, p, s, RenderRange(text, next, end, ctx), rest);
      case Key(key, false, next) =>
        var rest := RangePieces(text, next, end, ctx, root);
        var v := ValuePiece(Stretches(text), ctx, key, root);
        ps := AfterValue(text, root, p, s, v, RenderRange(text, next, end, ctx), rest);
      case Key(key, true, next) =>
        ps := SectionPieces(text, p, s, next, end, key, ctx, root);
      case _ => ps := [];
    }
  }

  lemma {:induction false} SectionPieces(text: string, p: nat, s: nat, b: nat, end: nat, key: string, ctx: Option<Data>, root: Data)
    returns (ps: seq<Piece>)
    requires p <= s < b && end <= |text| && s < |text| && Known(ctx, root)
    ensures Made(text, root, ps, FromSection(text, text[p..s], b, end, key, ctx))
    decreases end - b, 1, 0
  {
    ps := [];
    var e := SectionEnd(text, b, end, OpenTag(key), CloseTag(key), 0);
    if e.Some? {
      var items := ItemsOf(Lookup(ctx, key));
      ItemsInside(ctx, key, root);
      var inner := ItemPieces(text, b, e.value, items, root);
      var next := e.value + |CloseTag(key)|;
      var rest := RangePieces(text, next, end, ctx, root);
      ps := AfterItems(text, root, p, s, RenderItems(text, b, e.value, items), inner, RenderRange(text, next, end, ctx), rest);
    }
  }

  lemma {:induction false} ItemPieces(text: string, p: nat, end: nat, items: seq<Data>, root: Data) returns (ps: seq<Piece>)
    requires p <= end <= |text| && AllInside(items, root)
    ensures Made(text, root, ps, RenderItems(text, p, end, items))
    decreases end - p, 4, |items|
  {
    if items == [] {
      Nothing(text, root);
      ps := [];
    } else {
      assert Inside(items[0], root);
      ps := ItemPieces(text, p, end, items[1..], root);
      if items[0].Obj? {
        var one := RangePieces(text, p, end, Some(items[0]), root);
        if RenderRange(text, p, end, Some(items[0])).Some? && RenderItems(text, p, end, items[1..]).Some? {
          PiecesInOrder(Stretches(text), root, one, ps);
          ps := one + ps;
        }
      }
    }
  }

  /**
   Whatever the template and the context, a page is made of stretches of the template, digits of numbers, truth values,
   and strings of the context without their markup.
   */
  lemma PageOrigins(text: string, ctx: Data) returns (ps: seq<Piece>)
    requires Render(text, Some(ctx)).Some?
    ensures AllCome(Stretches(text), ctx, ps) && Page(ps) == Render(text, Some(ctx)).value
  {
    ps := RangePieces(text, 0, |text|, Some(ctx), ctx);
  }

  // ---------------------------------------------------------------- pages of a tree

  ghost predicate Covers(source: Source, t: Tree) {
    forall s: string :: TextOf(s, t) ==> source(s)
  }

  lemma CoversParts(source: Source, t: Tree)
    requires Covers(source, t) && !t.End?
    ensures Covers(source, t.next) && (t.Text? ==> source(t.text)) && (t.Section? ==> Covers(source, t.body))
  {
    assert t.Text? ==> TextOf(t.text, t);
  }

  lemma {:induction false} TreePieces(source: Source, t: Tree, ctx: Option<Data>, root: Data) returns (ps: seq<Piece>)
    requires Covers(source, t) && Known(ctx, root)
    ensures AllCome(source, root, ps) && Page(ps) == Interp(t, ctx)
    decreases t, 0, 0
  {
    if t.End? {
      ps := [];
    } else {
      CoversParts(source, t);
      var rest := TreePieces(source, t.next, ctx, root);
      match t {
        case Text(s, _) => ps := CopiedFirst(source, root, s, rest);
        case Var(_, k, _, _) =>
          var v := ValuePiece(source, ctx, k, root);
          MorePieces(source, root, v, rest);
          ps := [v] + rest;
        case Section(k, body, _) =>
          ItemsInside(ctx, k, root);
          var inner := TreeItemPieces(source, body, ItemsOf(Lookup(ctx, k)), root);
          PiecesInOrder(source, root, inner, rest);
          ps := inner + rest;
      }
    }
  }

  lemma {:induction false} TreeItemPieces(source: Source, body: Tree, items: seq<Data>, root: Data) returns (ps: seq<Piece>)
    requires Covers(source, body) && AllInside(items, root)
    ensures AllCome(source, root, ps) && Page(ps) == InterpItems(body, items)
    decreases body, 1, |items|
  {
    ps := [];
    if items != [] {
      assert Inside(items[0], root);
      ps := TreeItemPieces(source, body, items[1..], root);
      if items[0].Obj? {
        var one := TreePieces(source, body, Some(items[0]), root);
        PiecesInOrder(source, root, one, ps);
        ps := one + ps;
      } else {
        assert "" + InterpItems(body, items[1..]) == InterpItems(body, items[1..]);
      }
    }
  }

  /** For the text of a tree, what is copied are the texts of the tree. */
  lemma TreePageOrigins(t: Tree, ctx: Data) returns (ps: seq<Piece>)
    ensures AllCome(TextsOf(t), ctx, ps) && Render(Print(t), Some(ctx)) == Some(Page(ps))
  {
    ps := TreePieces(TextsOf(t), t, Some(ctx), ctx);
    RenderIsInterp(t, Some(ctx));
  }
}
