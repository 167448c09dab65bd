/**
 The Mustache subset of src/board_template_engine.c.  The renderer never parses its template: it looks for tag
 strings in the text.  Here it is set against an interpreter of template trees.
 */
module Template {
  import opened Common

  // ---------------------------------------------------------------- data

  /** What a context holds: scalars, JSON nodes, and objects that are neither. */
  datatype Data =
    | Str(chars: string) | Num(digits: string) | Bool(b: bool) | Null
    | Obj(fields: map<string, Data>) | Arr(items: seq<Data>) | Other

  function Lookup(ctx: Option<Data>, key: string): Option<Data> {
    if ctx.Some? && ctx.value.Obj? && key in ctx.value.fields then Some(ctx.value.fields[key]) else None
  }

  // ---------------------------------------------------------------- escaping

  function EscapeChar(c: char): string {
    if c == '&' then "&amp;"
    else if c == '<' then "&lt;"
    else if c == '>' then "&gt;"
    else if c == '"' then "&quot;"
    else if c == '\'' then "&#39;"
    else if c == '\0' then "&#0;"
    else [c]
  }

  /** tb_append_escaped_len: NUL characters inside the value are escaped too. */
  function Escape(s: string): string {
    if s == "" then "" else EscapeChar(s[0]) + Escape(s[1..])
  }

  predicate Special(c: char) {
    c == '&' || c == '<' || c == '>' || c == '"' || c == '\'' || c == '\0'
  }

  /** What a reader of the page makes of the entities at the front of `s`: one character and what it took. */
  function Entity(s: string): (r: (char, nat))
    requires s != ""
    ensures 0 < r.1 <= |s|
  {
    if At(s, 0, "&amp;") then ('&', 5)
    else if At(s, 0, "&lt;") then ('<', 4)
    else if At(s, 0, "&gt;") then ('>', 4)
    else if At(s, 0, "&quot;") then ('"', 6)
    else if At(s, 0, "&#39;") then ('\'', 5)
    else if At(s, 0, "&#0;") then ('\0', 4)
    else (s[0], 1)
  }

  function Unescape(s: string): string {
    if s == "" then "" else var (c, n) := Entity(s); [c] + Unescape(s[n..])
  }

  lemma EntityOfEscaped(c: char, rest: string)
    ensures Entity(EscapeChar(c) + rest) == (c, |EscapeChar(c)|)
  {
    var s := EscapeChar(c) + rest;
    if c == '&' { assert At(s, 0, "&amp;"); }
    else if c == '<' { assert s[1] == 'l'; assert At(s, 0, "&lt;"); }
    else if c == '>' { assert s[1] == 'g'; assert At(s, 0, "&gt;"); }
    else if c == '"' { assert s[1] == 'q'; assert At(s, 0, "&quot;"); }
    else if c == '\'' { assert s[2] == '3'; assert At(s, 0, "&#39;"); }
    else if c == '\0' { assert s[2] == '0'; assert At(s, 0, "&#0;"); }
    else { assert s[0] != '&'; }
  }

  lemma UnescapeStep(e: string, rest: string, c: char)
    requires e != "" && Entity(e + rest) == (c, |e|)
    ensures Unescape(e + rest) == [c] + Unescape(rest)
  {
    assert (e + rest)[|e|..] == rest;
  }

  /** Escaping loses nothing. */
  lemma {:induction false} EscapeRoundTrip(s: string)
    ensures Unescape(Escape(s)) == s
  {
    if s != "" {
      var rest := Escape(s[1..]);
      EntityOfEscaped(s[0], rest);
      UnescapeStep(EscapeChar(s[0]), rest, s[0]);
      EscapeRoundTrip(s[1..]);
    }
  }

  /** No markup survives: of the special characters only the ampersands of entities are left. */
  lemma {:induction false} EscapedIsInert(s: string)
    ensures forall i :: 0 <= i < |Escape(s)| ==> Escape(s)[i] == '&' || !Special(Escape(s)[i])
  {
    if s != "" {
      EscapedIsInert(s[1..]);
      var e, rest := EscapeChar(s[0]), Escape(s[1..]);
      forall i | 0 <= i < |Escape(s)| ensures Escape(s)[i] == '&' || !Special(Escape(s)[i]) {
        if i < |e| { assert Escape(s)[i] == e[i]; } else { assert Escape(s)[i] == rest[i - |e|]; }
      }
    }
  }

  function ValueText(v: Option<Data>): string {
    match v
    case Some(Str(s)) => Escape(s)
    case Some(Num(d)) => d
    case Some(Bool(b)) => if b then "true" else "false"
    case _ => ""
  }

  function ItemsOf(v: Option<Data>): seq<Data> {
    if v.Some? && v.value.Arr? then v.value.items else []
  }

  // ---------------------------------------------------------------- searching

  /** Comparing character by character from place `i` of the pattern. */
  predicate Matches(text: string, p: nat, pat: string, i: nat)
    requires p + |pat| <= |text|
    decreases |pat| - i
  {
    i >= |pat| || (text[p + i] == pat[i] && Matches(text, p, pat, i + 1))
  }

  predicate At(text: string, p: nat, pat: string) {
    p + |pat| <= |text| && Matches(text, p, pat, 0)
  }

  lemma {:induction false} MatchesAt(text: string, p: nat, pat: string, i: nat, j: nat)
    requires p + |pat| <= |text| && Matches(text, p, pat, i) && i <= j < |pat|
    ensures text[p + j] == pat[j]
    decreases j - i
  {
    if i < j { MatchesAt(text, p, pat, i + 1, j); }
  }

  lemma {:induction false} MatchesFrom(text: string, p: nat, pat: string, i: nat)
    requires p + |pat| <= |text| && forall j :: i <= j < |pat| ==> text[p + j] == pat[j]
    ensures Matches(text, p, pat, i)
    decreases |pat| - i
  {
    if i < |pat| { MatchesFrom(text, p, pat, i + 1); }
  }

  lemma AtChar(text: string, p: nat, pat: string, i: nat)
    requires At(text, p, pat) && i < |pat|
    ensures text[p + i] == pat[i]
  {
    MatchesAt(text, p, pat, 0, i);
  }

  /** strstr from position `p` of the whole text. */
  function Find(text: string, p: nat, pat: string): (r: Option<nat>)
    ensures r.Some? ==> p <= r.value && r.value + |pat| <= |text|
    decreases |text| - p
  {
    if p + |pat| > |text| then None else if At(text, p, pat) then Some(p) else Find(text, p + 1, pat)
  }

  /** `pat` occurs at none of the `n` places from `p`. */
  ghost predicate Free(text: string, p: nat, n: nat, pat: string) {
    forall q: nat :: p <= q < p + n ==> !At(text, q, pat)
  }

  /** Find gives the first occurrence, and None only when there is none. */
  lemma {:induction false} FindIsFirst(text: string, p: nat, pat: string)
    ensures var r := Find(text, p, pat);
            if r.None? then forall n: nat :: Free(text, p, n, pat)
            else At(text, r.value, pat) && Free(text, p, r.value - p, pat)
    decreases |text| - p
  {
    if p + |pat| <= |text| && !At(text, p, pat) {
      FindIsFirst(text, p + 1, pat);
      var r := Find(text, p + 1, pat);
      forall n: nat | r.Some? ==> n <= r.value - p ensures Free(text, p, n, pat) {
        if n > 0 { assert Free(text, p + 1, n - 1, pat); }
      }
    }
  }

  lemma {:induction false} FindSkips(text: string, p: nat, n: nat, pat: string)
    requires Free(text, p, n, pat)
    ensures Find(text, p, pat) == Find(text, p + n, pat)
    decreases n
  {
    if n > 0 {
      assert !At(text, p, pat);
      FindSkips(text, p + 1, n - 1, pat);
    }
  }

  const TEMPLATE_KEY_MAX: nat := 127

  function Tag(inner: string): string { "{{" + inner + "}}" }

  function OpenTag(key: string): string { Tag("#" + key) }
  function CloseTag(key: string): string { Tag("/" + key) }

  /** The next tag of a key that the section-end search comes to. */
  datatype Next = NoMore | Opens(at: nat) | Closes(at: nat)

  function NextTag(text: string, p: nat, end: nat, open: string, close: string): (r: Next)
    ensures !r.NoMore? ==> p <= r.at < end
  {
    var o, c := Find(text, p, open), Find(text, p, close);
    if c.None? || c.value >= end then NoMore
    else if o.Some? && o.value < c.value then Opens(o.value)
    else Closes(c.value)
  }

  /**
   TemplateEngine_findSectionEnd: jump from tag to tag of one key, counting how many are open.  Keys have at most
   127 characters, so both tags fit the 133-byte buffers they are built in.
   */
  function SectionEnd(text: string, p: nat, end: nat, open: string, close: string, depth: nat): (r: Option<nat>)
    requires open != "" && close != ""
    ensures r.Some? ==> p <= r.value < end
    decreases end - p
  {
    if p >= end then None else
      match NextTag(text, p, end, open, close)
      case NoMore => None
      case Opens(at) => SectionEnd(text, at + |open|, end, open, close, depth + 1)
      case Closes(at) => if depth == 0 then Some(at) else SectionEnd(text, at + |close|, end, open, close, depth - 1)
  }

  // ---------------------------------------------------------------- the renderer

  predicate IsSpace(c: char) {
    c == ' ' || c == '\t' || c == '\n' || c == '\r' || c == 11 as char || c == 12 as char
  }

  function Trim(s: string): (r: string)
    ensures |r| <= |s| && (r != "" ==> !IsSpace(r[0]) && !IsSpace(r[|r| - 1]))
  {
    if s == "" then ""
    else if IsSpace(s[0]) then Trim(s[1..])
    else if IsSpace(s[|s| - 1]) then Trim(s[..|s| - 1])
    else s
  }

  function Prefix(s: string, rest: Option<string>): Option<string> {
    if rest.None? then None else Some(s + rest.value)
  }

  datatype Found =
    | Unclosed                          // opening braces, but no closing ones before the end
    | Close(next: nat)                  // a closing tag, or a section tag that starts like one
    | Bad                               // an empty key, or one of more than 127 characters
    | Key(key: string, section: bool, next: nat)

  /** What the tag at `s` is. */
  function TagAt(text: string, s: nat, end: nat): (f: Found)
    requires s + 2 <= |text| && end <= |text|
    ensures f.Close? || f.Key? ==> s + 4 <= f.next <= end + 1
    ensures f.Key? ==> 0 < |f.key| <= TEMPLATE_KEY_MAX
  {
    var q := s + 2;
    var e := Find(text, q, "}}");
    if e.None? || e.value >= end then Unclosed else
      FindIsFirst(text, q, "}}");
      assert text[e.value] == "}}"[0] == '}';
      var section := text[q] == '#';
      var k := if section then q + 1 else q;
      if text[k] == '/' then Close(e.value + 2) else
        var key := Trim(text[k..e.value]);
        if 0 < |key| <= TEMPLATE_KEY_MAX then Key(key, section, e.value + 2) else Bad
  }

  /** TemplateEngine_renderRange from position `p`: None when the template is rejected. */
  function RenderRange(text: string, p: nat, end: nat, ctx: Option<Data>): (r: Option<string>)
    requires end <= |text|
    decreases end - p, 3, 0
  {
    if p >= end then Some("") else FromText(text, p, Find(text, p, "{{"), end, ctx)
  }

  /** What is rendered from `p` on when the next opening braces are at `s`. */
  function FromText(text: string, p: nat, s: Option<nat>, end: nat, ctx: Option<Data>): (r: Option<string>)
    requires p < end <= |text| && (s.Some? ==> p <= s.value && s.value + 2 <= |text|)
    decreases end - p, 2, 0
  {
    if s.None? || s.value >= end then Some(text[p..end]) else FromTag(text, text[p..s.value], s.value, end, ctx)
  }

  /** What is rendered from the tag at `s` on, given the text before it. */
  function FromTag(text: string, lit: string, s: nat, end: nat, ctx: Option<Data>): (r: Option<string>)
    requires s < end <= |text| && s + 2 <= |text|
    decreases end - s, 1, 0
  {
    match TagAt(text, s, end)
    case Unclosed => Prefix(lit + "{{", RenderRange(text, s + 2, end, ctx))
    case Close(next) => Prefix(lit, RenderRange(text, next, end, ctx))
    case Key(key, false, next) => Prefix(lit + ValueText(Lookup(ctx, key)), RenderRange(text, next, end, ctx))
    case Key(key, true, next) => FromSection(text, lit, next, end, key, ctx)
    case _ => None
  }

  /** What is rendered from a section on whose body starts at `b`. */
  function FromSection(text: string, lit: string, b: nat, end: nat, key: string, ctx: Option<Data>): (r: Option<string>)
    requires end <= |text|
    decreases end - b, 1, 0
  {
    var e := SectionEnd(text, b, end, OpenTag(key), CloseTag(key), 0);
    if e.None? then None else
      var inner := RenderItems(text, b, e.value, ItemsOf(Lookup(ctx, key)));
      if inner.None? then None else Prefix(lit + inner.value, RenderRange(text, e.value + |CloseTag(key)|, end, ctx))
  }

  /** One pass over the section for every item that is an object. */
  function RenderItems(text: string, p: nat, end: nat, items: seq<Data>): (r: Option<string>)
    requires p <= end <= |text|
    decreases end - p, 4, |items|
  {
    if items == [] then Some("")
    else if !items[0].Obj? then RenderItems(text, p, end, items[1..])
    else
      var one := RenderRange(text, p, end, Some(items[0]));
      if one.None? then None else Prefix(one.value, RenderItems(text, p, end, items[1..]))
  }

  function Render(text: string, ctx: Option<Data>): Option<string> {
    RenderRange(text, 0, |text|, ctx)
  }

  // ---------------------------------------------------------------- template trees

  predicate Plain(s: string) {
    forall i :: 0 <= i < |s| ==> s[i] != '{' && s[i] != '}'
  }

  predicate Blank(s: string) {
    forall i :: 0 <= i < |s| ==> IsSpace(s[i])
  }

  /** At most 127 characters without braces, no blanks at either end, and no leading `#` or `/`. */
  predicate KeyOk(k: string) {
    && 0 < |k| <= TEMPLATE_KEY_MAX && Plain(k)
    && !IsSpace(k[0]) && !IsSpace(k[|k| - 1]) && k[0] != '#' && k[0] != '/'
  }

  type PlainText = s: string | Plain(s) witness ""
  type Blanks = s: string | Blank(s) witness ""
  type KeyName = k: string | KeyOk(k) witness "k"

  datatype Tree =
    | End
    | Text(text: PlainText, next: Tree)
    | Var(left: Blanks, key: KeyName, right: Blanks, next: Tree)
    | Section(key: KeyName, body: Tree, next: Tree)

  function Print(t: Tree): string {
    match t
    case End => ""
    case Text(s, next) => s + Print(next)
    case Var(l, k, r, next) => Tag(l + k + r) + Print(next)
    case Section(k, body, next) => OpenTag(k) + Print(body) + CloseTag(k) + Print(next)
  }

  /** What the tree means. */
  function Interp(t: Tree, ctx: Option<Data>): string
    decreases t, 0, 0
  {
    match t
    case End => ""
    case Text(s, next) => s + Interp(next, ctx)
    case Var(_, k, _, next) => ValueText(Lookup(ctx, k)) + Interp(next, ctx)
    case Section(k, body, next) => InterpItems(body, ItemsOf(Lookup(ctx, k))) + Interp(next, ctx)
  }

  function InterpItems(body: Tree, items: seq<Data>): string
    decreases body, 1, |items|
  {
    if items == [] then ""
    else (if items[0].Obj? then Interp(body, Some(items[0])) else "") + InterpItems(body, items[1..])
  }

  // ---------------------------------------------------------------- tag strings occur only as tags

  lemma AtHead(text: string, p: nat, a: string, b: string)
    requires At(text, p, a + b)
    ensures At(text, p, a) && At(text, p + |a|, b)
  {
    forall i | 0 <= i < |a| ensures text[p + i] == a[i] { AtChar(text, p, a + b, i); }
    forall i | 0 <= i < |b| ensures text[p + |a| + i] == b[i] { AtChar(text, p, a + b, |a| + i); }
    MatchesFrom(text, p, a, 0);
    MatchesFrom(text, p + |a|, b, 0);
  }

  lemma NoTagInText(text: string, p: nat, s: string, pat: string)
    requires At(text, p, s) && Plain(s) && pat != "" && pat[0] == '{'
    ensures Free(text, p, |s|, pat)
  {
    forall q: nat | p <= q < p + |s| ensures !At(text, q, pat) {
      AtChar(text, p, s, q - p);
      if At(text, q, pat) { AtChar(text, q, pat, 0); }
    }
  }

  lemma Braces(text: string, p: nat, c: string, d: string)
    requires At(text, p, Tag(c)) && |c| < |d| && Plain(d)
    ensures !At(text, p, Tag(d))
  {
    assert Tag(d)[2 + |c|] == d[|c|] && Tag(c)[2 + |c|] == '}';
    AtChar(text, p, Tag(c), 2 + |c|);
    if At(text, p, Tag(d)) { AtChar(text, p, Tag(d), 2 + |c|); }
  }

  /** Two tags that start at the same place are the same tag. */
  lemma SameTag(text: string, p: nat, c: string, d: string)
    requires At(text, p, Tag(c)) && At(text, p, Tag(d)) && Plain(c) && Plain(d)
    ensures c == d
  {
    if |c| < |d| {
      Braces(text, p, c, d);
    } else if |d| < |c| {
      Braces(text, p, d, c);
    } else {
      forall i | 0 <= i < |c| ensures c[i] == d[i] {
        assert Tag(c)[2 + i] == c[i] && Tag(d)[2 + i] == d[i];
        AtChar(text, p, Tag(c), 2 + i);
        AtChar(text, p, Tag(d), 2 + i);
      }
    }
  }

  /** Past its first brace, a tag holds no two opening braces in a row. */
  lemma InsideTag(text: string, p: nat, c: string, q: nat)
    requires At(text, p, Tag(c)) && Plain(c) && c != "" && p < q < p + |c| + 4
    ensures !At(text, q, "{{")
  {
    assert Tag(c)[2] == c[0];
    assert 2 <= q - p < 2 + |c| ==> Tag(c)[q - p] == c[q - p - 2];
    AtChar(text, p, Tag(c), q - p);
    if q == p + 1 { AtChar(text, p, Tag(c), 2); }
    if At(text, q, "{{") {
      AtChar(text, q, "{{", 0);
      AtChar(text, q, "{{", 1);
    }
  }

  /** A tag string does not start inside a different tag. */
  lemma NoTagInTag(text: string, p: nat, c: string, d: string)
    requires At(text, p, Tag(c)) && Plain(c) && Plain(d) && c != "" && c != d
    ensures Free(text, p, |Tag(c)|, Tag(d))
  {
    forall q: nat | p <= q < p + |Tag(c)| ensures !At(text, q, Tag(d)) {
      if At(text, q, Tag(d)) {
        assert Tag(d) == "{{" + (d + "}}");
        AtHead(text, q, "{{", d + "}}");
        if q > p { InsideTag(text, p, c, q); }
        assert q == p;
        SameTag(text, p, c, d);
      }
    }
  }

  // ---------------------------------------------------------------- the section-end search

  lemma KeyTags(k: KeyName)
    ensures Plain("#" + k) && Plain("/" + k) && |OpenTag(k)| == |CloseTag(k)| == |k| + 5
  {
  }

  /** The tags of a key occur nowhere in a tag that is neither of them. */
  lemma OtherTag(text: string, p: nat, c: string, key: KeyName)
    requires At(text, p, Tag(c)) && Plain(c) && c != "" && c != "#" + key && c != "/" + key
    ensures Free(text, p, |Tag(c)|, OpenTag(key)) && Free(text, p, |Tag(c)|, CloseTag(key))
  {
    KeyTags(key);
    NoTagInTag(text, p, c, "#" + key);
    NoTagInTag(text, p, c, "/" + key);
  }

  lemma FindHere(text: string, p: nat, pat: string)
    requires At(text, p, pat)
    ensures Find(text, p, pat) == Some(p)
  {
  }

  lemma {:induction false} FindBefore(text: string, p: nat, pat: string, z: nat)
    requires p <= z && At(text, z, pat)
    ensures Find(text, p, pat).Some? && Find(text, p, pat).value <= z && (!At(text, p, pat) ==> p < Find(text, p, pat).value)
    decreases z - p
  {
    if !At(text, p, pat) { FindBefore(text, p + 1, pat, z); }
  }

  /** A stretch without either tag does not disturb the search. */
  lemma SearchSkips(text: string, p: nat, end: nat, open: string, close: string, d: nat, n: nat)
    requires open != "" && close != "" && Free(text, p, n, open) && Free(text, p, n, close) && p + n < end
    ensures SectionEnd(text, p, end, open, close, d) == SectionEnd(text, p + n, end, open, close, d)
  {
    FindSkips(text, p, n, open);
    FindSkips(text, p, n, close);
    assert NextTag(text, p, end, open, close) == NextTag(text, p + n, end, open, close);
  }

  /** An opening tag is counted, provided a closing one follows in range. */
  lemma SearchOpens(text: string, p: nat, end: nat, open: string, close: string, d: nat, z: nat)
    requires open != "" && close != ""
    requires At(text, p, open) && !At(text, p, close) && p < z < end && At(text, z, close)
    ensures SectionEnd(text, p, end, open, close, d) == SectionEnd(text, p + |open|, end, open, close, d + 1)
  {
    FindHere(text, p, open);
    FindBefore(text, p, close, z);
    assert NextTag(text, p, end, open, close) == Opens(p);
  }

  /** A closing tag ends the search, or the innermost open section of that name. */
  lemma SearchCloses(text: string, p: nat, end: nat, open: string, close: string, d: nat)
    requires open != "" && close != "" && At(text, p, close) && p < end
    ensures SectionEnd(text, p, end, open, close, d)
         == if d == 0 then Some(p) else SectionEnd(text, p + |close|, end, open, close, d - 1)
  {
    FindHere(text, p, close);
    assert NextTag(text, p, end, open, close) == Closes(p);
  }

  lemma AtFour(text: string, p: nat, a: string, b: string, c: string, d: string)
    requires At(text, p, a + b + c + d)
    ensures At(text, p, a) && At(text, p + |a|, b) && At(text, p + |a| + |b|, c) && At(text, p + |a| + |b| + |c|, d)
  {
    AtHead(text, p, a + b + c, d);
    AtHead(text, p, a + b, c);
    AtHead(text, p, a, b);
  }

  /** A search for the end of a section, as a function of position and depth. */
  type SearchFn = (int, int) -> Option<nat>

  /** Its moves: over a stretch without either tag, over an opening tag, over a closing tag. */
  datatype Move = Skip(p: int, d: int, n: int) | Open(p: int, d: int, z: int) | Shut(p: int, d: int)

  /** An opening tag counts when a closing one follows in range; a closing tag ends the innermost open section. */
  ghost predicate MoveOk(f: SearchFn, text: string, end: int, open: string, close: string, m: Move) {
    match m
    case Skip(p, d, n) =>
      0 <= p && 0 <= n && 0 <= d && p + n < end && Free(text, p, n, open) && Free(text, p, n, close) ==>
        f(p, d) == f(p + n, d)
    case Open(p, d, z) =>
      0 <= p < z < end && 0 <= d && At(text, p, open) && !At(text, p, close) && At(text, z, close) ==>
        f(p, d) == f(p + |open|, d + 1)
    case Shut(p, d) =>
      0 <= p < end && 0 <= d && At(text, p, close) ==>
        f(p, d) == if d == 0 then Some(p) else f(p + |close|, d - 1)
  }

  ghost predicate Searches(f: SearchFn, text: string, end: int, open: string, close: string) {
    forall m: Move :: MoveOk(f, text, end, open, close, m)
  }

  lemma SearchText(f: SearchFn, text: string, p: nat, end: nat, key: string, d: nat, s: string)
    requires Searches(f, text, end, OpenTag(key), CloseTag(key))
    requires At(text, p, s) && Plain(s) && p + |s| < end
    ensures f(p, d) == f(p + |s|, d)
  {
    NoTagInText(text, p, s, OpenTag(key));
    NoTagInText(text, p, s, CloseTag(key));
    assert MoveOk(f, text, end, OpenTag(key), CloseTag(key), Skip(p, d, |s|));
  }

  lemma SearchVar(f: SearchFn, text: string, p: nat, end: nat, key: KeyName, d: nat, l: Blanks, k: KeyName, r: Blanks)
    requires Searches(f, text, end, OpenTag(key), CloseTag(key))
    requires At(text, p, Tag(l + k + r)) && p + |Tag(l + k + r)| < end
    ensures f(p, d) == f(p + |Tag(l + k + r)|, d)
  {
    VarInner(l, k, r);
    OtherTag(text, p, l + k + r, key);
    assert MoveOk(f, text, end, OpenTag(key), CloseTag(key), Skip(p, d, |Tag(l + k + r)|));
  }

  /** How long the printed tree is. */
  function Size(t: Tree): nat {
    match t
    case End => 0
    case Text(s, next) => |s| + Size(next)
    case Var(l, k, r, next) => |Tag(l + k + r)| + Size(next)
    case Section(k, body, next) => |OpenTag(k)| + Size(body) + |CloseTag(k)| + Size(next)
  }

  /** Where the body of a section printed at `p` starts. */
  function BodyAt(p: int, t: Tree): int
    requires t.Section?
  {
    p + |OpenTag(t.key)|
  }

  /** The printed tree is found in the text from `p` on. */
  predicate Printed(text: string, p: nat, t: Tree)
    decreases t
  {
    match t
    case End => true
    case Text(s, next) => At(text, p, s) && Printed(text, p + |s|, next)
    case Var(l, k, r, next) => At(text, p, Tag(l + k + r)) && Printed(text, p + |Tag(l + k + r)|, next)
    case Section(k, body, next) =>
      var b := p + |OpenTag(k)|;
      var z := b + Size(body);
      && At(text, p, OpenTag(k)) && Printed(text, b, body)
      && At(text, z, CloseTag(k)) && Printed(text, z + |CloseTag(k)|, next)
  }

  lemma SectionParts(text: string, p: nat, t: Tree)
    requires Printed(text, p, t) && t.Section?
    ensures var b, n := BodyAt(p, t), p + Size(t) - Size(t.next);
            && At(text, p, OpenTag(t.key)) && p + |OpenTag(t.key)| == b <= p + Size(t) && Printed(text, b, t.body)
            && b + Size(t.body) + |CloseTag(t.key)| == n && At(text, b + Size(t.body), CloseTag(t.key)) && Printed(text, n, t.next)
  {
  }

  lemma {:induction false} PrintIsPrinted(text: string, p: nat, t: Tree)
    requires At(text, p, Print(t))
    ensures Printed(text, p, t) && Size(t) == |Print(t)|
    decreases t, 1
  {
    match t
    case End =>
    case Text(s, next) =>
      AtHead(text, p, s, Print(next));
      PrintIsPrinted(text, p + |s|, next);
    case Var(l, k, r, next) =>
      AtHead(text, p, Tag(l + k + r), Print(next));
      PrintIsPrinted(text, p + |Tag(l + k + r)|, next);
    case Section(k, body, next) =>
      SectionIsPrinted(text, p, t);
  }

  lemma {:induction false} SectionIsPrinted(text: string, p: nat, t: Tree)
    requires At(text, p, Print(t)) && t.Section?
    ensures Printed(text, p, t) && Size(t) == |Print(t)|
    decreases t, 0
  {
    var o, c := OpenTag(t.key), CloseTag(t.key);
    AtFour(text, p, o, Print(t.body), c, Print(t.next));
    PrintIsPrinted(text, p + |o|, t.body);
    PrintIsPrinted(text, p + |o| + |Print(t.body)| + |c|, t.next);
  }

  /** Such a search passes over any printed tree, whatever sections of whatever names it holds. */
  lemma {:induction false} SearchSkipsTree(f: SearchFn, text: string, p: nat, end: nat, key: KeyName, d: nat, t: Tree)
    requires Searches(f, text, end, OpenTag(key), CloseTag(key))
    requires Printed(text, p, t) && p + Size(t) < end
    ensures f(p, d) == f(p + Size(t), d)
    decreases t, 1
  {
    match t
    case End =>
    case Text(s, next) =>
      SearchText(f, text, p, end, key, d, s);
      SearchSkipsTree(f, text, p + |s|, end, key, d, next);
    case Var(l, k, r, next) =>
      SearchSkipsVar(f, text, p, end, key, d, t);
    case Section(k, body, next) =>
      SearchSkipsSection(f, text, p, end, key, d, t);
  }

  lemma {:induction false} SearchSkipsVar(f: SearchFn, text: string, p: nat, end: nat, key: KeyName, d: nat, t: Tree)
    requires Searches(f, text, end, OpenTag(key), CloseTag(key))
    requires Printed(text, p, t) && p + Size(t) < end && t.Var?
    ensures f(p, d) == f(p + Size(t), d)
    decreases t, 0
  {
    SearchVar(f, text, p, end, key, d, t.left, t.key, t.right);
    SearchSkipsTree(f, text, p + |Tag(t.left + t.key + t.right)|, end, key, d, t.next);
  }

  lemma {:induction false} SearchSkipsSection(f: SearchFn, text: string, p: nat, end: nat, key: KeyName, d: nat, t: Tree)
    requires Searches(f, text, end, OpenTag(key), CloseTag(key))
    requires Printed(text, p, t) && p + Size(t) < end && t.Section?
    ensures f(p, d) == f(p + Size(t), d)
    decreases t, 0
  {
    SearchSkipsBody(f, text, p, end, key, d, t);
    SectionParts(text, p, t);
    SearchSkipsTree(f, text, p + Size(t) - Size(t.next), end, key, d, t.next);
  }

  lemma {:induction false} SearchSkipsBody(f: SearchFn, text: string, p: nat, end: nat, key: KeyName, d: nat, t: Tree)
    requires Searches(f, text, end, OpenTag(key), CloseTag(key))
    requires Printed(text, p, t) && p + Size(t) < end && t.Section?
    ensures f(p, d) == f(p + Size(t) - Size(t.next), d)
    decreases t.body, 2
  {
    SearchEnters(f, text, p, end, key, d, t);
    SearchLeaves(f, text, p, end, key, d, t);
    SectionParts(text, p, t);
    SearchSkipsTree(f, text, BodyAt(p, t), end, key, if t.key == key then d + 1 else d, t.body);
  }

  lemma SearchEnters(f: SearchFn, text: string, p: nat, end: nat, key: KeyName, d: nat, t: Tree)
    requires Searches(f, text, end, OpenTag(key), CloseTag(key))
    requires Printed(text, p, t) && p + Size(t) < end && t.Section?
    ensures f(p, d) == f(BodyAt(p, t), if t.key == key then d + 1 else d)
  {
    if t.key == key {
      OpenIsNotClose(text, p, key);
      assert MoveOk(f, text, end, OpenTag(key), CloseTag(key), Open(p, d, BodyAt(p, t) + Size(t.body)));
    } else {
      OtherSection(text, p, t.key, key);
      assert MoveOk(f, text, end, OpenTag(key), CloseTag(key), Skip(p, d, |OpenTag(t.key)|));
    }
  }

  lemma SearchLeaves(f: SearchFn, text: string, p: nat, end: nat, key: KeyName, d: nat, t: Tree)
    requires Searches(f, text, end, OpenTag(key), CloseTag(key))
    requires Printed(text, p, t) && p + Size(t) < end && t.Section?
    ensures f(BodyAt(p, t) + Size(t.body), if t.key == key then d + 1 else d) == f(p + Size(t) - Size(t.next), d)
  {
    var z := BodyAt(p, t) + Size(t.body);
    if t.key == key {
      assert MoveOk(f, text, end, OpenTag(key), CloseTag(key), Shut(z, d + 1));
    } else {
      OtherSection(text, z, t.key, key);
      assert MoveOk(f, text, end, OpenTag(key), CloseTag(key), Skip(z, d, |CloseTag(t.key)|));
    }
  }

  /** The section-end search as such a function. */
  ghost function Search(text: string, end: nat, open: string, close: string): SearchFn
    requires open != "" && close != ""
  {
    (p: int, d: int) => if p < 0 || d < 0 then None else SectionEnd(text, p, end, open, close, d)
  }

  lemma SectionEndSearches(text: string, end: nat, open: string, close: string)
    requires open != "" && close != ""
    ensures Searches(Search(text, end, open, close), text, end, open, close)
  {
    var f := Search(text, end, open, close);
    forall m: Move ensures MoveOk(f, text, end, open, close, m) {
      match m
      case Skip(p, d, n) => SearchSkipMove(text, end, open, close, p, d, n);
      case Open(p, d, z) => SearchOpenMove(text, end, open, close, p, d, z);
      case Shut(p, d) =>
        if 0 <= p < end && 0 <= d && At(text, p, close) { SearchCloses(text, p, end, open, close, d); }
    }
  }

  lemma SearchSkipMove(text: string, end: nat, open: string, close: string, p: int, d: int, n: int)
    requires open != "" && close != ""
    ensures MoveOk(Search(text, end, open, close), text, end, open, close, Skip(p, d, n))
  {
    if 0 <= p && 0 <= n && 0 <= d && p + n < end && Free(text, p, n, open) && Free(text, p, n, close) {
      SearchSkips(text, p, end, open, close, d, n);
    }
  }

  lemma SearchOpenMove(text: string, end: nat, open: string, close: string, p: int, d: int, z: int)
    requires open != "" && close != ""
    ensures MoveOk(Search(text, end, open, close), text, end, open, close, Open(p, d, z))
  {
    if 0 <= p < z < end && 0 <= d && At(text, p, open) && !At(text, p, close) && At(text, z, close) {
      SearchOpens(text, p, end, open, close, d, z);
    }
  }

  lemma OpenIsNotClose(text: string, p: nat, k: KeyName)
    requires At(text, p, OpenTag(k))
    ensures !At(text, p, CloseTag(k))
  {
    assert OpenTag(k)[2] == '#' && CloseTag(k)[2] == '/';
    AtChar(text, p, OpenTag(k), 2);
    if At(text, p, CloseTag(k)) { AtChar(text, p, CloseTag(k), 2); }
  }

  /** Tags of a section with another name. */
  lemma OtherSection(text: string, p: nat, k: KeyName, key: KeyName)
    requires k != key
    ensures At(text, p, OpenTag(k)) ==>
              Free(text, p, |OpenTag(k)|, OpenTag(key)) && Free(text, p, |OpenTag(k)|, CloseTag(key))
    ensures At(text, p, CloseTag(k)) ==>
              Free(text, p, |CloseTag(k)|, OpenTag(key)) && Free(text, p, |CloseTag(k)|, CloseTag(key))
  {
    OtherKeys(k, key);
    KeyTags(k);
    if At(text, p, OpenTag(k)) { OtherTag(text, p, "#" + k, key); }
    if At(text, p, CloseTag(k)) { OtherTag(text, p, "/" + k, key); }
  }

  lemma OtherKeys(k: string, key: string)
    requires k != key
    ensures "#" + k != "#" + key && "/" + k != "/" + key && "#" + k != "/" + key && "/" + k != "#" + key
  {
    assert ("#" + k)[1..] == k && ("#" + key)[1..] == key && ("/" + k)[1..] == k && ("/" + key)[1..] == key;
    assert ("#" + k)[0] == '#' && ("/" + key)[0] == '/' && ("/" + k)[0] == '/' && ("#" + key)[0] == '#';
  }

  /** The inside of a variable tag is no section tag and trims to its key. */
  lemma VarInner(l: Blanks, k: KeyName, r: Blanks)
    ensures var c := l + k + r; Plain(c) && c != "" && c[0] != '#' && c[0] != '/'
    ensures forall key :: l + k + r != "#" + key && l + k + r != "/" + key
  {
    var c := l + k + r;
    assert forall i :: 0 <= i < |l| ==> c[i] == l[i] && IsSpace(l[i]);
    assert forall i :: 0 <= i < |k| ==> c[|l| + i] == k[i];
    assert forall i :: 0 <= i < |r| ==> c[|l| + |k| + i] == r[i] && IsSpace(r[i]);
    forall key ensures c != "#" + key && c != "/" + key {
      assert ("#" + key)[0] == '#' && ("/" + key)[0] == '/';
    }
  }

  /** The section-end search finds the matching close tag: the one printed right after the body. */
  lemma FindsMatchingClose(text: string, p: nat, end: nat, key: KeyName, body: Tree)
    requires Printed(text, p, body)
    requires p + Size(body) < end && At(text, p + Size(body), CloseTag(key))
    ensures SectionEnd(text, p, end, OpenTag(key), CloseTag(key), 0) == Some(p + Size(body))
  {
    var open, close := OpenTag(key), CloseTag(key);
    var f := Search(text, end, open, close);
    SectionEndSearches(text, end, open, close);
    SearchSkipsTree(f, text, p, end, key, 0, body);
    assert MoveOk(f, text, end, open, close, Shut(p + Size(body), 0));
  }

  // ---------------------------------------------------------------- rendering a printed tree

  lemma {:induction false} TrimRight(s: string, r: Blanks)
    requires s != "" && !IsSpace(s[0]) && !IsSpace(s[|s| - 1])
    ensures Trim(s + r) == s
    decreases |r|
  {
    if r == "" {
      assert s + r == s;
    } else {
      var r' := r[..|r| - 1];
      assert (s + r)[..|s + r| - 1] == s + r';
      assert (s + r)[0] == s[0] && (s + r)[|s + r| - 1] == r[|r| - 1];
      TrimRight(s, r');
    }
  }

  lemma {:induction false} TrimKey(l: Blanks, k: KeyName, r: Blanks)
    ensures Trim(l + k + r) == k
    decreases |l|
  {
    if l == "" {
      assert l + k + r == k + r;
      TrimRight(k, r);
    } else {
      assert (l + k + r)[1..] == l[1..] + k + r;
      assert (l + k + r)[0] == l[0];
      TrimKey(l[1..], k, r);
    }
  }

  lemma AtSlice(text: string, p: nat, pat: string)
    requires At(text, p, pat)
    ensures text[p..p + |pat|] == pat
  {
    forall i | 0 <= i < |pat| ensures text[p..p + |pat|][i] == pat[i] { AtChar(text, p, pat, i); }
  }

  /** The closing braces found for a tag are its own. */
  lemma ClosingBraces(text: string, p: nat, c: string)
    requires At(text, p, Tag(c)) && Plain(c)
    ensures At(text, p, "{{") && Find(text, p + 2, "}}") == Some(p + 2 + |c|)
    ensures text[p + 2..p + 2 + |c|] == c
  {
    assert Tag(c) == "{{" + (c + "}}");
    AtHead(text, p, "{{", c + "}}");
    AtHead(text, p + 2, c, "}}");
    AtSlice(text, p + 2, c);
    forall q: nat | p + 2 <= q < p + 2 + |c| ensures !At(text, q, "}}") {
      AtChar(text, p + 2, c, q - p - 2);
      if At(text, q, "}}") { AtChar(text, q, "}}", 0); }
    }
    FindSkips(text, p + 2, |c|, "}}");
    FindHere(text, p + 2 + |c|, "}}");
  }

  lemma TagIsVar(text: string, p: nat, end: nat, l: Blanks, k: KeyName, r: Blanks)
    requires At(text, p, Tag(l + k + r))
    requires p + |l + k + r| + 4 <= end <= |text|
    ensures At(text, p, "{{") && TagAt(text, p, end) == Key(k, false, p + |l + k + r| + 4)
  {
    var c := l + k + r;
    VarInner(l, k, r);
    ClosingBraces(text, p, c);
    assert text[p + 2] == text[p + 2..p + 2 + |c|][0] == c[0];
    TrimKey(l, k, r);
  }

  lemma TagIsSection(text: string, p: nat, end: nat, k: KeyName)
    requires At(text, p, OpenTag(k)) && p + |OpenTag(k)| <= end <= |text|
    ensures At(text, p, "{{") && TagAt(text, p, end) == Key(k, true, p + |OpenTag(k)|)
  {
    var c := "#" + k;
    KeyTags(k);
    ClosingBraces(text, p, c);
    SectionKey(text, p + 2, k);
    TrimKey("", k, "");
    assert "" + k + "" == k;
  }

  lemma SectionKey(text: string, q: nat, k: KeyName)
    requires q + |k| + 1 <= |text| && text[q..q + |"#" + k|] == "#" + k
    ensures text[q] == '#' && text[q + 1] != '/' && text[q + 1..q + 1 + |k|] == k
  {
    var c := "#" + k;
    assert c[0] == '#' && c[1] == k[0];
    assert text[q] == text[q..q + |c|][0] && text[q + 1] == text[q..q + |c|][1];
    assert text[q + 1..q + 1 + |k|] == text[q..q + |c|][1..] == c[1..] == k;
  }

  lemma Prefixed(a: string, b: string, rest: Option<string>)
    ensures Prefix(a + b, rest) == Prefix(a, Prefix(b, rest))
  {
    if rest.Some? { assert (a + b) + rest.value == a + (b + rest.value); }
  }

  lemma FromTagPrefix(text: string, a: string, b: string, s: nat, end: nat, ctx: Option<Data>)
    requires s < end <= |text| && s + 2 <= |text|
    ensures FromTag(text, a + b, s, end, ctx) == Prefix(a, FromTag(text, b, s, end, ctx))
  {
    var f := TagAt(text, s, end);
    if f.Unclosed? {
      assert a + b + "{{" == a + (b + "{{");
      Prefixed(a, b + "{{", RenderRange(text, s + 2, end, ctx));
    } else if f.Close? {
      Prefixed(a, b, RenderRange(text, f.next, end, ctx));
    } else if f.Key? && !f.section {
      var v := ValueText(Lookup(ctx, f.key));
      assert a + b + v == a + (b + v);
      Prefixed(a, b + v, RenderRange(text, f.next, end, ctx));
    } else if f.Key? {
      FromSectionPrefix(text, a, b, f.next, end, f.key, ctx);
    }
  }

  lemma FromSectionPrefix(text: string, x: string, y: string, b: nat, end: nat, key: string, ctx: Option<Data>)
    requires end <= |text|
    ensures FromSection(text, x + y, b, end, key, ctx) == Prefix(x, FromSection(text, y, b, end, key, ctx))
  {
    var e := SectionEnd(text, b, end, OpenTag(key), CloseTag(key), 0);
    if e.Some? {
      var inner := RenderItems(text, b, e.value, ItemsOf(Lookup(ctx, key)));
      if inner.Some? {
        assert x + y + inner.value == x + (y + inner.value);
        Prefixed(x, y + inner.value, RenderRange(text, e.value + |CloseTag(key)|, end, ctx));
      }
    }
  }

  lemma RenderFromTag(text: string, p: nat, end: nat, ctx: Option<Data>)
    requires p < end <= |text|
    ensures var s := Find(text, p, "{{");
            s.Some? && s.value < end ==>
              RenderRange(text, p, end, ctx) == FromTag(text, text[p..s.value], s.value, end, ctx)
  {
  }

  /** Text without braces is copied, whatever follows it. */
  lemma RenderText(text: string, p: nat, end: nat, ctx: Option<Data>, s: string)
    requires At(text, p, s) && Plain(s) && p + |s| <= end <= |text|
    ensures RenderRange(text, p, end, ctx) == Prefix(s, RenderRange(text, p + |s|, end, ctx))
  {
    NoTagInText(text, p, s, "{{");
    FindSkips(text, p, |s|, "{{");
    AtSlice(text, p, s);
    var f := Find(text, p, "{{");
    var q := p + |s|;
    if q == end {
      assert text[p..end] == s && s + "" == s;
    } else if f.Some? && f.value < end {
      RenderFromTag(text, p, end, ctx);
      RenderFromTag(text, q, end, ctx);
      assert text[p..f.value] == s + text[q..f.value];
      FromTagPrefix(text, s, text[q..f.value], f.value, end, ctx);
    } else {
      assert text[p..end] == s + text[q..end];
    }
  }

  lemma RenderVar(text: string, p: nat, end: nat, ctx: Option<Data>, l: Blanks, k: KeyName, r: Blanks)
    requires At(text, p, Tag(l + k + r))
    requires p + |Tag(l + k + r)| <= end <= |text|
    ensures RenderRange(text, p, end, ctx)
         == Prefix(ValueText(Lookup(ctx, k)), RenderRange(text, p + |Tag(l + k + r)|, end, ctx))
  {
    TagIsVar(text, p, end, l, k, r);
    FindHere(text, p, "{{");
    RenderFromTag(text, p, end, ctx);
    assert text[p..p] + ValueText(Lookup(ctx, k)) == ValueText(Lookup(ctx, k));
  }

  lemma RenderOpenTag(text: string, p: nat, end: nat, ctx: Option<Data>, k: KeyName, b: nat)
    requires At(text, p, OpenTag(k)) && p + |OpenTag(k)| == b <= end <= |text|
    ensures RenderRange(text, p, end, ctx) == FromSection(text, "", b, end, k, ctx)
  {
    TagIsSection(text, p, end, k);
    FindHere(text, p, "{{");
    RenderFromTag(text, p, end, ctx);
    assert text[p..p] == "";
  }

  lemma RenderSection(text: string, b: nat, end: nat, ctx: Option<Data>, k: string, z: nat, inner: string)
    requires b <= z < end <= |text| && SectionEnd(text, b, end, OpenTag(k), CloseTag(k), 0) == Some(z)
    requires RenderItems(text, b, z, ItemsOf(Lookup(ctx, k))) == Some(inner)
    ensures FromSection(text, "", b, end, k, ctx) == Prefix(inner, RenderRange(text, z + |CloseTag(k)|, end, ctx))
  {
    assert "" + inner == inner;
  }

  /** A renderer as a function of a range and a context, and its pass over the items of a section. */
  type RenderFn = (int, int, Option<Data>) -> Option<string>

  ghost function Items(f: RenderFn, p: int, end: int, items: seq<Data>): Option<string> {
    if items == [] then Some("")
    else if !items[0].Obj? then Items(f, p, end, items[1..])
    else
      var one := f(p, end, Some(items[0]));
      if one.None? then None else Prefix(one.value, Items(f, p, end, items[1..]))
  }

  /** What the first part of a printed tree renders to, given how the items of a section come out. */
  ghost function FirstPart(f: RenderFn, p: int, ctx: Option<Data>, t: Tree): Option<string>
    requires !t.End?
  {
    match t
    case Text(s, _) => Some(s)
    case Var(_, k, _, _) => Some(ValueText(Lookup(ctx, k)))
    case Section(k, body, _) => Items(f, BodyAt(p, t), BodyAt(p, t) + Size(body), ItemsOf(Lookup(ctx, k)))
  }

  ghost predicate RenderOk(f: RenderFn, text: string, p: int, end: int, ctx: Option<Data>, t: Tree) {
    0 <= p && end == p + Size(t) <= |text| && Printed(text, p, t) ==>
      if t.End? then f(p, end, ctx) == Some("")
      else var first := FirstPart(f, p, ctx, t);
        first.Some? ==> f(p, end, ctx) == Prefix(first.value, f(end - Size(t.next), end, ctx))
  }

  ghost predicate Renders(f: RenderFn, text: string) {
    forall p: int, end: int, ctx, t :: RenderOk(f, text, p, end, ctx, t)
  }

  /** Such a renderer gives what the interpreter gives, on any range that holds a printed tree. */
  lemma {:induction false} RenderMeansInterp(f: RenderFn, text: string, p: nat, end: nat, ctx: Option<Data>, t: Tree)
    requires Renders(f, text) && Printed(text, p, t) && end == p + Size(t) <= |text|
    ensures f(p, end, ctx) == Some(Interp(t, ctx))
    decreases t, 1, 0
  {
    assert RenderOk(f, text, p, end, ctx, t);
    match t
    case End =>
    case Text(s, next) =>
      RenderMeansInterp(f, text, p + |s|, end, ctx, next);
    case Var(l, k, r, next) =>
      RenderMeansInterp(f, text, end - Size(next), end, ctx, next);
    case Section(k, body, next) =>
      SectionMeansInterp(f, text, p, end, ctx, t);
  }

  lemma Rendered(f: RenderFn, text: string, p: nat, end: nat, ctx: Option<Data>, t: Tree, first: string)
    requires Renders(f, text) && Printed(text, p, t) && end == p + Size(t) <= |text| && !t.End? && FirstPart(f, p, ctx, t) == Some(first)
    ensures f(p, end, ctx) == Prefix(first, f(end - Size(t.next), end, ctx))
  {
    assert RenderOk(f, text, p, end, ctx, t);
  }

  lemma {:induction false} SectionMeansInterp(f: RenderFn, text: string, p: nat, end: nat, ctx: Option<Data>, t: Tree)
    requires Renders(f, text) && Printed(text, p, t) && end == p + Size(t) <= |text| && t.Section?
    ensures f(p, end, ctx) == Some(Interp(t, ctx))
    decreases t, 0, 0
  {
    var inner := FirstMeansInterp(f, text, p, end, ctx, t);
    RestMeansInterp(f, text, p, end, ctx, t);
    Rendered(f, text, p, end, ctx, t, inner);
  }

  lemma {:induction false} RestMeansInterp(f: RenderFn, text: string, p: nat, end: nat, ctx: Option<Data>, t: Tree)
    requires Renders(f, text) && Printed(text, p, t) && end == p + Size(t) <= |text| && t.Section?
    ensures f(end - Size(t.next), end, ctx) == Some(Interp(t.next, ctx))
    decreases t.next, 3, 0
  {
    SectionParts(text, p, t);
    RenderMeansInterp(f, text, end - Size(t.next), end, ctx, t.next);
  }

  lemma {:induction false} FirstMeansInterp(f: RenderFn, text: string, p: nat, end: nat, ctx: Option<Data>, t: Tree) returns (inner: string)
    requires Renders(f, text) && Printed(text, p, t) && end == p + Size(t) <= |text| && t.Section?
    ensures FirstPart(f, p, ctx, t) == Some(inner) && Interp(t, ctx) == inner + Interp(t.next, ctx)
    decreases t.body, 3, 0
  {
    var items, b := ItemsOf(Lookup(ctx, t.key)), BodyAt(p, t);
    inner := InterpItems(t.body, items);
    SectionParts(text, p, t);
    SectionFits(p, end, t);
    ItemsMeanInterp(f, text, b, b + Size(t.body), items, t.body);
  }

  lemma {:induction false} ItemsMeanInterp(f: RenderFn, text: string, p: nat, end: nat, items: seq<Data>, body: Tree)
    requires Renders(f, text) && Printed(text, p, body) && end == p + Size(body) <= |text|
    ensures Items(f, p, end, items) == Some(InterpItems(body, items))
    decreases body, 2, |items|
  {
    if items != [] {
      if items[0].Obj? {
        RenderMeansInterp(f, text, p, end, Some(items[0]), body);
      }
      ItemsMeanInterp(f, text, p, end, items[1..], body);
      assert "" + InterpItems(body, items[1..]) == InterpItems(body, items[1..]);
    }
  }

  // ---------------------------------------------------------------- the renderer obeys the laws

  ghost function Renderer(text: string): RenderFn {
    (p: int, end: int, ctx: Option<Data>) =>
      if p == end then Some("") else if 0 <= p && 0 <= end <= |text| then RenderRange(text, p, end, ctx) else None
  }

  lemma {:induction false} ItemsAreRendered(text: string, p: nat, end: nat, items: seq<Data>)
    requires p <= end <= |text|
    ensures Items(Renderer(text), p, end, items) == RenderItems(text, p, end, items)
  {
    if items != [] { ItemsAreRendered(text, p, end, items[1..]); }
  }

  /** The search for the end of a printed section finds its own closing tag. */
  lemma SectionEndFound(text: string, p: nat, end: nat, t: Tree)
    requires Printed(text, p, t) && end == p + Size(t) <= |text| && t.Section?
    ensures SectionEnd(text, BodyAt(p, t), end, OpenTag(t.key), CloseTag(t.key), 0) == Some(BodyAt(p, t) + Size(t.body))
  {
    FindsMatchingClose(text, BodyAt(p, t), end, t.key, t.body);
  }

  lemma SectionOpened(text: string, p: nat, end: nat, ctx: Option<Data>, t: Tree)
    requires Printed(text, p, t) && end == p + Size(t) <= |text| && t.Section?
    ensures RenderRange(text, p, end, ctx) == FromSection(text, "", BodyAt(p, t), end, t.key, ctx)
  {
    SectionParts(text, p, t);
    RenderOpenTag(text, p, end, ctx, t.key, BodyAt(p, t));
  }

  lemma SectionRendered(text: string, p: nat, end: nat, ctx: Option<Data>, t: Tree, inner: string)
    requires Printed(text, p, t) && end == p + Size(t) <= |text| && t.Section?
    requires RenderItems(text, BodyAt(p, t), BodyAt(p, t) + Size(t.body), ItemsOf(Lookup(ctx, t.key))) == Some(inner)
    ensures FromSection(text, "", BodyAt(p, t), end, t.key, ctx) == Prefix(inner, RenderRange(text, end - Size(t.next), end, ctx))
  {
    SectionEndFound(text, p, end, t);
    RenderSection(text, BodyAt(p, t), end, ctx, t.key, BodyAt(p, t) + Size(t.body), inner);
  }

  lemma WholeSection(text: string, p: nat, end: nat, ctx: Option<Data>, t: Tree, inner: string)
    requires Printed(text, p, t) && end == p + Size(t) <= |text| && t.Section?
    requires RenderItems(text, BodyAt(p, t), BodyAt(p, t) + Size(t.body), ItemsOf(Lookup(ctx, t.key))) == Some(inner)
    ensures RenderRange(text, p, end, ctx) == Prefix(inner, RenderRange(text, end - Size(t.next), end, ctx))
  {
    SectionRendered(text, p, end, ctx, t, inner);
    SectionOpened(text, p, end, ctx, t);
  }

  lemma OkFrom(f: RenderFn, text: string, p: nat, end: nat, ctx: Option<Data>, t: Tree)
    requires !t.End?
    requires FirstPart(f, p, ctx, t).Some? ==> f(p, end, ctx) == Prefix(FirstPart(f, p, ctx, t).value, f(end - Size(t.next), end, ctx))
    ensures RenderOk(f, text, p, end, ctx, t)
  {
  }

  lemma RendererIs(text: string, p: nat, end: nat, ctx: Option<Data>)
    requires p <= end <= |text|
    ensures Renderer(text)(p, end, ctx) == RenderRange(text, p, end, ctx)
  {
  }

  lemma RendererText(text: string, p: nat, end: nat, ctx: Option<Data>, t: Tree)
    requires Printed(text, p, t) && end == p + Size(t) <= |text| && t.Text?
    ensures RenderOk(Renderer(text), text, p, end, ctx, t)
  {
    RenderText(text, p, end, ctx, t.text);
    RendererIs(text, p, end, ctx);
    RendererIs(text, p + |t.text|, end, ctx);
    OkFrom(Renderer(text), text, p, end, ctx, t);
  }

  lemma RendererVar(text: string, p: nat, end: nat, ctx: Option<Data>, t: Tree)
    requires Printed(text, p, t) && end == p + Size(t) <= |text| && t.Var?
    ensures RenderOk(Renderer(text), text, p, end, ctx, t)
  {
    RenderVar(text, p, end, ctx, t.left, t.key, t.right);
    RendererIs(text, p, end, ctx);
    RendererIs(text, p + |Tag(t.left + t.key + t.right)|, end, ctx);
    OkFrom(Renderer(text), text, p, end, ctx, t);
  }

  lemma SectionFits(p: nat, end: nat, t: Tree)
    requires end == p + Size(t) && t.Section?
    ensures BodyAt(p, t) + Size(t.body) <= end
  {
  }

  lemma SectionFirst(text: string, p: nat, ctx: Option<Data>, t: Tree, b: nat, z: nat)
    requires t.Section? && b == BodyAt(p, t) && z == b + Size(t.body) <= |text|
    ensures FirstPart(Renderer(text), p, ctx, t) == RenderItems(text, b, z, ItemsOf(Lookup(ctx, t.key)))
  {
    ItemsAreRendered(text, b, z, ItemsOf(Lookup(ctx, t.key)));
  }

  lemma RendererWhole(text: string, p: nat, end: nat, ctx: Option<Data>, t: Tree, inner: string)
    requires Printed(text, p, t) && end == p + Size(t) <= |text| && t.Section?
    requires RenderItems(text, BodyAt(p, t), BodyAt(p, t) + Size(t.body), ItemsOf(Lookup(ctx, t.key))) == Some(inner)
    ensures Renderer(text)(p, end, ctx) == Prefix(inner, Renderer(text)(end - Size(t.next), end, ctx))
  {
    WholeSection(text, p, end, ctx, t, inner);
    RendererIs(text, p, end, ctx);
    RendererIs(text, end - Size(t.next), end, ctx);
  }

  lemma RendererSection(text: string, p: nat, end: nat, ctx: Option<Data>, t: Tree)
    requires Printed(text, p, t) && end == p + Size(t) <= |text| && t.Section?
    ensures RenderOk(Renderer(text), text, p, end, ctx, t)
  {
    SectionFits(p, end, t);
    SectionFirst(text, p, ctx, t, BodyAt(p, t), BodyAt(p, t) + Size(t.body));
    var first := FirstPart(Renderer(text), p, ctx, t);
    if first.Some? { RendererWhole(text, p, end, ctx, t, first.value); }
    OkFrom(Renderer(text), text, p, end, ctx, t);
  }

  lemma RendererOk(text: string, p: int, end: int, ctx: Option<Data>, t: Tree)
    ensures RenderOk(Renderer(text), text, p, end, ctx, t)
  {
    if 0 <= p && end == p + Size(t) <= |text| && Printed(text, p, t) {
      match t
      case End =>
      case Text(_, _) => RendererText(text, p, end, ctx, t);
      case Var(_, _, _, _) => RendererVar(text, p, end, ctx, t);
      case Section(_, _, _) => RendererSection(text, p, end, ctx, t);
    }
  }

  lemma RendererRenders(text: string)
    ensures Renders(Renderer(text), text)
  {
    forall p: int, end: int, ctx, t ensures RenderOk(Renderer(text), text, p, end, ctx, t) { RendererOk(text, p, end, ctx, t); }
  }

  /** Rendering preserves meaning, nested sections of the same name included. */
  lemma RenderIsInterp(t: Tree, ctx: Option<Data>)
    ensures Render(Print(t), ctx) == Some(Interp(t, ctx))
  {
    var text := Print(t);
    MatchesFrom(text, 0, text, 0);
    PrintIsPrinted(text, 0, t);
    RendererRenders(text);
    RenderMeansInterp(Renderer(text), text, 0, |text|, ctx, t);
  }
}
