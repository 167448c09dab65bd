/**
 The renderer of src/board_template_engine.c as it runs: a growing output buffer, cursors that advance through
 the text, recursion for sections.  Its output is what RenderRange of Template gives.
 */
module TemplateEngine {
  import opened Common
  import opened Template
  import opened TemplateMeaning

  /** Output buffer; `buf.Length` is its capacity, and a NUL always follows the contents. */
  class TplBuilder {
    var buf: array<char>
    var len: nat
    var failed: bool

    ghost predicate Valid()
      reads this, buf
    {
      len < buf.Length && buf[len] == '\0'
    }

    ghost function Contents(): string
      reads this, buf
      requires Valid()
    {
      buf[..len]
    }

    constructor ()
      ensures Valid() && fresh(buf) && !failed && Contents() == ""
    {
      len, failed := 0, false;
      buf := new char[4096](_ => '\0');
    }

    /** At least `needed` places, by doubling; the contents stay. */
    method Grow(needed: nat)
      requires Valid()
      modifies this`buf
      ensures fresh(buf) && Valid() && needed <= buf.Length && Contents() == old(Contents())
    {
      var cap := buf.Length * 2;
      while cap < needed
        invariant cap >= 2 * buf.Length
        decreases needed - cap
      {
        cap := cap * 2;
      }
      var old_ := buf;
      var tmp := new char[cap](_ => '\0');
      forall i | 0 <= i < len { tmp[i] := old_[i]; }
      buf := tmp;
      assert buf[..len] == old_[..len];
    }

    method Append(s: string)
      requires Valid()
      modifies this, buf
      ensures Valid() && (buf == old(buf) || fresh(buf)) && failed == old(failed)
      ensures Contents() == old(Contents()) + if failed then "" else s
    {
      ghost var was := Contents();
      if failed || |s| == 0 {
        return;
      }
      if len + |s| + 1 > buf.Length {
        Grow(len + |s| + 1);
      }
      assert buf[..len] == was;
      forall i | 0 <= i < |s| { buf[len + i] := s[i]; }
      len := len + |s|;
      buf[len] := '\0';
      assert buf[..len] == was + s;
    }

    /** One turn of the loop of tb_append_escaped_len, `done` being the characters it has passed. */
    method AppendEscapedChar(ghost done: string, c: char, ghost was: string)
      requires Valid() && Contents() == EscapedTo(was, failed, done)
      modifies this, buf
      ensures Valid() && (buf == old(buf) || fresh(buf)) && failed == old(failed)
      ensures Contents() == EscapedTo(was, failed, done + [c])
    {
      EscapedToSnoc(was, failed, done, c);
      Append(EscapeChar(c));
    }

    method AppendEscaped(s: string)
      requires Valid()
      modifies this, buf
      ensures Valid() && (buf == old(buf) || fresh(buf)) && failed == old(failed)
      ensures Contents() == old(Contents()) + if failed then "" else Escape(s)
    {
      ghost var was := Contents();
      for i := 0 to |s|
        invariant Valid() && (buf == old(buf) || fresh(buf)) && failed == old(failed)
        invariant Contents() == EscapedTo(was, failed, s[..i])
      {
        AppendEscapedChar(s[..i], s[i], was);
        assert s[..i + 1] == s[..i] + [s[i]];
      }
      assert s[..|s|] == s;
    }
  }

  lemma {:induction false} EscapeSnoc(s: string, c: char)
    ensures Escape(s + [c]) == Escape(s) + EscapeChar(c)
  {
    if s == "" {
      assert s + [c] == [c];
    } else {
      EscapeSnoc(s[1..], c);
      assert (s + [c])[1..] == s[1..] + [c];
    }
  }

  /** What the buffer holds when the characters `done` have been escaped into it. */
  ghost function EscapedTo(was: string, failed: bool, done: string): string {
    was + if failed then "" else Escape(done)
  }

  lemma EscapedToSnoc(was: string, failed: bool, done: string, c: char)
    ensures EscapedTo(was, failed, done + [c]) == EscapedTo(was, failed, done) + if failed then "" else EscapeChar(c)
  {
    EscapeSnoc(done, c);
    if failed {
      assert was + "" + "" == was + "";
    } else {
      Associates(was, Escape(done), EscapeChar(c));
    }
  }

  lemma Associates(a: string, b: string, c: string)
    ensures a + (b + c) == a + b + c
  {
  }

  /** TemplateEngine_renderValue. */
  method RenderValue(v: Option<Data>, tb: TplBuilder)
    requires tb.Valid()
    modifies tb, tb.buf
    ensures tb.Valid() && (tb.buf == old(tb.buf) || fresh(tb.buf)) && tb.failed == old(tb.failed)
    ensures tb.Contents() == old(tb.Contents()) + if tb.failed then "" else ValueText(v)
    ensures !tb.failed ==> old(tb.Contents()) <= tb.Contents() && Shows(v, tb.Contents()[|old(tb.Contents())|..])
  {
    ValueShows(v);
    ghost var was := tb.Contents();
    assert (was + ValueText(v))[|was|..] == ValueText(v);
    match v
    case Some(Str(s)) => tb.AppendEscaped(s);
    case Some(Num(d)) => tb.Append(d);
    case Some(Bool(b)) => tb.Append(if b then "true" else "false");
    case _ =>
  }

  method FindSectionEnd(text: string, start: nat, end: nat, key: string) returns (r: Option<nat>)
    ensures r == SectionEnd(text, start, end, OpenTag(key), CloseTag(key), 0)
  {
    r := FindEnd(text, start, end, OpenTag(key), CloseTag(key));
  }

  method FindEnd(text: string, start: nat, end: nat, open: string, close: string) returns (r: Option<nat>)
    requires open != "" && close != ""
    ensures r == SectionEnd(text, start, end, open, close, 0)
  {
    var p: nat, depth: nat := start, 0;
    ghost var goal := SectionEnd(text, start, end, open, close, 0);
    while p < end
      invariant SectionEnd(text, p, end, open, close, depth) == goal
      decreases end - p
    {
      var next := SeekTag(text, p, end, open, close);
      if next.NoMore? || (next.Closes? && depth == 0) {
        return if next.NoMore? then None else Some(next.at);
      }
      p, depth := PassTag(text, p, end, open, close, depth, next, goal);
    }
    return None;
  }

  /** Behind the tag, one level deeper or higher. */
  method PassTag(text: string, p: nat, end: nat, open: string, close: string, depth: nat, next: Next, ghost goal: Option<nat>)
    returns (p': nat, depth': nat)
    requires open != "" && close != "" && p < end && next == NextTag(text, p, end, open, close)
    requires next.Opens? || (next.Closes? && depth > 0)
    requires SectionEnd(text, p, end, open, close, depth) == goal
    ensures p < p' && SectionEnd(text, p', end, open, close, depth') == goal
  {
    if next.Opens? {
      return next.at + |open|, depth + 1;
    }
    return next.at + |close|, depth - 1;
  }

  /** The nearest of the two tags, provided that a close tag lies ahead. */
  method SeekTag(text: string, p: nat, end: nat, open: string, close: string) returns (t: Next)
    requires open != "" && close != ""
    ensures t == NextTag(text, p, end, open, close)
  {
    var nextOpen, nextClose := Find(text, p, open), Find(text, p, close);
    if nextClose.None? || nextClose.value >= end {
      return NoMore;
    }
    if nextOpen.Some? && nextOpen.value < nextClose.value && nextOpen.value < end {
      return Opens(nextOpen.value);
    }
    return Closes(nextClose.value);
  }

  lemma TrimFront(text: string, i: nat, j: nat)
    requires i < j <= |text| && IsSpace(text[i])
    ensures Trim(text[i..j]) == Trim(text[i + 1..j])
  {
    assert text[i..j][1..] == text[i + 1..j];
  }

  lemma TrimBack(text: string, i: nat, j: nat)
    requires i < j <= |text| && !IsSpace(text[i]) && IsSpace(text[j - 1])
    ensures Trim(text[i..j]) == Trim(text[i..j - 1])
  {
    assert text[i..j][..j - i - 1] == text[i..j - 1];
    assert text[i..j][0] == text[i] && text[i..j][j - i - 1] == text[j - 1];
  }

  /** The key between the ends `a` and `b`, blanks at both sides skipped. */
  method TrimKeyRange(text: string, a: nat, b: nat) returns (key: string)
    requires a <= b <= |text|
    ensures key == Trim(text[a..b])
  {
    var i, j := a, b;
    while i < j && IsSpace(text[i])
      invariant a <= i <= j == b && Trim(text[i..j]) == Trim(text[a..b])
    {
      TrimFront(text, i, j);
      i := i + 1;
    }
    while j > i && IsSpace(text[j - 1])
      invariant a <= i <= j <= b && (i < j ==> !IsSpace(text[i])) && Trim(text[i..j]) == Trim(text[a..b])
    {
      TrimBack(text, i, j);
      j := j - 1;
    }
    key := text[i..j];
  }

  /** What the loop of the renderer keeps: what is out and what is still to come make up the whole. */
  ghost predicate Pending(failed: bool, out: string, rest: Option<string>, before: string, whole: Option<string>) {
    if failed then whole == None else Prefix(out, rest) == Prefix(before, whole)
  }

  /** A call that appends `whole` to what was there, or fails. */
  ghost predicate Outcome(failed: bool, out: string, before: string, whole: Option<string>) {
    if failed then whole == None else whole.Some? && out == before + whole.value
  }

  lemma Appended(out: string, s: string, rest: Option<string>, before: string, whole: Option<string>)
    requires Pending(false, out, Prefix(s, rest), before, whole)
    ensures Pending(false, out + s, rest, before, whole)
    ensures rest == None ==> whole == None
  {
    Prefixed(out, s, rest);
  }

  method RenderItemsInto(text: string, p: nat, end: nat, items: seq<Data>, tb: TplBuilder)
    requires p <= end <= |text| && tb.Valid() && !tb.failed
    modifies tb, tb.buf
    ensures tb.Valid() && (tb.buf == old(tb.buf) || fresh(tb.buf))
    ensures Outcome(tb.failed, tb.Contents(), old(tb.Contents()), RenderItems(text, p, end, items))
    decreases end - p, 4
  {
    ghost var before, whole := tb.Contents(), RenderItems(text, p, end, items);
    for i := 0 to |items|
      invariant tb.Valid() && (tb.buf == old(tb.buf) || fresh(tb.buf)) && !tb.failed
      invariant Pending(false, tb.Contents(), RenderItems(text, p, end, items[i..]), before, whole)
    {
      assert items[i..][0] == items[i] && items[i..][1..] == items[i + 1..];
      if items[i].Obj? {
        ghost var mid, rest := tb.Contents(), RenderItems(text, p, end, items[i + 1..]);
        RenderRangeInto(text, p, end, Some(items[i]), tb);
        if tb.failed {
          return;
        }
        ghost var one := RenderRange(text, p, end, Some(items[i]));
        Appended(mid, one.value, rest, before, whole);
      }
    }
    assert tb.Contents() + "" == tb.Contents();
  }

  method RenderRangeInto(text: string, start: nat, end: nat, ctx: Option<Data>, tb: TplBuilder)
    requires end <= |text| && tb.Valid() && !tb.failed
    modifies tb, tb.buf
    ensures tb.Valid() && (tb.buf == old(tb.buf) || fresh(tb.buf))
    ensures Outcome(tb.failed, tb.Contents(), old(tb.Contents()), RenderRange(text, start, end, ctx))
    decreases if start < end then end - start else 0, 3
  {
    ghost var before, whole := tb.Contents(), RenderRange(text, start, end, ctx);
    var p := start;
    while p < end && !tb.failed
      invariant tb.Valid() && (tb.buf == old(tb.buf) || fresh(tb.buf))
      invariant start <= p && Pending(tb.failed, tb.Contents(), RenderRange(text, p, end, ctx), before, whole)
      decreases if p < end then end - p else 0, if tb.failed then 0 else 1
    {
      var tagStart := Find(text, p, "{{");
      if tagStart.None? || tagStart.value >= end {
        assert FromText(text, p, tagStart, end, ctx) == Some(text[p..end]);
        assert text[p..end] + "" == text[p..end];
        Appended(tb.Contents(), text[p..end], Some(""), before, whole);
        tb.Append(text[p..end]);
        p := end;
      } else {
        p := RenderTag(text, p, tagStart.value, end, ctx, tb, before, whole);
      }
    }
    assert tb.Contents() + "" == tb.Contents();
  }

  /** The tag at `s`: section mark, closing mark, key. */
  method ReadTag(text: string, s: nat, end: nat) returns (f: Found)
    requires s + 2 <= |text| && end <= |text|
    ensures f == TagAt(text, s, end)
  {
    var p := s + 2;
    var tagEnd := Find(text, p, "}}");
    if tagEnd.None? || tagEnd.value >= end {
      return Unclosed;
    }
    FindIsFirst(text, p, "}}");
    var section := text[p] == '#';
    if section {
      p := p + 1;
    }
    if text[p] == '/' {
      return Close(tagEnd.value + 2);
    }
    var key := TrimKeyRange(text, p, tagEnd.value);
    if |key| == 0 || |key| > TEMPLATE_KEY_MAX {
      return Bad;
    }
    return Key(key, section, tagEnd.value + 2);
  }

  /** One turn of the loop that has found opening braces at `s`; the new cursor is returned. */
  method RenderTag(text: string, p: nat, s: nat, end: nat, ctx: Option<Data>, tb: TplBuilder,
    ghost before: string, ghost whole: Option<string>) returns (next: nat)
    requires p <= s < end <= |text| && Find(text, p, "{{") == Some(s) && tb.Valid() && !tb.failed
    requires Pending(false, tb.Contents(), RenderRange(text, p, end, ctx), before, whole)
    modifies tb, tb.buf
    ensures tb.Valid() && (tb.buf == old(tb.buf) || fresh(tb.buf)) && next > p
    ensures Pending(tb.failed, tb.Contents(), RenderRange(text, next, end, ctx), before, whole)
    decreases end - p, 2
  {
    RenderFromTag(text, p, end, ctx);
    FromTagPrefix(text, text[p..s], "", s, end, ctx);
    assert text[p..s] + "" == text[p..s];
    Appended(tb.Contents(), text[p..s], FromTag(text, "", s, end, ctx), before, whole);
    tb.Append(text[p..s]);
    next := RenderTagBody(text, s, end, ctx, tb, before, whole);
  }

  method RenderTagBody(text: string, s: nat, end: nat, ctx: Option<Data>, tb: TplBuilder,
    ghost before: string, ghost whole: Option<string>) returns (next: nat)
    requires s < end <= |text| && s + 2 <= |text| && tb.Valid() && !tb.failed
    requires Pending(false, tb.Contents(), FromTag(text, "", s, end, ctx), before, whole)
    modifies tb, tb.buf
    ensures tb.Valid() && (tb.buf == old(tb.buf) || fresh(tb.buf)) && next > s
    ensures Pending(tb.failed, tb.Contents(), RenderRange(text, next, end, ctx), before, whole)
    decreases end - s, 1
  {
    var f := ReadTag(text, s, end);
    next := s + 2;
    match f
    case Unclosed =>
      assert "" + "{{" == "{{";
      Appended(tb.Contents(), "{{", RenderRange(text, next, end, ctx), before, whole);
      tb.Append("{{");
    case Close(n) =>
      next := n;
      Appended(tb.Contents(), "", RenderRange(text, next, end, ctx), before, whole);
      assert tb.Contents() + "" == tb.Contents();
    case Key(key, section, n) =>
      next := n;
      if section {
        next := RenderSectionInto(text, n, end, key, ctx, tb, before, whole);
      } else {
        var v := Lookup(ctx, key);
        assert "" + ValueText(v) == ValueText(v);
        Appended(tb.Contents(), ValueText(v), RenderRange(text, next, end, ctx), before, whole);
        RenderValue(v, tb);
      }
    case _ =>
      tb.failed := true;
  }

  method RenderSectionInto(text: string, b: nat, end: nat, key: string, ctx: Option<Data>, tb: TplBuilder,
    ghost before: string, ghost whole: Option<string>) returns (next: nat)
    requires end <= |text| && tb.Valid() && !tb.failed
    requires Pending(false, tb.Contents(), FromSection(text, "", b, end, key, ctx), before, whole)
    modifies tb, tb.buf
    ensures tb.Valid() && (tb.buf == old(tb.buf) || fresh(tb.buf)) && next >= b
    ensures Pending(tb.failed, tb.Contents(), RenderRange(text, next, end, ctx), before, whole)
    decreases if b < end then end - b else 0, 5
  {
    next := b;
    var sectionEnd := FindSectionEnd(text, b, end, key);
    if sectionEnd.None? {
      tb.failed := true;
      return;
    }
    ghost var out, items := tb.Contents(), ItemsOf(Lookup(ctx, key));
    ghost var inner := RenderItems(text, b, sectionEnd.value, items);
    next := sectionEnd.value + |CloseTag(key)|;
    RenderItemsInto(text, b, sectionEnd.value, ItemsOf(Lookup(ctx, key)), tb);
    if !tb.failed {
      assert "" + inner.value == inner.value;
      Appended(out, inner.value, RenderRange(text, next, end, ctx), before, whole);
    }
  }

  /** TemplateEngine_render: the output, or nothing when the template is rejected. */
  method RenderTemplate(text: string, ctx: Option<Data>) returns (r: Option<string>)
    ensures r == Render(text, ctx)
  {
    var tb := new TplBuilder();
    RenderRangeInto(text, 0, |text|, ctx, tb);
    if tb.failed {
      return None;
    }
    r := Some(tb.buf[..tb.len]);
    ghost var whole := RenderRange(text, 0, |text|, ctx);
    assert "" + whole.value == whole.value;
  }
}
