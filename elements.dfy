/** `element` and `parseElement`: an HTML element line `tag.cls#id[k=v] text`
    becomes `<tag attrs>text children</tag>`. */
module Elements {
  import opened JsText

  /** `value.indexOf(' ')` then `substring`: the head token and the rest of the line. */
  function SplitHead(value: string): (r: (string, string))
    ensures ' ' !in value ==> r == (value, "")
    ensures ' ' in value ==> value == r.0 + " " + r.1 && ' ' !in r.0
  {
    var i := IndexOf(value, ' ');
    if i == -1 then (value, "")
    else
      assert value == value[..i] + " " + value[i + 1..];
      (value[..i], value[i + 1..])
  }

  /** Where the lazy `(.+?)` of `/\[(.+?)\]/` ends inside `t` (the text after a
      `[`), scanning from position `j`: the first `]` that is not the first
      character, with no line terminator before it. */
  function CloseFrom(t: string, j: nat): (r: Option<nat>)
    requires 1 <= j
    ensures r.Some? ==> j <= r.value < |t| && t[r.value] == ']'
    ensures r.Some? ==> forall i :: j <= i < r.value ==> t[i] != ']' && !IsLineTerminator(t[i])
    decreases |t| - j
  {
    if j >= |t| then None
    else if t[j] == ']' then Some(j)
    else if IsLineTerminator(t[j]) then None
    else CloseFrom(t, j + 1)
  }

  /** The capture of `raw.match(/\[(.+?)\]/)`, trying each `[` from the left. */
  function BracketGroup(s: string): (g: Option<string>)
    ensures '[' !in s ==> g.None?
    ensures g.Some? ==> g.value != []
  {
    if s == [] then None
    else if s[0] == '[' && |s| >= 2 && !IsLineTerminator(s[1]) && CloseFrom(s[1..], 1).Some? then
      Some(s[1..][..CloseFrom(s[1..], 1).value])
    else BracketGroup(s[1..])
  }

  /** A bracket group without `]` or line terminators inside is read back whole. */
  lemma BracketGroupOf(g: string, tail: string)
    requires g != [] && ']' !in g
    requires forall i :: 0 <= i < |g| ==> !IsLineTerminator(g[i])
    ensures BracketGroup("[" + g + "]" + tail) == Some(g)
  {
    var s := "[" + g + "]" + tail;
    var t := s[1..];
    assert t == g + "]" + tail;
    CloseAt(t, 1, |g|);
    assert t[..|g|] == g;
  }

  lemma {:induction false} CloseAt(t: string, j: nat, k: nat)
    requires 1 <= j <= k < |t| && t[k] == ']'
    requires forall i :: j <= i < k ==> t[i] != ']' && !IsLineTerminator(t[i])
    ensures CloseFrom(t, j) == Some(k)
    decreases k - j
  {
    if j < k {
      CloseAt(t, j + 1, k);
    }
  }

  /** ` ${k}="${v}"` for one `k=v` item; a missing `=v` reads `undefined`. */
  function AttrText(item: string): string
  {
    var kv := Split(item, '=');
    " " + kv[0] + "=\"" + (if |kv| >= 2 then kv[1] else "undefined") + "\""
  }

  lemma AttrTextOf(k: string, v: string)
    requires '=' !in k && '=' !in v
    ensures AttrText(k + "=" + v) == " " + k + "=\"" + v + "\""
  {
    SplitJoin([k, v], '=');
    assert Join([k, v], "=") == k + "=" + v;
  }

  function AttrsText(items: seq<string>): string
  {
    if items == [] then "" else AttrsText(items[..|items| - 1]) + AttrText(items[|items| - 1])
  }

  /** `{ tag, attrs }` */
  datatype Head = Head(tag: string, attrs: string)

  /** The class part: `tag.a.b` gives ` class="a b"`. */
  function ClassAttr(raw: string): string
  {
    if '.' in raw then " class=\"" + Join(Split(raw, '.')[1..], " ") + "\"" else ""
  }

  /** The id part: `tag#x` gives ` id="x"`. */
  function IdAttr(raw: string): string
  {
    if '#' in raw then " id=\"" + Split(raw, '#')[1] + "\"" else ""
  }

  function BracketAttrs(raw: string): string
  {
    match BracketGroup(raw)
    case Some(g) => AttrsText(Split(g, ','))
    case None => ""
  }

  /** `parseElement(raw)`: the tag is cut at `.`, then at `#`, which wins when
      both are present; the attributes are the class, id and bracket parts in
      that order. The tag is the start of the head token, never holds `#`, and
      holds `.` only when a `#` cut it; there are attributes exactly when the
      token has a `.`, a `#` or a bracket group. */
  function ElementHead(raw: string): (h: Head)
    ensures StartsWith(raw, h.tag)
    ensures '#' !in h.tag
    ensures '#' !in raw ==> '.' !in h.tag
    ensures h.attrs == "" <==> '.' !in raw && '#' !in raw && BracketGroup(raw).None?
  {
    var tag := if '#' in raw then FirstPiece(raw, '#') else if '.' in raw then FirstPiece(raw, '.') else raw;
    var brackets := BracketAttrs(raw);
    assert BracketGroup(raw).Some? ==> brackets != "" by {
      if BracketGroup(raw).Some? {
        var items := Split(BracketGroup(raw).value, ',');
        assert AttrText(items[|items| - 1])[0] == ' ';
      }
    }
    Head(tag, ClassAttr(raw) + IdAttr(raw) + brackets)
  }

  /** `raw.split(c)[0]`: the text before the first `c`. */
  function FirstPiece(raw: string, c: char): (t: string)
    requires c in raw
    ensures StartsWith(raw, t) && c !in t
    ensures t == Split(raw, c)[0]
  {
    var i := IndexOf(raw, c);
    assert Split(raw, c)[0] == raw[..i];
    raw[..i]
  }

  /** A head token without `.`, `#` or `[` is the tag itself, with no attributes. */
  lemma PlainTag(raw: string)
    requires '.' !in raw && '#' !in raw && '[' !in raw
    ensures ElementHead(raw) == Head(raw, "")
  {
  }

  /** The characters that make up a class, an id or a tag in the lemmas below:
      none of the separators `parseElement` looks for. */
  predicate Plain(s: string) {
    '.' !in s && '#' !in s && '[' !in s
  }

  /** The head from its four parts, each worked out on its own. */
  lemma HeadFrom(raw: string, tag: string, classes: string, id: string, brackets: string)
    requires tag == if '#' in raw then FirstPiece(raw, '#') else if '.' in raw then FirstPiece(raw, '.') else raw
    requires ClassAttr(raw) == classes && IdAttr(raw) == id && BracketAttrs(raw) == brackets
    ensures ElementHead(raw) == Head(tag, classes + id + brackets)
  {
  }

  lemma AppendEmpty(x: string)
    ensures x + "" == x && "" + x == x
  {
  }

  /** `t.c1.c2`, the tag and the classes joined by `.`, is the tag `t` with
      the classes `c1 c2`. */
  lemma ClassHead(t: string, classes: seq<string>)
    requires classes != [] && Plain(t)
    requires forall i :: 0 <= i < |classes| ==> Plain(classes[i])
    ensures ElementHead(Join([t] + classes, ".")) == Head(t, " class=\"" + Join(classes, " ") + "\"")
  {
    var parts := [t] + classes;
    assert parts[0] == t && parts[1..] == classes;
    forall i | 0 <= i < |parts|
      ensures Plain(parts[i])
    {
      if i > 0 {
        assert parts[i] == classes[i - 1];
      }
    }
    JoinedClasses(parts);
  }

  lemma JoinedClasses(parts: seq<string>)
    requires |parts| >= 2 && forall i :: 0 <= i < |parts| ==> Plain(parts[i])
    ensures ElementHead(Join(parts, ".")) == Head(parts[0], " class=\"" + Join(parts[1..], " ") + "\"")
  {
    SplitJoin(parts, '.');
    NotInJoin(parts, ".", '#');
    NotInJoin(parts, ".", '[');
    OnlyClasses(Join(parts, "."), parts);
  }

  /** A head token with classes and nothing else. */
  lemma OnlyClasses(raw: string, parts: seq<string>)
    requires '.' in raw && '#' !in raw && '[' !in raw && Split(raw, '.') == parts
    ensures ElementHead(raw) == Head(parts[0], " class=\"" + Join(parts[1..], " ") + "\"")
  {
    var cls := " class=\"" + Join(parts[1..], " ") + "\"";
    HeadFrom(raw, parts[0], cls, "", "");
    AppendEmpty(cls);
  }

  /** `t#i` is the tag `t` with the id `i`. */
  lemma IdHead(t: string, id: string)
    requires Plain(t) && Plain(id)
    ensures ElementHead(t + "#" + id) == Head(t, " id=\"" + id + "\"")
  {
    assert Join([t, id], "#") == t + "#" + id;
    SplitJoin([t, id], '#');
  }

  /** `t.c#i`: the `#` cut wins, so the tag keeps `.c`, and the class takes
      the id along. */
  lemma ClassThenId(t: string, c: string, id: string)
    requires Plain(t) && Plain(c) && Plain(id)
    ensures ElementHead(t + "." + c + "#" + id) == Head(t + "." + c, " class=\"" + c + "#" + id + "\" id=\"" + id + "\"")
  {
    var raw := t + "." + c + "#" + id;
    var cls, ids := " class=\"" + c + "#" + id + "\"", " id=\"" + id + "\"";
    ClassThenIdPieces(t, c, id);
    HeadFrom(raw, t + "." + c, cls, ids, "");
    AppendEmpty(cls + ids);
    MergeMiddle(" class=\"" + c + "#" + id, "\"", " id=\"", id, "\"");
    assert "\"" + " id=\"" == "\" id=\"";
  }

  lemma ClassThenIdPieces(t: string, c: string, id: string)
    requires Plain(t) && Plain(c) && Plain(id)
    ensures var raw := t + "." + c + "#" + id;
      && '#' in raw && FirstPiece(raw, '#') == t + "." + c
      && ClassAttr(raw) == " class=\"" + c + "#" + id + "\""
      && IdAttr(raw) == " id=\"" + id + "\""
      && BracketAttrs(raw) == ""
  {
    var raw := t + "." + c + "#" + id;
    ClassIdSplits(t, c, id);
    assert [t, c + "#" + id][1..] == [c + "#" + id];
    assert Join([c + "#" + id], " ") == c + "#" + id;
    Regroup(" class=\"", c, "#", id);
    assert '[' !in raw;
  }

  /** How `t.c#i` splits at `.` and at `#`. */
  lemma ClassIdSplits(t: string, c: string, id: string)
    requires Plain(t) && Plain(c) && Plain(id)
    ensures Split(t + "." + c + "#" + id, '.') == [t, c + "#" + id]
    ensures Split(t + "." + c + "#" + id, '#') == [t + "." + c, id]
  {
    ClassSplit(t, c, id);
    assert '#' !in t + "." + c;
    SplitTwo(t + "." + c, '#', id);
  }

  lemma ClassSplit(t: string, c: string, id: string)
    requires Plain(t) && Plain(c) && Plain(id)
    ensures Split(t + "." + c + "#" + id, '.') == [t, c + "#" + id]
  {
    assert '.' !in c + "#" + id;
    Regroup5(t, ".", c, "#", id);
    SplitTwo(t, '.', c + "#" + id);
  }

  /** `t[k=v]`: the attribute ` k="v"`; without a `.` or `#` nothing cuts the
      tag, so it keeps the brackets. */
  lemma BracketHead(t: string, k: string, v: string)
    requires Plain(t) && Plain(k + v)
    requires ']' !in k + v && ',' !in k + v && '=' !in k + v
    requires forall i :: 0 <= i < |k + v| ==> !IsLineTerminator((k + v)[i])
    ensures ElementHead(t + "[" + k + "=" + v + "]") == Head(t + "[" + k + "=" + v + "]", " " + k + "=\"" + v + "\"")
  {
    BracketRaw(t, k, v);
    OnlyBrackets(t + "[" + k + "=" + v + "]", k, v);
  }

  /** The facts about `t[k=v]` that `OnlyBrackets` needs. */
  lemma BracketRaw(t: string, k: string, v: string)
    requires Plain(t) && Plain(k + v)
    requires ']' !in k + v && ',' !in k + v && '=' !in k + v
    requires forall i :: 0 <= i < |k + v| ==> !IsLineTerminator((k + v)[i])
    ensures var raw := t + "[" + k + "=" + v + "]";
      && '.' !in raw && '#' !in raw && BracketGroup(raw) == Some(k + "=" + v)
      && '=' !in k && '=' !in v && ',' !in k + "=" + v
  {
    GroupChars(k, v);
    GroupAfter(t, k + "=" + v);
    assert t + "[" + k + "=" + v + "]" == t + "[" + (k + "=" + v) + "]";
  }

  /** `t[g]`, with no `[` in `t`, has the bracket group `g`. */
  lemma GroupAfter(t: string, g: string)
    requires '[' !in t && g != [] && ']' !in g
    requires forall i :: 0 <= i < |g| ==> !IsLineTerminator(g[i])
    ensures BracketGroup(t + "[" + g + "]") == Some(g)
  {
    var group := "[" + g + "]";
    AppendEmpty(group);
    BracketGroupOf(g, "");
    BracketGroupSkip(t, group);
    Regroup(t, "[", g, "]");
  }

  /** A head token with no `.` or `#` and the one bracket group `k=v`. */
  lemma OnlyBrackets(raw: string, k: string, v: string)
    requires '.' !in raw && '#' !in raw && BracketGroup(raw) == Some(k + "=" + v)
    requires '=' !in k && '=' !in v && ',' !in k + "=" + v
    ensures ElementHead(raw) == Head(raw, " " + k + "=\"" + v + "\"")
  {
    var g := k + "=" + v;
    var attr := " " + k + "=\"" + v + "\"";
    assert BracketAttrs(raw) == attr by {
      assert Split(g, ',') == [g];
      assert [g][..0] == [] && [g][0] == g;
      assert AttrsText([g]) == AttrText(g);
      AttrTextOf(k, v);
    }
    HeadFrom(raw, raw, "", "", attr);
    AppendEmpty(attr);
  }

  lemma GroupChars(k: string, v: string)
    requires Plain(k + v) && ']' !in k + v && ',' !in k + v && '=' !in k + v
    requires forall i :: 0 <= i < |k + v| ==> !IsLineTerminator((k + v)[i])
    ensures var g := k + "=" + v;
      && g != [] && ']' !in g && ',' !in g && '.' !in g && '#' !in g
      && forall i :: 0 <= i < |g| ==> !IsLineTerminator(g[i])
  {
    var g := k + "=" + v;
    forall i | 0 <= i < |g|
      ensures !IsLineTerminator(g[i])
    {
      if i < |k| {
        assert g[i] == (k + v)[i];
      } else if i > |k| {
        assert g[i] == (k + v)[i - 1];
      }
    }
  }

  /** Text without `[` before a token does not change its bracket group. */
  lemma {:induction false} BracketGroupSkip(t: string, s: string)
    requires '[' !in t
    ensures BracketGroup(t + s) == BracketGroup(s)
  {
    if t != [] {
      assert (t + s)[0] == t[0] && (t + s)[1..] == t[1..] + s;
      BracketGroupSkip(t[1..], s);
    } else {
      assert t + s == s;
    }
  }

  /** `parseElement` as written: `tag` and `attrs` updated step by step. */
  method ParseElement(raw: string) returns (tag: string, attrs: string)
    ensures Head(tag, attrs) == ElementHead(raw)
  {
    tag := raw;
    attrs := "";
    if '.' in raw {
      var parts := Split(raw, '.');
      tag := parts[0];
      var classText := " class=\"" + Join(parts[1..], " ") + "\"";
      attrs := attrs + classText;
    }
    assert attrs == ClassAttr(raw);
    if '#' in raw {
      var parts := Split(raw, '#');
      tag := parts[0];
      var idText := " id=\"" + parts[1] + "\"";
      assert idText == IdAttr(raw);
      attrs := attrs + idText;
    }
    assert attrs == ClassAttr(raw) + IdAttr(raw);
    var group := BracketGroup(raw);
    if group.Some? {
      attrs := AppendAttrs(attrs, Split(group.value, ','));
    }
    assert attrs == ClassAttr(raw) + IdAttr(raw) + BracketAttrs(raw);
    HeadFrom(raw, tag, ClassAttr(raw), IdAttr(raw), BracketAttrs(raw));
  }

  /** The loop over the bracket items, each appended as ` k="v"`. */
  method AppendAttrs(attrs0: string, items: seq<string>) returns (attrs: string)
    ensures attrs == attrs0 + AttrsText(items)
  {
    attrs := attrs0;
    for i := 0 to |items|
      invariant attrs == attrs0 + AttrsText(items[..i])
    {
      assert items[..i + 1][..i] == items[..i];
      attrs := attrs + AttrText(items[i]);
    }
    assert items[..|items|] == items;
  }

  /** The markup of an element from its head, inline text and rendered children. */
  function ElementMarkup(head: Head, inline: string, children: string): (r: string)
    ensures Framed(r, "<" + head.tag + head.attrs + ">", inline + children, "</" + head.tag + ">")
  {
    var open := "<" + head.tag + head.attrs + ">";
    var close := "</" + head.tag + ">";
    FramedConcat(open, inline + children, close);
    open + (inline + children) + close
  }
}
