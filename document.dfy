/** The document shell: `wrapInViewPort` for a page without a `ViewPort`, and
    the `ViewPort` built-in, whose `*key value` children set the page's
    language, metadata, linked files and title. */
module Document {
  import opened JsText
  import opened IndentParser

  const Doctype := "<!DOCTYPE html>"

  /** `<style>` with every collected CSS line, or nothing when there is none. */
  function StyleBlock(styles: seq<string>): (r: string)
    ensures r == "" <==> styles == []
    ensures styles != [] ==> StartsWith(r, "<style>") && EndsWith(r, "</style>")
  {
    if |styles| > 0 then Tagged("<style>", Join(styles, "\n"), "</style>") else ""
  }

  /** `<script>` with every behaviour script, or nothing when there is none. */
  function ScriptBlock(scripts: seq<string>): (r: string)
    ensures r == "" <==> scripts == []
    ensures scripts != [] ==> StartsWith(r, "<script>") && EndsWith(r, "</script>")
  {
    if |scripts| > 0 then Tagged("<script>", Join(scripts, "\n\n"), "</script>") else ""
  }

  function Tagged(open: string, inner: string, close: string): (r: string)
    requires open != []
    ensures r != [] && StartsWith(r, open) && EndsWith(r, close)
  {
    StartsWithConcat(open, inner + close);
    EndsWithConcat(open + inner, close);
    ConcatAssociative(open, inner, close);
    open + inner + close
  }

  /** The end of both pages: the head closes, the content opens the body, and
      the script block follows it. */
  function PageTail(content: string, scripts: seq<string>): (t: string)
    ensures Framed(t, "\n</head>\n<body>\n  ", content, "\n  " + ScriptBlock(scripts) + "\n</body>\n</html>")
  {
    var open, close := "\n</head>\n<body>\n  ", "\n  " + ScriptBlock(scripts) + "\n</body>\n</html>";
    FramedConcat(open, content, close);
    open + content + close
  }

  /** The fixed head of the default page, up to its style block. */
  const DefaultTop := "\n<html lang=\"en\">\n<head>\n  <meta charset=\"UTF-8\">\n"
    + "  <meta name=\"viewport\" content=\"width=device-width, initial-scale=1.0\">\n"
    + "  <title>DotWeb App</title>\n  "

  /** `wrapInViewPort(content)`: the default page around the rendered content.
      The collected styles sit at the end of the fixed head; the content and
      then the scripts make up the body. */
  function WrapInViewPort(styles: seq<string>, scripts: seq<string>, content: string): (page: string)
    ensures StartsWith(page, Doctype)
    ensures Framed(page, Doctype + DefaultTop, StyleBlock(styles), PageTail(content, scripts))
  {
    var top := Doctype + DefaultTop;
    FramedConcat(top, StyleBlock(styles), PageTail(content, scripts));
    StartsWithPrefix(top + StyleBlock(styles) + PageTail(content, scripts), Doctype, DefaultTop);
    top + StyleBlock(styles) + PageTail(content, scripts)
  }

  /** `value.slice(1, -1)` when the value is wrapped in `"` or in `'`. */
  function Unquote(v: string): (r: string)
    ensures !(StartsWith(v, "\"") && EndsWith(v, "\"")) && !(StartsWith(v, "'") && EndsWith(v, "'")) ==> r == v
    ensures |r| <= |v|
  {
    if (StartsWith(v, "\"") && EndsWith(v, "\"")) || (StartsWith(v, "'") && EndsWith(v, "'")) then Unwrap(v) else v
  }

  lemma UnquoteQuoted(s: string, q: char)
    requires q == '"' || q == '\''
    ensures Unquote([q] + s + [q]) == s
  {
    var v := [q] + s + [q];
    assert v[..1] == [q] && v[|v| - 1..] == [q];
    assert v[1..|v| - 1] == s;
  }

  /** A `*key rest...` child of `ViewPort`: the key is the first word after the
      `*`, the value the other words, trimmed and unquoted. */
  function Entry(line: string): (string, string)
  {
    var parts := Split(Tail(line), ' ');
    (parts[0], Unquote(Trim(Join(parts[1..], " "))))
  }

  predicate IsProp(c: Tree) {
    StartsWith(c.value, "*")
  }

  /** The `props` object of `ViewPort`: each `*` child sets its key, a later
      child overriding an earlier one. */
  function ViewPortProps(children: seq<Tree>): (props: map<string, string>)
    ensures forall c :: c in children && IsProp(c) ==> Entry(c.value).0 in props
  {
    if children == [] then map[]
    else
      var init := children[..|children| - 1];
      var last := children[|children| - 1];
      var props := ViewPortProps(init);
      assert forall c :: c in children ==> c in init || c == last;
      if IsProp(last) then props[Entry(last.value).0 := Entry(last.value).1] else props
  }

  predicate Sets(c: Tree, key: string) {
    IsProp(c) && Entry(c.value).0 == key
  }

  /** Only keys that some `*` child sets are present. */
  lemma {:induction false} ViewPortPropsKeys(children: seq<Tree>, key: string)
    ensures key in ViewPortProps(children) <==> exists i :: 0 <= i < |children| && Sets(children[i], key)
  {
    if children != [] {
      var n := |children| - 1;
      var init := children[..n];
      ViewPortPropsKeys(init, key);
      if key in ViewPortProps(init) {
        var i :| 0 <= i < n && Sets(init[i], key);
        assert Sets(children[i], key);
      }
      if exists i :: 0 <= i < |children| && Sets(children[i], key) {
        var i :| 0 <= i < |children| && Sets(children[i], key);
        if i < n {
          assert Sets(init[i], key);
        }
      }
    }
  }

  /** A key holds the value of the last `*` child that sets it. */
  lemma {:induction false} ViewPortPropsLastWins(children: seq<Tree>, key: string, i: nat)
    requires i < |children| && Sets(children[i], key)
    requires forall j :: i < j < |children| ==> !Sets(children[j], key)
    ensures key in ViewPortProps(children) && ViewPortProps(children)[key] == Entry(children[i].value).1
  {
    var n := |children| - 1;
    var init := children[..n];
    if i < n {
      assert Sets(init[i], key);
      assert forall j :: i < j < n ==> init[j] == children[j];
      ViewPortPropsLastWins(init, key, i);
      assert !Sets(children[n], key);
      LaterOthers(children, key);
    } else {
      assert i == n && children[i] == children[n];
      LaterSets(children, key);
    }
  }

  lemma LaterSets(children: seq<Tree>, key: string)
    requires children != [] && Sets(children[|children| - 1], key)
    ensures key in ViewPortProps(children)
    ensures ViewPortProps(children)[key] == Entry(children[|children| - 1].value).1
  {
    var last := children[|children| - 1];
    var e := Entry(last.value);
    assert e.0 == key;
    assert ViewPortProps(children) == ViewPortProps(children[..|children| - 1])[e.0 := e.1];
  }

  lemma LaterOthers(children: seq<Tree>, key: string)
    requires children != [] && !Sets(children[|children| - 1], key)
    requires key in ViewPortProps(children[..|children| - 1])
    ensures key in ViewPortProps(children)
    ensures ViewPortProps(children)[key] == ViewPortProps(children[..|children| - 1])[key]
  {
  }

  /** `props[key] || fallback` */
  function PropOr(props: map<string, string>, key: string, fallback: string): (r: string)
    ensures key in props && props[key] != "" ==> r == props[key]
    ensures key !in props || props[key] == "" ==> r == fallback
  {
    if key in props && props[key] != "" then props[key] else fallback
  }

  /** `props[key] ? shown : ""` */
  function IfSet(props: map<string, string>, key: string, shown: string): string
  {
    if key in props && props[key] != "" then shown else ""
  }

  function MetaTag(props: map<string, string>, key: string): string
  {
    IfSet(props, key, if key in props then "<meta name=\"" + key + "\" content=\"" + props[key] + "\">" else "")
  }

  /** `list.split(",").map(s => tag(s.trim())).join("\n  ")` for the linked
      style sheets (`link` is true) or scripts. */
  function FileTags(list: string, link: bool): string
  {
    Join(FileTagList(Split(list, ','), link), "\n  ")
  }

  /** The tag that loads one listed file. */
  function FileTag(file: string, link: bool): string
  {
    if link then "<link rel=\"stylesheet\" href=\"" + Trim(file) + "\">" else "<script src=\"" + Trim(file) + "\"></script>"
  }

  function FileTagList(files: seq<string>, link: bool): (tags: seq<string>)
    ensures |tags| == |files|
    ensures forall i :: 0 <= i < |files| ==> tags[i] == FileTag(files[i], link)
  {
    if files == [] then []
    else [FileTag(files[0], link)] + FileTagList(files[1..], link)
  }

  /** The head of a `ViewPort` page up to its optional metadata: the language,
      charset, viewport and title props, each falling back to the default
      page's value when it is missing or empty. */
  function ViewPortTop(props: map<string, string>): (top: string)
    ensures StartsWith(top, LangTag(props))
    ensures Contains(top, CharsetTag(props)) && Contains(top, TitleTag(props))
  {
    var viewport := "  <meta name=\"viewport\" content=\"" + PropOr(props, "viewport", "width=device-width, initial-scale=1.0") + "\">\n  ";
    TagsIn(LangTag(props), "\n<head>\n  ", CharsetTag(props), "\n" + viewport, TitleTag(props), "\n  ");
    LangTag(props) + "\n<head>\n  " + CharsetTag(props) + ("\n" + viewport) + TitleTag(props) + "\n  "
  }

  /** Where the pieces of a text of six pieces stand. */
  lemma TagsIn(a: string, b: string, c: string, d: string, e: string, f: string)
    ensures StartsWith(a + b + c + d + e + f, a)
    ensures Contains(a + b + c + d + e + f, c) && Contains(a + b + c + d + e + f, e)
  {
    var s := a + b + c + d + e + f;
    assert s == a + (b + c + d + e + f);
    StartsWithConcat(a, b + c + d + e + f);
    assert s == (a + b) + c + (d + e + f);
    ContainsMiddle(a + b, c, d + e + f);
    assert s == (a + b + c + d) + e + f;
    ContainsMiddle(a + b + c + d, e, f);
  }

  /** `<html lang="...">`, `en` by default. */
  function LangTag(props: map<string, string>): string
  {
    "\n<html lang=\"" + PropOr(props, "lang", "en") + "\">"
  }

  /** `<meta charset="...">`, `UTF-8` by default. */
  function CharsetTag(props: map<string, string>): string
  {
    "<meta charset=\"" + PropOr(props, "charset", "UTF-8") + "\">"
  }

  /** `<title>...</title>`, `DotWeb App` by default. */
  function TitleTag(props: map<string, string>): string
  {
    "<title>" + PropOr(props, "title", "DotWeb App") + "</title>"
  }

  /** The optional metadata and style-sheet links, each on its own line. */
  function ViewPortMetas(props: map<string, string>): string
  {
    MetaTag(props, "description") + "\n  " + MetaTag(props, "keywords") + "\n  " + MetaTag(props, "author") + "\n  "
    + IfSet(props, "styles", if "styles" in props then FileTags(props["styles"], true) else "") + "\n  "
  }

  /** The external scripts of a `ViewPort` page. */
  function ScriptLinks(props: map<string, string>): string
  {
    IfSet(props, "scripts", if "scripts" in props then FileTags(props["scripts"], false) else "")
  }

  /** Where the props go in a `ViewPort` page: `lang` in the `html` tag that
      follows the doctype, `charset` and `title` in their tags (each with its
      default when missing or empty), and the content in the body that ends
      the page, followed by the collected scripts. */
  lemma ViewPortValues(props: map<string, string>, styles: seq<string>, scripts: seq<string>, content: string)
    ensures var page := ViewPortPage(props, styles, scripts, content);
      && StartsWith(page, Doctype + LangTag(props))
      && Contains(page, CharsetTag(props))
      && Contains(page, TitleTag(props))
      && EndsWith(page, PageTail(content, scripts))
  {
    var bottom := StyleBlock(styles) + "\n  " + ScriptLinks(props) + PageTail(content, scripts);
    Around(Doctype, ViewPortTop(props), ViewPortMetas(props), bottom, LangTag(props), CharsetTag(props), TitleTag(props));
    EndsWithConcat(StyleBlock(styles) + "\n  " + ScriptLinks(props), PageTail(content, scripts));
    EndsWithTransitive(ViewPortPage(props, styles, scripts, content), bottom, PageTail(content, scripts));
  }

  /** A head `y` that starts with `a` and contains `c` and `e`, placed after `x`
      and before `m` and `w`. */
  lemma Around(x: string, y: string, m: string, w: string, a: string, c: string, e: string)
    requires StartsWith(y, a) && Contains(y, c) && Contains(y, e)
    ensures StartsWith(x + y + m + w, x + a)
    ensures Contains(x + y + m + w, c) && Contains(x + y + m + w, e)
    ensures EndsWith(x + y + m + w, w)
  {
    var s := x + y + m + w;
    assert s == x + y + (m + w);
    ContainsWithin(x, y, m + w, c);
    ContainsWithin(x, y, m + w, e);
    assert s[..|x + a|] == x + y[..|a|];
    EndsWithConcat(x + y + m, w);
  }

  /** The page `ViewPort` renders: its props fill the head, then come the
      collected styles, the external scripts, and the body with the content and
      the collected scripts. */
  function ViewPortPage(props: map<string, string>, styles: seq<string>, scripts: seq<string>, content: string): (page: string)
    ensures StartsWith(page, Doctype)
    ensures Framed(page, Doctype + ViewPortTop(props), ViewPortMetas(props),
      StyleBlock(styles) + "\n  " + ScriptLinks(props) + PageTail(content, scripts))
  {
    var top := Doctype + ViewPortTop(props);
    var bottom := StyleBlock(styles) + "\n  " + ScriptLinks(props) + PageTail(content, scripts);
    FramedConcat(top, ViewPortMetas(props), bottom);
    StartsWithPrefix(top + ViewPortMetas(props) + bottom, Doctype, ViewPortTop(props));
    top + ViewPortMetas(props) + bottom
  }
}
