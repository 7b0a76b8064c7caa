/** `component(node)`: what a `$component NAME` line does to the interpreter's
    three accumulators. It records `{ struct, style, class, name }` in the
    component registry, adds a comment and the CSS lines of `*style` to the
    insertion-ordered style set, and for a `*class` child appends one generated
    behaviour script. */
module Registry {
  import opened JsText
  import opened IndentParser
  import opened Runtime

  /** `{ struct, style, class, name }`; `name` is `undefined` when the
      definition line has no second word. */
  datatype Definition = Definition(name: Option<string>, structure: Option<Tree>, style: Option<Tree>, behaviour: Option<Tree>)

  predicate NoDuplicates(s: seq<string>) {
    forall i, j :: 0 <= i < j < |s| ==> s[i] != s[j]
  }

  /** A JavaScript `Set` of strings: its members in insertion order. */
  type StyleSet = s: seq<string> | NoDuplicates(s) witness []

  /** The accumulators of one `DotWeb` instance. */
  datatype State = State(components: map<string, Definition>, styles: StyleSet, scripts: seq<string>)

  /** The styles and scripts of `after` extend those of `before`: nothing
      collected is ever removed or reordered. */
  predicate Grows(before: State, after: State) {
    before.styles <= after.styles && before.scripts <= after.scripts
  }

  /** A computation that threads the accumulators and may throw. Whatever was
      changed before a throw stays changed, so both cases carry the state. */
  datatype Step<T> = Done(value: T, st: State) | Thrown(error: Error, st: State)

  /** A method's effect as a `Step`: the accumulators it leaves behind, with
      what it returned or threw. */
  function Outcome<T>(st: State, r: Result<T>): (step: Step<T>)
    ensures step.st == st && (step.Done? <==> r.Ok?)
    ensures r.Ok? ==> step.value == r.value
    ensures r.Err? ==> step.error == r.error
  {
    match r
    case Ok(v) => Done(v, st)
    case Err(e) => Thrown(e, st)
  }

  /** `styles.add(x)` */
  function AddStyle(styles: StyleSet, x: string): (r: StyleSet)
    ensures x in r && |styles| <= |r| <= |styles| + 1
    ensures r[..|styles|] == styles
    ensures forall y :: y in r <==> y in styles || y == x
  {
    if x in styles then styles
    else
      var r := styles + [x];
      assert forall i :: 0 <= i < |styles| ==> r[i] == styles[i];
      r
  }

  /** Adding a line that is already present changes nothing. */
  lemma AddStyleExisting(styles: StyleSet, x: string)
    requires x in styles
    ensures AddStyle(styles, x) == styles
  {
    var r := AddStyle(styles, x);
    assert |r| == |styles|;
  }

  lemma AddStyleIdempotent(styles: StyleSet, x: string)
    ensures AddStyle(AddStyle(styles, x), x) == AddStyle(styles, x)
  {
    AddStyleExisting(AddStyle(styles, x), x);
  }

  /** `xs.forEach(x => styles.add(x))` */
  function AddStyles(styles: StyleSet, xs: seq<string>): (r: StyleSet)
    ensures styles <= r
    ensures forall y :: y in r <==> y in styles || y in xs
  {
    if xs == [] then styles
    else
      var init, x := xs[..|xs| - 1], xs[|xs| - 1];
      var before := AddStyles(styles, init);
      var r := AddStyle(before, x);
      assert xs == init + [x];
      assert r[..|before|] == before;
      assert r[..|styles|] == before[..|styles|];
      r
  }

  /** Adding one more line after a list of lines. */
  lemma AddStylesSnoc(styles: StyleSet, xs: seq<string>, x: string)
    ensures AddStyles(styles, xs + [x]) == AddStyle(AddStyles(styles, xs), x)
  {
    assert (xs + [x])[..|xs|] == xs;
  }

  lemma AddStylesOne(styles: StyleSet, x: string)
    ensures AddStyles(styles, [x]) == AddStyle(styles, x)
  {
    AddStylesSnoc(styles, [], x);
    assert [] + [x] == [x];
  }

  lemma AddStylesTwo(styles: StyleSet, x: string, y: string)
    ensures AddStyles(styles, [x, y]) == AddStyle(AddStyle(styles, x), y)
  {
    AddStylesSnoc(styles, [x], y);
    AddStylesOne(styles, x);
    assert [x] + [y] == [x, y];
  }

  /** The value of every tree in a list. */
  function Values(ts: seq<Tree>): (vs: seq<string>)
    ensures |vs| == |ts| && forall i :: 0 <= i < |ts| ==> vs[i] == ts[i].value
  {
    if ts == [] then [] else Values(ts[..|ts| - 1]) + [ts[|ts| - 1].value]
  }

  /** `node.value.split(" ")[1]` */
  function NameOf(line: string): (name: Option<string>)
    ensures name.Some? <==> ' ' in line
    ensures name.Some? ==> ' ' !in name.value
  {
    var parts := Split(line, ' ');
    if |parts| >= 2 then Some(parts[1])
    else
      assert Join(parts, " ") == line by { JoinSplit(line, ' '); }
      None
  }

  /** The name is the second space-separated word of the line. */
  lemma NameOfWords(w: string, n: string, rest: string)
    requires ' ' !in w && ' ' !in n && (rest == [] || rest[0] == ' ')
    ensures NameOf(w + " " + n + rest) == Some(n)
  {
    var tail := n + rest;
    assert w + " " + n + rest == w + [' '] + tail;
    SplitAfterFirst(w, ' ', tail);
    FirstWord(n, rest);
  }

  lemma FirstWord(n: string, rest: string)
    requires ' ' !in n && (rest == [] || rest[0] == ' ')
    ensures Split(n + rest, ' ')[0] == n
  {
    if rest == [] {
      assert n + rest == n;
    } else {
      SplitAfterFirst(n, ' ', rest[1..]);
      SplitOffHead(n, rest);
    }
  }

  /** The text `${name}` produces: the name, or `undefined`. */
  function NameText(name: Option<string>): string
  {
    match name
    case Some(n) => n
    case None => "undefined"
  }

  /** Which slot of a definition a child line fills, if any. */
  datatype Part = StructPart | StylePart | ClassPart | NoPart

  function PartOf(value: string): Part
  {
    if value == "*struct" then StructPart
    else if value == "*style" then StylePart
    else if StartsWith(value, "*class") then ClassPart
    else NoPart
  }

  predicate LastFilling(children: seq<Tree>, i: nat, part: Part)
    requires i < |children|
  {
    PartOf(children[i].value) == part && forall j :: i < j < |children| ==> PartOf(children[j].value) != part
  }

  /** The last child filling `part`: each later match of the `forEach`
      overwrites the earlier one. */
  function LastOf(children: seq<Tree>, part: Part): (r: Option<Tree>)
    ensures r.None? <==> forall i :: 0 <= i < |children| ==> PartOf(children[i].value) != part
    ensures r.Some? ==> exists i :: 0 <= i < |children| && children[i] == r.value && LastFilling(children, i, part)
  {
    if children == [] then None
    else
      var last := children[|children| - 1];
      if PartOf(last.value) == part then
        assert children[|children| - 1] == last;
        Some(last)
      else
        var r := LastOf(children[..|children| - 1], part);
        assert forall i :: 0 <= i < |children| - 1 ==> children[..|children| - 1][i] == children[i];
        r
  }

  /** The definition recorded for a `$component` line. */
  function DefinitionOf(node: Tree): Definition
  {
    Definition(NameOf(node.value), LastOf(node.children, StructPart), LastOf(node.children, StylePart), LastOf(node.children, ClassPart))
  }

  /** The single-line form `*style css...`: the words after the first. */
  function InlineStyle(styleValue: string): string
  {
    var raw := Trim(styleValue);
    if ' ' in raw then Join(Split(raw, ' ')[1..], " ") else ""
  }

  /** A `*style` child is recognised only when its line is exactly `*style`,
      so the single-line form never contributes a CSS line. */
  lemma InlineStyleNeverAdded(style: Tree)
    requires PartOf(style.value) == StylePart
    ensures InlineStyle(style.value) == ""
  {
    assert style.value == "*style";
    TrimUntouched(style.value);
  }

  /** The comment line that opens a component's styles. */
  function StyleComment(name: Option<string>): string
  {
    "/* Styles for " + NameText(name) + " */"
  }

  /** What the style part adds to the style set. */
  function StyleLines(name: Option<string>, style: Tree): (lines: seq<string>)
    ensures lines != [] && lines[0] == StyleComment(name)
    ensures |style.children| > 0 ==>
      |lines| == |style.children| + 1 && forall i :: 0 <= i < |style.children| ==> lines[i + 1] == style.children[i].value
    ensures |style.children| == 0 ==> lines[1..] == if InlineStyle(style.value) != "" then [InlineStyle(style.value)] else []
  {
    var comment := StyleComment(name);
    if |style.children| > 0 then [comment] + Values(style.children)
    else
      var inline := InlineStyle(style.value);
      if inline != "" then [comment, inline] else [comment]
  }

  /** `name.charAt(0).toUpperCase() + name.slice(1) + "Component"` */
  function ClassName(name: string): string
  {
    Capitalize(name) + "Component"
  }

  /** The body lines of a method or constructor, four spaces in. */
  function BodyCode(lines: seq<Tree>): string
  {
    if lines == [] then "" else BodyCode(lines[..|lines| - 1]) + "    " + lines[|lines| - 1].value + "\n"
  }

  /** One member of the generated class: the `constructor` line becomes
      `constructor(element)`, a line with `(` and `)` opens a method whose body
      is its children, any other line is copied as is. */
  function MemberCode(member: Tree): string
  {
    if member.value == "constructor" then "  constructor(element) {\n" + BodyCode(member.children) + "  }\n"
    else if '(' in member.value && ')' in member.value then "  " + member.value + " {\n" + BodyCode(member.children) + "  }\n"
    else "  " + member.value + "\n"
  }

  function MembersCode(members: seq<Tree>): string
  {
    if members == [] then "" else MembersCode(members[..|members| - 1]) + MemberCode(members[|members| - 1])
  }

  /** The class header, as `classCode` starts. */
  function ClassHeader(name: string): string
  {
    "class " + ClassName(name) + " {\n"
  }

  /** The closing brace and the `DOMContentLoaded` hook that instantiates the
      class for every element carrying `data-component="NAME"`. */
  function ClassFooter(name: string): string
  {
    "}\n\n"
    + "document.addEventListener('DOMContentLoaded', () => {\n"
    + "  document.querySelectorAll('[data-component=\"" + name + "\"]').forEach(el => {\n"
    + "    new " + ClassName(name) + "(el);\n"
    + "  });\n"
    + "});"
  }

  /** The behaviour script generated for a `*class` child. */
  function ClassCode(name: string, behaviour: Tree): (code: string)
    ensures StartsWith(code, ClassHeader(name))
    ensures EndsWith(code, ClassFooter(name))
  {
    var members := MembersCode(behaviour.children);
    StartsWithConcat(ClassHeader(name), members + ClassFooter(name));
    EndsWithConcat(ClassHeader(name) + members, ClassFooter(name));
    ConcatAssociative(ClassHeader(name), members, ClassFooter(name));
    ClassHeader(name) + members + ClassFooter(name)
  }

  /** `component(node)`: record the definition, then add its styles, then its
      behaviour script. A `*class` child on a line without a name makes
      `name.charAt` throw after the registry and the styles were updated. */
  function Define(st: State, node: Tree): (r: Step<string>)
    ensures Grows(st, r.st)
  {
    Record(st, DefinitionOf(node))
  }

  /** The three updates of `component` for a definition already read off its line. */
  function Record(st: State, def: Definition): (r: Step<string>)
    ensures Grows(st, r.st)
  {
    var components := st.components[NameText(def.name) := def];
    var styles := StylesAfter(st.styles, def);
    if def.behaviour.None? then Done("", State(components, styles, st.scripts))
    else if def.name.None? then Thrown(UnnamedClass, State(components, styles, st.scripts))
    else Done("", State(components, styles, st.scripts + [ClassCode(def.name.value, def.behaviour.value)]))
  }

  /** The style set once a definition's `*style` lines are added. */
  function StylesAfter(styles: StyleSet, def: Definition): (r: StyleSet)
    ensures styles <= r
    ensures def.style.None? ==> r == styles
  {
    if def.style.Some? then AddStyles(styles, StyleLines(def.name, def.style.value)) else styles
  }

  /** Defining a name replaces its earlier entry and leaves every other entry alone. */
  lemma DefineReplaces(st: State, node: Tree, other: string)
    requires other != NameText(NameOf(node.value))
    ensures Define(st, node).st.components[NameText(NameOf(node.value))] == DefinitionOf(node)
    ensures other in Define(st, node).st.components <==> other in st.components
    ensures other in st.components ==> Define(st, node).st.components[other] == st.components[other]
  {
  }

  /** A definition renders as the empty string, or throws `UnnamedClass`. */
  lemma DefineRendersEmpty(st: State, node: Tree)
    ensures Define(st, node).Done? ==> Define(st, node).value == ""
    ensures Define(st, node).Thrown? <==> LastOf(node.children, ClassPart).Some? && ' ' !in node.value
  {
  }

  /** A definition with a `*class` child appends exactly one script, one without
      appends none. */
  lemma DefineScripts(st: State, node: Tree)
    ensures |Define(st, node).st.scripts|
      == |st.scripts| + (if Define(st, node).Done? && LastOf(node.children, ClassPart).Some? then 1 else 0)
  {
  }

  /** Styles change only when there is a `*style` child. Then the new set is
      the old one with the comment line and every line under the last
      `*style` child added, and nothing else. */
  lemma DefineStyles(st: State, node: Tree)
    ensures LastOf(node.children, StylePart).None? ==> Define(st, node).st.styles == st.styles
    ensures LastOf(node.children, StylePart).Some? ==>
      var style := LastOf(node.children, StylePart).value;
      var after := Define(st, node).st.styles;
      && StyleComment(NameOf(node.value)) in after
      && (forall i :: 0 <= i < |style.children| ==> style.children[i].value in after)
      && (forall y :: y in after <==> y in st.styles || y in StyleLines(NameOf(node.value), style))
  {
    var def := DefinitionOf(node);
    if def.style.Some? {
      var xs := StyleLines(def.name, def.style.value);
      assert xs[0] in xs;
      forall i | 0 <= i < |def.style.value.children|
        ensures def.style.value.children[i].value in xs
      {
        assert xs[i + 1] == def.style.value.children[i].value;
      }
    }
  }
}
