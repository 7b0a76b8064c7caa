/** The `DotWeb` compiler object. Its three accumulators are fields that
    `component` and `run` update in place; the rendering functions of the
    `Render` module describe, on a `State` value, what each of its other
    methods computes. */
module Interpreter {
  import opened JsText
  import opened IndentParser
  import opened Runtime
  import opened Registry
  import opened Render
  import opened RenderLaws
  import Document

  class DotWeb {
    /** Component name to definition. */
    var components: map<string, Definition>
    /** CSS lines, in first-insertion order, each once. */
    var styles: StyleSet
    /** One generated class per definition with a `*class` part. */
    var scripts: seq<string>
    const builtins: seq<string>

    /** A fresh compiler: nothing registered, collected or generated. */
    constructor()
      ensures components == map[] && styles == [] && scripts == [] && builtins == Builtins
    {
      components := map[];
      styles := [];
      scripts := [];
      builtins := Builtins;
    }

    function Snapshot(): State
      reads this
    {
      State(components, styles, scripts)
    }

    /** `wrapInViewPort(content)`, with this object's styles and scripts. */
    function WrapInViewPort(content: string): (page: string)
      reads this
      ensures StartsWith(page, Document.Doctype)
      ensures Framed(page, Document.Doctype + Document.DefaultTop, Document.StyleBlock(styles), Document.PageTail(content, scripts))
    {
      Document.WrapInViewPort(styles, scripts, content)
    }

    /** `component(node)`: classify the children (a later child of a kind
        overriding an earlier one), register the definition, add its styles one
        by one, and build its class text by appending. */
    method Component(node: Tree) returns (r: Result<string>)
      modifies this
      ensures Define(old(Snapshot()), node) == Outcome(Snapshot(), r)
    {
      ghost var st0 := Snapshot();
      var name := NameOf(node.value);
      var structure, style, behaviour := Classify(node.children);
      var def := Definition(name, structure, style, behaviour);
      var styles1 := DefinitionStyles(styles, name, style);
      var scripts1;
      scripts1, r := DefinitionScript(scripts, name, behaviour);
      DefineState(st0, node, def, styles1, scripts1, r);
      components := components[NameText(name) := def];
      styles := styles1;
      scripts := scripts1;
    }

    /** `run(tree)`: render each top-level node with an empty scope, keeping the
        accumulators the renders leave behind, then wrap the joined result
        unless it already is a page. */
    method Run(tree: Tree, fuel: nat, eval: Evaluator) returns (r: Result<string>)
      modifies this
      ensures Compile(old(Snapshot()), tree, fuel, eval) == Outcome(Snapshot(), r)
    {
      ghost var st0 := Snapshot();
      var parts, error := RenderTopLevel(tree.children, fuel, eval);
      if error.Some? {
        CompileThrown(st0, tree, fuel, eval);
        return Err(error.value);
      }
      CompileDone(st0, tree, fuel, eval);
      var result := Concat(parts);
      if StartsWith(result, Document.Doctype) {
        r := Ok(result);
      } else {
        r := Ok(WrapInViewPort(result));
      }
    }

    /** `tree.children.map(n => this.node(n, {}))`, with the accumulators
        updated after each node; a throw ends it. */
    method RenderTopLevel(children: seq<Tree>, fuel: nat, eval: Evaluator) returns (parts: seq<string>, error: Option<Error>)
      modifies this
      ensures var all := RenderAll(fuel, children, map[], old(Snapshot()), eval);
        && Snapshot() == all.st
        && (all.Done? <==> error.None?)
        && (all.Done? ==> parts == all.value)
        && (all.Thrown? ==> error == Some(all.error))
    {
      ghost var st0 := Snapshot();
      parts := [];
      assert children[0..] == children;
      for i := 0 to |children|
        invariant RenderAll(fuel, children, map[], st0, eval) == Prepend(parts, RenderAll(fuel, children[i..], map[], Snapshot(), eval))
      {
        var step := RenderNode(fuel, children[i], map[], Snapshot(), eval);
        TopLevelStep(fuel, children, i, parts, Snapshot(), eval);
        components, styles, scripts := step.st.components, step.st.styles, step.st.scripts;
        if step.Thrown? {
          return parts, Some(step.error);
        }
        parts := parts + [step.value];
      }
      assert children[|children|..] == [];
      error := None;
    }
  }

  /** The renders already made, `parts`, followed by those of the nodes left. */
  function Prepend(parts: seq<string>, rest: Step<seq<string>>): (r: Step<seq<string>>)
    ensures r.st == rest.st && (r.Done? <==> rest.Done?)
    ensures rest.Done? ==> r.value == parts + rest.value
    ensures rest.Thrown? ==> r == rest
    ensures parts == [] ==> r == rest
  {
    if rest.Done? then
      assert parts == [] ==> parts + rest.value == rest.value && rest == Done(rest.value, rest.st);
      Done(parts + rest.value, rest.st)
    else rest
  }

  /** One top-level node rendered: a throw ends the list, otherwise its render
      joins the parts and the nodes after it start from the state it left. */
  lemma TopLevelStep(fuel: nat, children: seq<Tree>, i: nat, parts: seq<string>, st: State, eval: Evaluator)
    requires i < |children|
    ensures var step := RenderNode(fuel, children[i], map[], st, eval);
      Prepend(parts, RenderAll(fuel, children[i..], map[], st, eval))
        == if step.Thrown? then Thrown(step.error, step.st)
           else Prepend(parts + [step.value], RenderAll(fuel, children[i + 1..], map[], step.st, eval))
  {
    var rest := children[i..];
    assert rest[0] == children[i] && rest[1..] == children[i + 1..];
    RenderAllCons(fuel, rest, map[], st, eval);
    var step := RenderNode(fuel, children[i], map[], st, eval);
    if step.Done? {
      var after := RenderAll(fuel, children[i + 1..], map[], step.st, eval);
      if after.Done? {
        assert parts + ([step.value] + after.value) == parts + [step.value] + after.value;
      }
    }
  }

  lemma RenderAllCons(fuel: nat, nodes: seq<Tree>, scope: Scope, st: State, eval: Evaluator)
    requires nodes != []
    ensures var first := RenderNode(fuel, nodes[0], scope, st, eval);
      RenderAll(fuel, nodes, scope, st, eval)
        == if first.Thrown? then Thrown(first.error, first.st)
           else Prepend([first.value], RenderAll(fuel, nodes[1..], scope, first.st, eval))
  {
  }

  /** What `component` leaves behind, stated on the parts it computes. */
  lemma DefineState(st: State, node: Tree, def: Definition, styles: StyleSet, scripts: seq<string>, r: Result<string>)
    requires def == DefinitionOf(node)
    requires def.style.Some? ==> styles == AddStyles(st.styles, StyleLines(def.name, def.style.value))
    requires def.style.None? ==> styles == st.styles
    requires scripts == if def.behaviour.Some? && def.name.Some? then st.scripts + [ClassCode(def.name.value, def.behaviour.value)] else st.scripts
    requires r == if def.behaviour.Some? && def.name.None? then Err(UnnamedClass) else Ok("")
    ensures Define(st, node) == Outcome(State(st.components[NameText(def.name) := def], styles, scripts), r)
  {
    assert Define(st, node) == Record(st, def);
  }

  lemma CompileDone(st: State, tree: Tree, fuel: nat, eval: Evaluator)
    requires RenderAll(fuel, tree.children, map[], st, eval).Done?
    ensures var all := RenderAll(fuel, tree.children, map[], st, eval);
      Compile(st, tree, fuel, eval) == Finish(Concat(all.value), all.st)
  {
  }

  lemma CompileThrown(st: State, tree: Tree, fuel: nat, eval: Evaluator)
    requires RenderAll(fuel, tree.children, map[], st, eval).Thrown?
    ensures var all := RenderAll(fuel, tree.children, map[], st, eval);
      Compile(st, tree, fuel, eval) == Thrown(all.error, all.st)
  {
  }

  /** The `forEach` over a definition's children: `*struct`, `*style` and
      `*class...` children fill their part, a later one replacing an earlier one. */
  method Classify(children: seq<Tree>) returns (structure: Option<Tree>, style: Option<Tree>, behaviour: Option<Tree>)
    ensures structure == LastOf(children, StructPart)
    ensures style == LastOf(children, StylePart)
    ensures behaviour == LastOf(children, ClassPart)
  {
    structure, style, behaviour := None, None, None;
    for i := 0 to |children|
      invariant structure == LastOf(children[..i], StructPart)
      invariant style == LastOf(children[..i], StylePart)
      invariant behaviour == LastOf(children[..i], ClassPart)
    {
      var c := children[i];
      assert children[..i + 1][..i] == children[..i];
      if c.value == "*struct" {
        structure := Some(c);
      } else if c.value == "*style" {
        style := Some(c);
      } else if StartsWith(c.value, "*class") {
        behaviour := Some(c);
      }
    }
    assert children[..|children|] == children;
  }

  /** The `*style` part of `component`: its lines added, when there is one. */
  method DefinitionStyles(styles0: StyleSet, name: Option<string>, style: Option<Tree>) returns (styles: StyleSet)
    ensures style.Some? ==> styles == AddStyles(styles0, StyleLines(name, style.value))
    ensures style.None? ==> styles == styles0
  {
    styles := styles0;
    if style.Some? {
      styles := AddStyleLines(styles0, name, style.value);
    }
  }

  /** The `*class` part of `component`: an unnamed definition throws, a named
      one has its class text appended to the scripts. */
  method DefinitionScript(scripts0: seq<string>, name: Option<string>, behaviour: Option<Tree>)
    returns (scripts: seq<string>, r: Result<string>)
    ensures scripts == if behaviour.Some? && name.Some? then scripts0 + [ClassCode(name.value, behaviour.value)] else scripts0
    ensures r == if behaviour.Some? && name.None? then Err(UnnamedClass) else Ok("")
  {
    scripts := scripts0;
    r := Ok("");
    if behaviour.Some? {
      if name.None? {
        r := Err(UnnamedClass);
      } else {
        var classCode := BuildClass(name.value, behaviour.value);
        scripts := scripts0 + [classCode];
      }
    }
  }

  /** `styles.add` of the comment line, then of every line of the `*style`
      block, or of its single-line form. */
  method AddStyleLines(styles0: StyleSet, name: Option<string>, style: Tree) returns (styles: StyleSet)
    ensures styles == AddStyles(styles0, StyleLines(name, style))
  {
    var comment := StyleComment(name);
    if |style.children| > 0 {
      styles := AddBlockLines(styles0, comment, style.children);
    } else {
      styles := AddSingleLine(styles0, comment, style.value);
    }
  }

  method AddSingleLine(styles0: StyleSet, comment: string, styleValue: string) returns (styles: StyleSet)
    ensures var inline := InlineStyle(styleValue);
      styles == AddStyles(styles0, if inline != "" then [comment, inline] else [comment])
  {
    styles := AddStyle(styles0, comment);
    var inline := InlineStyle(styleValue);
    if inline != "" {
      AddStylesTwo(styles0, comment, inline);
      styles := AddStyle(styles, inline);
    } else {
      AddStylesOne(styles0, comment);
    }
  }

  method AddBlockLines(styles0: StyleSet, comment: string, cs: seq<Tree>) returns (styles: StyleSet)
    ensures styles == AddStyles(styles0, [comment] + Values(cs))
  {
    styles := AddStyle(styles0, comment);
    AddStylesOne(styles0, comment);
    assert [comment] == [comment] + Values(cs[..0]);
    for j := 0 to |cs|
      invariant styles == AddStyles(styles0, [comment] + Values(cs[..j]))
    {
      AddStylesSnoc(styles0, [comment] + Values(cs[..j]), cs[j].value);
      NextLine(comment, cs, j);
      styles := AddStyle(styles, cs[j].value);
    }
    assert cs[..|cs|] == cs;
  }

  lemma NextLine(comment: string, cs: seq<Tree>, j: nat)
    requires j < |cs|
    ensures [comment] + Values(cs[..j + 1]) == [comment] + Values(cs[..j]) + [cs[j].value]
  {
    assert cs[..j + 1][..j] == cs[..j];
  }

  /** The generated class, built by appending each member, then the closing
      brace and the instantiation hook. */
  method BuildClass(name: string, behaviour: Tree) returns (classCode: string)
    ensures classCode == ClassCode(name, behaviour)
  {
    classCode := "class " + ClassName(name) + " {\n";
    var members := behaviour.children;
    for m := 0 to |members|
      invariant classCode == ClassHeader(name) + MembersCode(members[..m])
    {
      assert members[..m + 1][..m] == members[..m];
      var before := classCode;
      classCode := AppendMember(classCode, members[m]);
      ConcatAssociative(ClassHeader(name), MembersCode(members[..m]), MemberCode(members[m]));
    }
    assert members[..|members|] == members;
    classCode := classCode + ClassFooter(name);
  }

  /** One member appended: a constructor or method header, its body lines four
      spaces in, and its closing brace; or a plain line. */
  method AppendMember(code0: string, member: Tree) returns (code: string)
    ensures code == code0 + MemberCode(member)
  {
    if member.value == "constructor" {
      code := code0 + "  constructor(element) {\n";
      code := AppendBody(code, member.children);
      code := code + "  }\n";
      MemberPieces(code0, "  constructor(element) {\n", BodyCode(member.children));
    } else if '(' in member.value && ')' in member.value {
      code := code0 + "  " + member.value + " {\n";
      code := AppendBody(code, member.children);
      code := code + "  }\n";
      MemberPieces(code0, "  " + member.value + " {\n", BodyCode(member.children));
    } else {
      code := code0 + "  " + member.value + "\n";
    }
  }

  lemma MemberPieces(code0: string, head: string, body: string)
    ensures code0 + head + body + "  }\n" == code0 + (head + body + "  }\n")
  {
  }

  method AppendBody(code0: string, lines: seq<Tree>) returns (code: string)
    ensures code == code0 + BodyCode(lines)
  {
    code := code0;
    for l := 0 to |lines|
      invariant code == code0 + BodyCode(lines[..l])
    {
      assert lines[..l + 1][..l] == lines[..l];
      code := code + "    " + lines[l].value + "\n";
    }
    assert lines[..|lines|] == lines;
  }
}
