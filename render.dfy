/** `node` and the renderers it dispatches to. Rendering threads the
    interpreter's accumulators (`components`, `styles`, `scripts`) through a
    `State` value, because a definition met anywhere in the tree changes them
    for every node rendered after it. `fuel` bounds the depth of nested `node`
    calls; running out stands for the host's stack overflow, which a
    component that uses itself reaches. */
module Render {
  import opened JsText
  import opened IndentParser
  import opened Runtime
  import opened Registry
  import opened Props
  import opened Elements
  import opened TextExpr
  import opened Document

  /** `this.builtins` */
  const Builtins: seq<string> := ["ViewPort"]

  /** The branches of `node`, in the order it tries them. */
  datatype Kind = DefineKind | SlotKind | BuiltinKind | DirectiveKind | UseKind | ElementKind | TextKind

  /** The lines `node` handles before it looks at the registry: a definition,
      the slot, a built-in or a prop directive. */
  predicate Reserved(value: string) {
    StartsWith(value, "$component") || value == "$slot" || value in Builtins || StartsWith(value, "*")
  }

  /** Which branch of `node` a line takes: a definition, the slot, a built-in, a
      prop directive, a registered component, an element (a line starting with a
      lower-case letter), and otherwise text; the first test that holds wins. */
  function KindOf(value: string, components: map<string, Definition>): (k: Kind)
    ensures k == DefineKind <==> StartsWith(value, "$component")
    ensures k == SlotKind <==> value == "$slot"
    ensures k == BuiltinKind <==> value in Builtins
    ensures k == DirectiveKind <==> StartsWith(value, "*") && value !in Builtins
    ensures k == UseKind <==> !Reserved(value) && value in components
    ensures k == ElementKind <==> !Reserved(value) && value !in components && value != [] && 'a' <= value[0] <= 'z'
    ensures k == TextKind <==> !Reserved(value) && value !in components && (value == [] || !('a' <= value[0] <= 'z'))
  {
    if StartsWith(value, "$component") then
      assert value[..10][0] == '$';
      DefineKind
    else if value == "$slot" then
      assert value[0] == '$';
      SlotKind
    else if value in Builtins then
      assert value == "ViewPort" && value[0] == 'V';
      BuiltinKind
    else if StartsWith(value, "*") then
      assert value[0] == '*';
      DirectiveKind
    else if value in components then UseKind
    else if value != [] && 'a' <= value[0] <= 'z' then ElementKind
    else TextKind
  }

  /** `scope.slot?.join("") || ""`: a missing, `undefined` or `null` slot is
      empty; any value other than an array has no `join` and throws. */
  function SlotText(scope: Scope, st: State): (r: Step<string>)
    ensures r.st == st
    ensures r.Thrown? <==> "slot" in scope && !scope["slot"].Strs? && !scope["slot"].Undefined? && !scope["slot"].Null?
  {
    if "slot" !in scope then Done("", st)
    else match scope["slot"]
      case Strs(items) => Done(Concat(items), st)
      case Undefined => Done("", st)
      case Null => Done("", st)
      case _ => Thrown(SlotNotJoinable, st)
  }

  /** `<div data-component="NAME">content</div>` */
  function ComponentDiv(name: string, content: string): (r: string)
    ensures Framed(r, "<div data-component=\"" + name + "\">", content, "</div>")
  {
    var open := "<div data-component=\"" + name + "\">";
    FramedConcat(open, content, "</div>");
    open + content + "</div>"
  }

  /** `node(node, scope)` */
  function RenderNode(fuel: nat, node: Tree, scope: Scope, st: State, eval: Evaluator): (r: Step<string>)
    ensures Grows(st, r.st)
    ensures node.value == "ViewPort" && r.Done? ==> StartsWith(r.value, Doctype)
    decreases fuel, 0, 0
  {
    if fuel == 0 then Thrown(TooDeep, st)
    else match KindOf(node.value, st.components)
      case DefineKind => Define(st, node)
      case SlotKind => SlotText(scope, st)
      case BuiltinKind => Builtin(fuel - 1, node, scope, st, eval)
      case DirectiveKind => Done("", st)
      case UseKind => UseComponent(fuel - 1, node, scope, st, eval)
      case ElementKind => RenderElement(fuel - 1, node, scope, st, eval)
      case TextKind => Done(Show(Text(node.value, scope, eval)), st)
  }

  /** `nodes.map(n => this.node(n, scope))`, left to right; the first throw ends it. */
  function RenderAll(fuel: nat, nodes: seq<Tree>, scope: Scope, st: State, eval: Evaluator): (r: Step<seq<string>>)
    ensures r.Done? ==> |r.value| == |nodes|
    ensures Grows(st, r.st)
    decreases fuel, 1, |nodes|
  {
    if nodes == [] then Done([], st)
    else match RenderNode(fuel, nodes[0], scope, st, eval)
      case Thrown(e, st1) => Thrown(e, st1)
      case Done(x, st1) =>
        match RenderAll(fuel, nodes[1..], scope, st1, eval)
        case Thrown(e, st2) => Thrown(e, st2)
        case Done(xs, st2) => Done([x] + xs, st2)
  }

  /** The block props, in order: each is the joined render of its children,
      stored under its key in the scope that the next one and the structure see. */
  function RenderBlocks(fuel: nat, blocks: seq<(string, Tree)>, scope: Scope, st: State, eval: Evaluator): (r: Step<Scope>)
    ensures Grows(st, r.st)
    decreases fuel, 2, |blocks|
  {
    if blocks == [] then Done(scope, st)
    else match RenderAll(fuel, blocks[0].1.children, scope, st, eval)
      case Thrown(e, st1) => Thrown(e, st1)
      case Done(parts, st1) => RenderBlocks(fuel, blocks[1..], scope[blocks[0].0 := Str(Concat(parts))], st1, eval)
  }

  /** The scope of a component use: the inline props, then `slot` rendered in
      that scope, then the block props. */
  function ComponentScope(fuel: nat, inv: Invocation, st: State, eval: Evaluator): (r: Step<Scope>)
    ensures Grows(st, r.st)
    decreases fuel, 3, 0
  {
    match RenderAll(fuel, inv.slotNodes, inv.props, st, eval)
    case Thrown(e, st1) => Thrown(e, st1)
    case Done(slot, st1) => RenderBlocks(fuel, inv.blocks, inv.props["slot" := Strs(slot)], st1, eval)
  }

  /** `useComponent(node, parentScope)`. The caller's scope is used only to
      evaluate `{...}` prop values. */
  function UseComponent(fuel: nat, node: Tree, parentScope: Scope, st: State, eval: Evaluator): (r: Step<string>)
    ensures Grows(st, r.st)
    requires node.value in st.components
    decreases fuel, 4, 0
  {
    var comp := st.components[node.value];
    if comp.structure.None? then Done("", st)
    else match Partition(node.children, parentScope, eval)
      case Err(e) => Thrown(e, st)
      case Ok(inv) =>
        match ComponentScope(fuel, inv, st, eval)
        case Thrown(e, st1) => Thrown(e, st1)
        case Done(scope, st1) =>
          match RenderAll(fuel, comp.structure.value.children, scope, st1, eval)
          case Thrown(e, st2) => Thrown(e, st2)
          case Done(parts, st2) => Done(ComponentDiv(NameText(comp.name), Concat(parts)), st2)
  }

  /** `element(node, scope)`: the head token gives tag and attributes, the rest
      of the line is inline text, then the children. */
  function RenderElement(fuel: nat, node: Tree, scope: Scope, st: State, eval: Evaluator): (r: Step<string>)
    ensures Grows(st, r.st)
    decreases fuel, 4, 0
  {
    var (tagRaw, rest) := SplitHead(node.value);
    var inline := if rest != "" then Show(Text(rest, scope, eval)) else "";
    match RenderAll(fuel, node.children, scope, st, eval)
    case Thrown(e, st1) => Thrown(e, st1)
    case Done(parts, st1) => Done(ElementMarkup(ElementHead(tagRaw), inline, Concat(parts)), st1)
  }

  /** `builtin(node, scope)`: `ViewPort` renders its non-prop children and
      puts them in the page its props describe, with the styles and scripts
      collected so far (including by those children). */
  function Builtin(fuel: nat, node: Tree, scope: Scope, st: State, eval: Evaluator): (r: Step<string>)
    ensures Grows(st, r.st)
    ensures node.value == "ViewPort" && r.Done? ==> StartsWith(r.value, Doctype)
    decreases fuel, 4, 0
  {
    if node.value == "ViewPort" then
      match RenderAll(fuel, NonPropChildren(node.children), scope, st, eval)
      case Thrown(e, st1) => Thrown(e, st1)
      case Done(parts, st1) => Done(ViewPortPage(ViewPortProps(node.children), st1.styles, st1.scripts, Concat(parts)), st1)
    else Done("", st)
  }

  /** `run(tree)`: every top-level node rendered with an empty scope; the
      result is returned as it is when it already is a page, and wrapped in the
      default page otherwise. */
  function Compile(st: State, tree: Tree, fuel: nat, eval: Evaluator): (r: Step<string>)
    ensures Grows(st, r.st)
  {
    match RenderAll(fuel, tree.children, map[], st, eval)
    case Thrown(e, st1) => Thrown(e, st1)
    case Done(parts, st1) => Finish(Concat(parts), st1)
  }

  function Finish(body: string, st: State): (r: Step<string>)
    ensures r.Done? && r.st == st
    ensures StartsWith(body, Doctype) ==> r.value == body
    ensures !StartsWith(body, Doctype) ==> r.value == WrapInViewPort(st.styles, st.scripts, body)
  {
    Done(if StartsWith(body, Doctype) then body else WrapInViewPort(st.styles, st.scripts, body), st)
  }
}
