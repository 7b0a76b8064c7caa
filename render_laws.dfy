/** What rendering promises: the dispatch of `node`, the shape of a component
    use and of its scope, that the accumulators only grow, and that `run`
    always yields a page. */
module RenderLaws {
  import opened JsText
  import opened IndentParser
  import opened Runtime
  import opened Registry
  import opened Props
  import opened Elements
  import opened TextExpr
  import opened Document
  import opened Render

  /** A prop directive renders as the empty string and changes nothing. */
  lemma DirectiveRendersEmpty(fuel: nat, node: Tree, scope: Scope, st: State, eval: Evaluator)
    requires fuel > 0 && StartsWith(node.value, "*")
    ensures RenderNode(fuel, node, scope, st, eval) == Done("", st)
  {
    assert node.value[0] == '*' && "ViewPort"[0] == 'V';
    assert node.value !in Builtins;
  }

  /** A `$component NAME` line renders as `""` (or throws for an unnamed
      `*class`), and stores its definition under NAME, replacing an earlier one. */
  lemma DefinitionLine(fuel: nat, node: Tree, scope: Scope, st: State, eval: Evaluator)
    requires fuel > 0 && StartsWith(node.value, "$component")
    ensures var r := RenderNode(fuel, node, scope, st, eval);
      && r == Define(st, node)
      && (r.Done? ==> r.value == "")
      && r.st.components[NameText(NameOf(node.value))] == DefinitionOf(node)
  {
    DefineRendersEmpty(st, node);
  }

  /** A registered component without `*struct` renders as `""`. */
  lemma UseWithoutStructure(fuel: nat, node: Tree, scope: Scope, st: State, eval: Evaluator)
    requires node.value in st.components && st.components[node.value].structure.None?
    ensures UseComponent(fuel, node, scope, st, eval) == Done("", st)
  {
  }

  /** A component with `*struct` renders inside `<div data-component="NAME">`:
      the children are split into props, blocks and slot, the component's
      scope is built from them, and between the tags stand the renders of the
      structure's children in that scope, joined. */
  lemma UseWraps(fuel: nat, node: Tree, scope: Scope, st: State, eval: Evaluator)
    requires node.value in st.components && st.components[node.value].structure.Some?
    requires UseComponent(fuel, node, scope, st, eval).Done?
    ensures var comp := st.components[node.value];
      var inv := Partition(node.children, scope, eval);
      && inv.Ok?
      && var inner := ComponentScope(fuel, inv.value, st, eval);
      && inner.Done?
      && var parts := RenderAll(fuel, comp.structure.value.children, inner.value, inner.st, eval);
      && parts.Done?
      && Framed(UseComponent(fuel, node, scope, st, eval).value,
                "<div data-component=\"" + NameText(comp.name) + "\">", Concat(parts.value), "</div>")
  {
  }

  /** An element renders as its start tag, then its inline text (the rest of
      the line, interpolated, or nothing), then the joined renders of its
      children, then its end tag. */
  lemma ElementWraps(fuel: nat, node: Tree, scope: Scope, st: State, eval: Evaluator)
    requires RenderElement(fuel, node, scope, st, eval).Done?
    ensures var h := ElementHead(SplitHead(node.value).0);
      var rest := SplitHead(node.value).1;
      var inline := if rest != "" then Show(Text(rest, scope, eval)) else "";
      var parts := RenderAll(fuel, node.children, scope, st, eval);
      && parts.Done?
      && Framed(RenderElement(fuel, node, scope, st, eval).value,
                "<" + h.tag + h.attrs + ">", inline + Concat(parts.value), "</" + h.tag + ">")
  {
  }

  /** `ViewPort` renders its non-prop children in the caller's scope, joins
      them, and puts them in the page its `*` props describe, with the styles
      and scripts as those children left them. */
  lemma ViewPortWraps(fuel: nat, node: Tree, scope: Scope, st: State, eval: Evaluator)
    requires fuel > 0 && node.value == "ViewPort"
    requires RenderNode(fuel, node, scope, st, eval).Done?
    ensures var parts := RenderAll(fuel - 1, NonPropChildren(node.children), scope, st, eval);
      && parts.Done?
      && RenderNode(fuel, node, scope, st, eval)
        == Done(ViewPortPage(ViewPortProps(node.children), parts.st.styles, parts.st.scripts, Concat(parts.value)), parts.st)
  {
    assert KindOf(node.value, st.components) == BuiltinKind;
  }

  /** In the scope `s` that the blocks built, the key of block `i` holds the
      joined render of that block's children, rendered in the scope and state
      the blocks before it left behind. */
  predicate BlockValue(fuel: nat, blocks: seq<(string, Tree)>, i: nat, s: Scope, scope: Scope, st: State, eval: Evaluator)
    requires i < |blocks|
  {
    var pre := RenderBlocks(fuel, blocks[..i], scope, st, eval);
    && pre.Done?
    && var parts := RenderAll(fuel, blocks[i].1.children, pre.value, pre.st, eval);
    && parts.Done?
    && blocks[i].0 in s
    && s[blocks[i].0] == Str(Concat(parts.value))
  }

  /** The block props add their keys, each holding a string; every other key
      of the scope keeps its value. */
  lemma {:induction false} BlocksScope(fuel: nat, blocks: seq<(string, Tree)>, scope: Scope, st: State, eval: Evaluator)
    requires RenderBlocks(fuel, blocks, scope, st, eval).Done?
    ensures var s := RenderBlocks(fuel, blocks, scope, st, eval).value;
      && (forall k :: k in s <==> k in scope || k in Keys(blocks))
      && (forall k :: k in Keys(blocks) ==> s[k].Str?)
      && (forall k :: k in scope && k !in Keys(blocks) ==> s[k] == scope[k])
    decreases |blocks|
  {
    if blocks != [] {
      var parts := RenderAll(fuel, blocks[0].1.children, scope, st, eval);
      var next := scope[blocks[0].0 := Str(Concat(parts.value))];
      BlocksScope(fuel, blocks[1..], next, parts.st, eval);
      assert Keys(blocks) == [blocks[0].0] + Keys(blocks[1..]);
    }
  }

  /** The last block with a given key sets what that key holds: the joined
      render of its children, in the scope the blocks before it built. */
  lemma {:induction false} BlocksLastWins(fuel: nat, blocks: seq<(string, Tree)>, scope: Scope, st: State, eval: Evaluator)
    requires RenderBlocks(fuel, blocks, scope, st, eval).Done?
    ensures forall i :: 0 <= i < |blocks| && blocks[i].0 !in Keys(blocks[i + 1..]) ==>
      BlockValue(fuel, blocks, i, RenderBlocks(fuel, blocks, scope, st, eval).value, scope, st, eval)
    decreases |blocks|
  {
    if blocks != [] {
      var s := RenderBlocks(fuel, blocks, scope, st, eval).value;
      var parts := RenderAll(fuel, blocks[0].1.children, scope, st, eval);
      var next := scope[blocks[0].0 := Str(Concat(parts.value))];
      BlocksScope(fuel, blocks[1..], next, parts.st, eval);
      BlocksLastWins(fuel, blocks[1..], next, parts.st, eval);
      forall i | 0 <= i < |blocks| && blocks[i].0 !in Keys(blocks[i + 1..])
        ensures BlockValue(fuel, blocks, i, s, scope, st, eval)
      {
        if i == 0 {
          assert blocks[..0] == [];
          assert blocks[1..] == blocks[0 + 1..];
        } else {
          assert blocks[1..][i - 1 + 1..] == blocks[i + 1..];
          BlockValueShift(fuel, blocks, i, s, scope, st, eval);
        }
      }
    }
  }

  /** Block `i` sees, after the first block, what block `i - 1` of the rest sees. */
  lemma BlockValueShift(fuel: nat, blocks: seq<(string, Tree)>, i: nat, s: Scope, scope: Scope, st: State, eval: Evaluator)
    requires 0 < i < |blocks|
    requires RenderAll(fuel, blocks[0].1.children, scope, st, eval).Done?
    requires var parts := RenderAll(fuel, blocks[0].1.children, scope, st, eval);
      BlockValue(fuel, blocks[1..], i - 1, s, scope[blocks[0].0 := Str(Concat(parts.value))], parts.st, eval)
    ensures BlockValue(fuel, blocks, i, s, scope, st, eval)
  {
    assert blocks[..i][0] == blocks[0] && blocks[..i][1..] == blocks[1..][..i - 1];
    assert blocks[1..][i - 1] == blocks[i];
  }

  /** The scope a component's structure sees holds exactly the inline props,
      `slot` and the block props. `slot` is the render of the slot nodes in the
      scope of the inline props alone, unless a block prop named `slot`
      replaces it; an inline prop keeps its value unless a block prop or the
      slot reuses its name. */
  lemma InvocationScope(fuel: nat, inv: Invocation, st: State, eval: Evaluator)
    requires ComponentScope(fuel, inv, st, eval).Done?
    ensures var s := ComponentScope(fuel, inv, st, eval).value;
      var slot := RenderAll(fuel, inv.slotNodes, inv.props, st, eval);
      && (forall k :: k in s <==> k in inv.props || k == "slot" || k in Keys(inv.blocks))
      && slot.Done?
      && ("slot" !in Keys(inv.blocks) ==> s["slot"] == Strs(slot.value))
      && (forall k :: k in Keys(inv.blocks) ==> s[k].Str?)
      && (forall k :: k in inv.props && k != "slot" && k !in Keys(inv.blocks) ==> s[k] == inv.props[k])
  {
    var slot := RenderAll(fuel, inv.slotNodes, inv.props, st, eval);
    BlocksScope(fuel, inv.blocks, inv.props["slot" := Strs(slot.value)], slot.st, eval);
  }

  /** In the scope of a component use, the last block prop with a key holds
      the joined render of its children, rendered in the scope of the inline
      props, `slot` and the block props before it. */
  lemma InvocationBlocks(fuel: nat, inv: Invocation, st: State, eval: Evaluator)
    requires ComponentScope(fuel, inv, st, eval).Done?
    ensures var slot := RenderAll(fuel, inv.slotNodes, inv.props, st, eval);
      && slot.Done?
      && forall i :: 0 <= i < |inv.blocks| && inv.blocks[i].0 !in Keys(inv.blocks[i + 1..]) ==>
           BlockValue(fuel, inv.blocks, i, ComponentScope(fuel, inv, st, eval).value,
                      inv.props["slot" := Strs(slot.value)], slot.st, eval)
  {
    var slot := RenderAll(fuel, inv.slotNodes, inv.props, st, eval);
    BlocksLastWins(fuel, inv.blocks, inv.props["slot" := Strs(slot.value)], slot.st, eval);
  }

  /** `run` always produces a page. */
  lemma RunIsPage(st: State, tree: Tree, fuel: nat, eval: Evaluator)
    requires Compile(st, tree, fuel, eval).Done?
    ensures StartsWith(Compile(st, tree, fuel, eval).value, Doctype)
  {
  }

  /** A program whose first top-level line is `ViewPort` is not wrapped again:
      `run` returns the joined renders as they are. */
  lemma ViewPortNotWrapped(st: State, tree: Tree, fuel: nat, eval: Evaluator)
    requires tree.children != [] && tree.children[0].value == "ViewPort"
    requires RenderAll(fuel, tree.children, map[], st, eval).Done?
    ensures Compile(st, tree, fuel, eval).value == Concat(RenderAll(fuel, tree.children, map[], st, eval).value)
  {
    var parts := RenderAll(fuel, tree.children, map[], st, eval).value;
    var first := RenderNode(fuel, tree.children[0], map[], st, eval);
    assert first.Done? && parts[0] == first.value;
    PrefixOfConcat(parts);
    StartsWithTransitive(Concat(parts), parts[0], Doctype);
  }

  lemma PrefixOfConcat(parts: seq<string>)
    requires parts != []
    ensures StartsWith(Concat(parts), parts[0])
  {
    StartsWithConcat(parts[0], Concat(parts[1..]));
  }

  /** Rendering one more node after a list: the renders of the list, then that
      node's render in the state the list left behind. */
  lemma {:induction false} RenderAllSnoc(fuel: nat, nodes: seq<Tree>, n: Tree, scope: Scope, st: State, eval: Evaluator)
    requires RenderAll(fuel, nodes, scope, st, eval).Done?
    ensures var before := RenderAll(fuel, nodes, scope, st, eval);
      var next := RenderNode(fuel, n, scope, before.st, eval);
      RenderAll(fuel, nodes + [n], scope, st, eval)
        == if next.Done? then Done(before.value + [next.value], next.st) else Thrown(next.error, next.st)
    decreases |nodes|
  {
    if nodes == [] {
      assert nodes + [n] == [n];
      RenderAllOne(fuel, n, scope, st, eval);
    } else {
      var first := RenderNode(fuel, nodes[0], scope, st, eval);
      assert (nodes + [n])[0] == nodes[0] && (nodes + [n])[1..] == nodes[1..] + [n];
      RenderAllSnoc(fuel, nodes[1..], n, scope, first.st, eval);
      var rest := RenderAll(fuel, nodes[1..], scope, first.st, eval);
      var next := RenderNode(fuel, n, scope, rest.st, eval);
      if next.Done? {
        assert [first.value] + (rest.value + [next.value]) == ([first.value] + rest.value) + [next.value];
      }
    }
  }

  /** A list of one node renders as that node. */
  lemma RenderAllOne(fuel: nat, n: Tree, scope: Scope, st: State, eval: Evaluator)
    ensures var next := RenderNode(fuel, n, scope, st, eval);
      RenderAll(fuel, [n], scope, st, eval)
        == if next.Done? then Done([] + [next.value], next.st) else Thrown(next.error, next.st)
  {
    var next := RenderNode(fuel, n, scope, st, eval);
    assert [n][0] == n && [n][1..] == [];
    if next.Done? {
      assert RenderAll(fuel, [n][1..], scope, next.st, eval) == Done([], next.st);
      assert [next.value] + [] == [] + [next.value];
    }
  }

  /** A throw ends the list: rendering more nodes after it throws the same. */
  lemma {:induction false} RenderAllStops(fuel: nat, nodes: seq<Tree>, k: nat, scope: Scope, st: State, eval: Evaluator)
    requires k <= |nodes| && RenderAll(fuel, nodes[..k], scope, st, eval).Thrown?
    ensures RenderAll(fuel, nodes, scope, st, eval) == RenderAll(fuel, nodes[..k], scope, st, eval)
    decreases k
  {
    if k > 0 && nodes[..k] != nodes {
      var first := RenderNode(fuel, nodes[0], scope, st, eval);
      assert nodes[..k][0] == nodes[0] && nodes[..k][1..] == nodes[1..][..k - 1];
      if first.Done? {
        RenderAllStops(fuel, nodes[1..], k - 1, scope, first.st, eval);
      }
    }
  }
}
