/** The indent parser of dotweb.js (`parseIndentTree`): source text becomes a
    tree whose shape follows indentation. A line's parent is the nearest earlier
    line with a strictly smaller indent, or the synthetic root (indent -1). */
module IndentParser {
  import opened JsText

  /** One non-blank source line: its trimmed text and its count of leading spaces. */
  datatype Line = Line(value: string, indent: nat)

  /** A node of the parsed tree: `{ value, indent, children }`. */
  datatype Tree = Node(value: string, indent: int, children: seq<Tree>)

  /** `code.replace(/\t/g, "  ")` */
  function ExpandTabs(code: string): (r: string)
    ensures '\t' !in r
    ensures '\t' !in code ==> r == code
  {
    if code == [] then []
    else (if code[0] == '\t' then "  " else [code[0]]) + ExpandTabs(code[1..])
  }

  /** Tabs are replaced piecewise: expanding a concatenation expands each part. */
  lemma {:induction false} ExpandTabsAppend(a: string, b: string)
    ensures ExpandTabs(a + b) == ExpandTabs(a) + ExpandTabs(b)
  {
    if a != [] {
      ExpandTabsAppend(a[1..], b);
      assert (a + b)[0] == a[0] && (a + b)[1..] == a[1..] + b;
      var h := if a[0] == '\t' then "  " else [a[0]];
      assert ExpandTabs(a + b) == h + ExpandTabs(a[1..] + b);
      ConcatAssociative(h, ExpandTabs(a[1..]), ExpandTabs(b));
    } else {
      assert a + b == b;
    }
  }

  /** Each tab becomes exactly two spaces, wherever it stands, and the text
      around it is expanded on its own. */
  lemma ExpandTab(a: string, b: string)
    ensures ExpandTabs(a + "\t" + b) == ExpandTabs(a) + "  " + ExpandTabs(b)
  {
    ExpandTabsAppend(a + "\t", b);
    ExpandTabsAppend(a, "\t");
    assert ExpandTabs("\t") == "  " + ExpandTabs([]);
  }

  /** `line.match(/^ * /)[0].length`: the run of U+0020 at the start of a line. */
  function LeadingSpaces(l: string): (n: nat)
    ensures n <= |l|
    ensures forall i :: 0 <= i < n ==> l[i] == ' '
    ensures n == |l| || l[n] != ' '
  {
    if l != [] && l[0] == ' ' then 1 + LeadingSpaces(l[1..]) else 0
  }

  predicate IsBlank(l: string) {
    Trim(l) == ""
  }

  /** What one source row contributes: nothing when it is blank, otherwise one
      line with its trimmed text and its leading-space count. */
  function RowLines(row: string): (ls: seq<Line>)
    ensures |ls| <= 1
  {
    if IsBlank(row) then [] else [Line(Trim(row), LeadingSpaces(row))]
  }

  /** `.filter(l => l.trim())` followed by the per-line `indent` and `value`. */
  function ToLines(rows: seq<string>): (items: seq<Line>)
    ensures |items| <= |rows|
  {
    if rows == [] then [] else RowLines(rows[0]) + ToLines(rows[1..])
  }

  /** The non-blank lines of the source, in order, after tab expansion. */
  function Items(code: string): seq<Line>
  {
    ToLines(Split(ExpandTabs(code), '\n'))
  }

  /** Indent of line `k`, where `k == -1` stands for the root. */
  function IndentOf(items: seq<Line>, k: int): int
    requires -1 <= k < |items|
  {
    if k == -1 then -1 else items[k].indent
  }

  /** The last index `p <= j` whose indent is below `bound`, or -1 for the root. */
  function NearestBelow(items: seq<Line>, bound: nat, j: int): (p: int)
    requires -1 <= j < |items|
    ensures -1 <= p <= j
    ensures p >= 0 ==> items[p].indent < bound
    ensures forall m :: p < m <= j ==> items[m].indent >= bound
    decreases j + 1
  {
    if j < 0 then -1 else if items[j].indent < bound then j else NearestBelow(items, bound, j - 1)
  }

  /** The parent of line `k`: the nearest earlier line with a strictly smaller
      indent, or the root (-1) when there is none. */
  function Parent(items: seq<Line>, k: nat): (p: int)
    requires k < |items|
    ensures -1 <= p < k
    ensures IndentOf(items, p) < items[k].indent
    ensures forall m :: p < m < k ==> items[m].indent >= items[k].indent
  {
    NearestBelow(items, items[k].indent, k - 1)
  }

  /** The nearest-smaller-indent rule has exactly one answer. */
  lemma ParentUnique(items: seq<Line>, k: nat, a: int)
    requires k < |items| && -1 <= a < k
    requires IndentOf(items, a) < items[k].indent
    requires forall m :: a < m < k ==> items[m].indent >= items[k].indent
    ensures Parent(items, k) == a
  {
  }

  /** The children of `p` among the lines `lo .. hi-1`, in source order. */
  function KidsIn(items: seq<Line>, p: int, lo: nat, hi: nat): (ks: seq<nat>)
    requires lo <= hi <= |items|
    ensures forall i :: 0 <= i < |ks| ==> lo <= ks[i] < hi && Parent(items, ks[i]) == p
    decreases hi - lo
  {
    if lo == hi then []
    else KidsIn(items, p, lo, hi - 1) + (if Parent(items, hi - 1) == p then [hi - 1] else [])
  }

  /** All children of `p`, in source order. */
  function Kids(items: seq<Line>, p: int): seq<nat>
  {
    KidsIn(items, p, 0, |items|)
  }

  /** The subtree rooted at line `p` (the whole tree for `p == -1`). */
  function Build(items: seq<Line>, p: int): Tree
    requires -1 <= p < |items|
    decreases |items| - p, 1, 0
  {
    Node(if p == -1 then "root" else items[p].value, IndentOf(items, p), BuildAll(items, Kids(items, p), p))
  }

  function BuildAll(items: seq<Line>, ks: seq<nat>, p: int): (ts: seq<Tree>)
    requires -1 <= p
    requires forall i :: 0 <= i < |ks| ==> p < ks[i] < |items|
    ensures |ts| == |ks|
    decreases |items| - p, 0, |ks|
  {
    if ks == [] then [] else [Build(items, ks[0])] + BuildAll(items, ks[1..], p)
  }

  /** What `parseIndentTree(code)` returns. */
  function IndentTree(code: string): Tree
  {
    Build(Items(code), -1)
  }

  /* ---------------- the stack-driven pass ---------------- */

  /** The open nodes after `k` lines: a chain from the root to line `k - 1`
      in which each entry is the parent of the next. */
  ghost predicate OpenChain(items: seq<Line>, stack: seq<int>, k: nat)
    requires k <= |items|
  {
    && |stack| >= 1 && stack[0] == -1
    && (forall s :: 1 <= s < |stack| ==> 0 <= stack[s] < k && Parent(items, stack[s]) == stack[s - 1])
    && (k == 0 ==> |stack| == 1)
    && (k > 0 ==> stack[|stack| - 1] == k - 1)
  }

  /** `kids[q + 1]` lists the children of `q` among the first `k` lines. */
  predicate KidsSoFar(items: seq<Line>, kids: seq<seq<nat>>, k: nat)
    requires k <= |items|
  {
    && |kids| == |items| + 1
    && forall j :: 0 <= j < |kids| ==> kids[j] == KidsIn(items, j - 1, 0, k)
  }

  /** Every child list of the arena lists later lines only. */
  predicate ArenaOk(items: seq<Line>, kids: seq<seq<nat>>)
  {
    && |kids| == |items| + 1
    && forall j :: 0 <= j < |kids| ==> forall i :: 0 <= i < |kids[j]| ==> j - 1 < kids[j][i] < |items|
  }

  /** The tree hanging below node `p` of an arena, `kids[p + 1]` holding the
      children of `p` (the root is `p == -1`). */
  function Grow(items: seq<Line>, kids: seq<seq<nat>>, p: int): Tree
    requires ArenaOk(items, kids) && -1 <= p < |items|
    decreases |items| - p, 1, 0
  {
    Node(if p == -1 then "root" else items[p].value, IndentOf(items, p), GrowAll(items, kids, kids[p + 1], p))
  }

  function GrowAll(items: seq<Line>, kids: seq<seq<nat>>, ks: seq<nat>, p: int): (ts: seq<Tree>)
    requires ArenaOk(items, kids) && -1 <= p
    requires forall i :: 0 <= i < |ks| ==> p < ks[i] < |items|
    ensures |ts| == |ks|
    decreases |items| - p, 0, |ks|
  {
    if ks == [] then [] else [Grow(items, kids, ks[0])] + GrowAll(items, kids, ks[1..], p)
  }

  lemma ArenaFromKids(items: seq<Line>, kids: seq<seq<nat>>)
    requires KidsSoFar(items, kids, |items|)
    ensures ArenaOk(items, kids)
    ensures forall q :: -1 <= q < |items| ==> kids[q + 1] == Kids(items, q)
  {
    forall j, i | 0 <= j < |kids| && 0 <= i < |kids[j]|
      ensures j - 1 < kids[j][i] < |items|
    {
      assert kids[j] == KidsIn(items, j - 1, 0, |items|);
      assert Parent(items, kids[j][i]) == j - 1;
    }
  }

  lemma {:induction false} GrowIsBuild(items: seq<Line>, kids: seq<seq<nat>>, p: int)
    requires ArenaOk(items, kids) && -1 <= p < |items|
    requires forall q :: -1 <= q < |items| ==> kids[q + 1] == Kids(items, q)
    ensures Grow(items, kids, p) == Build(items, p)
    decreases |items| - p, 1, 0
  {
    GrowAllIsBuildAll(items, kids, Kids(items, p), p);
  }

  lemma {:induction false} GrowAllIsBuildAll(items: seq<Line>, kids: seq<seq<nat>>, ks: seq<nat>, p: int)
    requires ArenaOk(items, kids) && -1 <= p
    requires forall i :: 0 <= i < |ks| ==> p < ks[i] < |items|
    requires forall q :: -1 <= q < |items| ==> kids[q + 1] == Kids(items, q)
    ensures GrowAll(items, kids, ks, p) == BuildAll(items, ks, p)
    decreases |items| - p, 0, |ks|
  {
    if ks != [] {
      GrowIsBuild(items, kids, ks[0]);
      GrowAllIsBuildAll(items, kids, ks[1..], p);
    }
  }

  /** Popping an open node whose indent is not below `indent` keeps every line
      between the new top and line `k` at or above `indent`. */
  lemma PopKeepsInvariant(items: seq<Line>, stack: seq<int>, k: nat, indent: nat)
    requires k < |items|
    requires |stack| >= 1 && stack[0] == -1
    requires forall s :: 1 <= s < |stack| ==> 0 <= stack[s] < k && Parent(items, stack[s]) == stack[s - 1]
    requires IndentOf(items, stack[|stack| - 1]) >= indent
    requires forall m :: stack[|stack| - 1] < m < k ==> items[m].indent >= indent
    ensures |stack| >= 2
    ensures forall m :: stack[|stack| - 2] < m < k ==> items[m].indent >= indent
  {
    var top := stack[|stack| - 1];
    assert Parent(items, top) == stack[|stack| - 2];
  }

  /** Appending line `k` to the child list of its parent extends every child
      list from the first `k` lines to the first `k + 1`. */
  lemma AppendKeepsKids(items: seq<Line>, kids: seq<seq<nat>>, next: seq<seq<nat>>, k: nat, parent: int)
    requires k < |items| && -1 <= parent < k && KidsSoFar(items, kids, k)
    requires Parent(items, k) == parent
    requires next == kids[parent + 1 := kids[parent + 1] + [k]]
    ensures KidsSoFar(items, next, k + 1)
  {
    forall j | 0 <= j < |next|
      ensures next[j] == KidsIn(items, j - 1, 0, k + 1)
    {
      assert KidsIn(items, j - 1, 0, k + 1) == kids[j] + (if parent == j - 1 then [k] else []);
    }
  }

  /** Pushing line `k` on a prefix of the open chain whose top is its parent
      gives the open chain after `k + 1` lines. */
  lemma PushKeepsChain(items: seq<Line>, stack: seq<int>, open: seq<int>, k: nat)
    requires k < |items| && OpenChain(items, stack, k)
    requires 1 <= |open| <= |stack| && open == stack[..|open|]
    requires open[|open| - 1] == Parent(items, k)
    ensures OpenChain(items, open + [k], k + 1)
  {
    var next := open + [k];
    forall s | 1 <= s < |next|
      ensures 0 <= next[s] < k + 1 && Parent(items, next[s]) == next[s - 1]
    {
      if s < |open| {
        assert next[s] == stack[s] && next[s - 1] == stack[s - 1];
      }
    }
  }

  /** `while (stack.at(-1).indent >= indent) stack.pop()`: closes every open node
      whose indent is not below that of line `k`; the node left on top is the
      parent of line `k`. */
  method CloseDeeper(items: seq<Line>, stack: seq<int>, k: nat) returns (open: seq<int>)
    requires k < |items| && OpenChain(items, stack, k)
    ensures 1 <= |open| <= |stack| && open == stack[..|open|]
    ensures open[|open| - 1] == Parent(items, k)
    ensures OpenChain(items, open + [k], k + 1)
  {
    var indent := items[k].indent;
    open := stack;
    while IndentOf(items, open[|open| - 1]) >= indent
      invariant 1 <= |open| <= |stack| && open == stack[..|open|]
      invariant forall m :: open[|open| - 1] < m < k ==> items[m].indent >= indent
      decreases |open|
    {
      PopKeepsInvariant(items, open, k, indent);
      open := open[..|open| - 1];
    }
    ParentUnique(items, k, open[|open| - 1]);
    PushKeepsChain(items, stack, open, k);
  }

  /** The handling of line `k`: close the deeper open nodes, append `k` to the
      child list of the node left on top, and open `k`. */
  method AddLine(items: seq<Line>, kids: seq<seq<nat>>, stack: seq<int>, k: nat)
    returns (kids': seq<seq<nat>>, stack': seq<int>)
    requires k < |items| && KidsSoFar(items, kids, k) && OpenChain(items, stack, k)
    ensures KidsSoFar(items, kids', k + 1) && OpenChain(items, stack', k + 1)
  {
    var open := CloseDeeper(items, stack, k);
    var parent := open[|open| - 1];
    kids' := kids[parent + 1 := kids[parent + 1] + [k]];
    AppendKeepsKids(items, kids, kids', k, parent);
    stack' := open + [k];
  }

  /** The loop of `parseIndentTree`: one pass over the non-blank lines with an
      explicit stack of open nodes; each line is pushed onto the child list of
      the first open node with a smaller indent. Nodes are numbered by line;
      `kids[q + 1]` is the child list of node `q`, appended to in place. */
  method BuildTree(items: seq<Line>) returns (root: Tree)
    ensures root == Build(items, -1)
  {
    var kids: seq<seq<nat>> := seq(|items| + 1, _ => []);
    var stack: seq<int> := [-1];
    for k := 0 to |items|
      invariant KidsSoFar(items, kids, k)
      invariant OpenChain(items, stack, k)
    {
      kids, stack := AddLine(items, kids, stack, k);
    }
    ArenaFromKids(items, kids);
    root := Grow(items, kids, -1);
    GrowIsBuild(items, kids, -1);
  }

  /** `parseIndentTree(code)`: the lines of the source, then the stack pass. */
  method ParseIndentTree(code: string) returns (root: Tree)
    ensures root == IndentTree(code)
    ensures root.value == "root" && root.indent == -1
  {
    var items := Items(code);
    root := BuildTree(items);
  }
}
