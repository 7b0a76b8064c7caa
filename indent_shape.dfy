/** What the tree built by `parseIndentTree` looks like: read in preorder it
    gives back the non-blank lines in source order, and every child is
    indented strictly deeper than its parent. */
module IndentShape {
  import opened JsText
  import opened IndentParser

  /** The value and indent of every node of a forest, in preorder. */
  function Outline(ts: seq<Tree>): seq<(string, int)>
    decreases ts
  {
    if ts == [] then [] else [(ts[0].value, ts[0].indent)] + Outline(ts[0].children) + Outline(ts[1..])
  }

  /** Lines `lo .. hi-1` as value/indent pairs. */
  function Pairs(items: seq<Line>, lo: nat, hi: nat): seq<(string, int)>
    requires lo <= hi <= |items|
    decreases hi - lo
  {
    if lo == hi then [] else [(items[lo].value, items[lo].indent)] + Pairs(items, lo + 1, hi)
  }

  lemma {:induction false} PairsSplit(items: seq<Line>, lo: nat, mid: nat, hi: nat)
    requires lo <= mid <= hi <= |items|
    ensures Pairs(items, lo, hi) == Pairs(items, lo, mid) + Pairs(items, mid, hi)
    decreases mid - lo
  {
    if lo < mid {
      PairsSplit(items, lo + 1, mid, hi);
    }
  }

  /** The end of the block of line `p`: the first later line that is not indented
      deeper than `p`, or `|items|`. For the root it is always `|items|`. */
  function End(items: seq<Line>, p: int): (e: nat)
    requires -1 <= p < |items|
    ensures p < e <= |items|
    ensures forall m :: p < m < e ==> items[m].indent > IndentOf(items, p)
    ensures e < |items| ==> items[e].indent <= IndentOf(items, p)
  {
    EndFrom(items, p, p + 1)
  }

  function EndFrom(items: seq<Line>, p: int, j: nat): (e: nat)
    requires -1 <= p < j <= |items|
    requires forall m :: p < m < j ==> items[m].indent > IndentOf(items, p)
    ensures j <= e <= |items|
    ensures forall m :: p < m < e ==> items[m].indent > IndentOf(items, p)
    ensures e < |items| ==> items[e].indent <= IndentOf(items, p)
    decreases |items| - j
  {
    if j == |items| || items[j].indent <= IndentOf(items, p) then j else EndFrom(items, p, j + 1)
  }

  /** Dropping a range without children of `p` from the top of a window. */
  lemma {:induction false} KidsInDropHigh(items: seq<Line>, p: int, lo: nat, mid: nat, hi: nat)
    requires lo <= mid <= hi <= |items|
    requires forall c :: mid <= c < hi ==> Parent(items, c) != p
    ensures KidsIn(items, p, lo, hi) == KidsIn(items, p, lo, mid)
    decreases hi
  {
    if mid < hi {
      KidsInDropHigh(items, p, lo, mid, hi - 1);
      assert Parent(items, hi - 1) != p;
      AppendNothing(KidsIn(items, p, lo, hi - 1));
    }
  }

  /** A window without children of `p` lists none. */
  lemma {:induction false} KidsInNone(items: seq<Line>, p: int, lo: nat, hi: nat)
    requires lo <= hi <= |items|
    requires forall c :: lo <= c < hi ==> Parent(items, c) != p
    ensures KidsIn(items, p, lo, hi) == []
    decreases hi
  {
    if lo < hi {
      KidsInNone(items, p, lo, hi - 1);
    }
  }

  /** Dropping a range without children of `p` from the bottom of a window. */
  lemma {:induction false} KidsInDropLow(items: seq<Line>, p: int, lo: nat, mid: nat, hi: nat)
    requires lo <= mid <= hi <= |items|
    requires forall c :: lo <= c < mid ==> Parent(items, c) != p
    ensures KidsIn(items, p, lo, hi) == KidsIn(items, p, mid, hi)
    decreases hi
  {
    if hi == mid {
      KidsInNone(items, p, lo, hi);
    } else {
      KidsInDropLow(items, p, lo, mid, hi - 1);
    }
  }

  /** A window starting at a child of `p` lists that child first. */
  lemma {:induction false} KidsInFirst(items: seq<Line>, p: int, lo: nat, hi: nat)
    requires lo < hi <= |items| && Parent(items, lo) == p
    ensures KidsIn(items, p, lo, hi) == [lo] + KidsIn(items, p, lo + 1, hi)
    decreases hi
  {
    var last := if Parent(items, hi - 1) == p then [hi - 1] else [];
    if hi > lo + 1 {
      KidsInFirst(items, p, lo, hi - 1);
      ConcatAssociative([lo], KidsIn(items, p, lo + 1, hi - 1), last);
    } else {
      assert KidsIn(items, p, lo, hi) == KidsIn(items, p, lo, lo) + [lo];
    }
  }

  /** Every child of `p` lies inside the block of `p`. */
  lemma KidsInsideBlock(items: seq<Line>, p: int)
    requires -1 <= p < |items|
    ensures Kids(items, p) == KidsIn(items, p, p + 1, End(items, p))
  {
    var e := End(items, p);
    forall c | e <= c < |items|
      ensures Parent(items, c) != p
    {
      var q := Parent(items, c);
      if q < e {
        assert items[e].indent >= items[c].indent;
      }
    }
    KidsInDropHigh(items, p, 0, e, |items|);
    KidsInDropLow(items, p, 0, p + 1, e);
  }

  /** The block of a child of `p` ends no later than the block of `p`, and where
      it ends inside the block of `p` the next child of `p` starts. */
  lemma NextSibling(items: seq<Line>, p: int, c: nat)
    requires -1 <= p < |items| && p < c < End(items, p) && Parent(items, c) == p
    ensures End(items, c) <= End(items, p)
    ensures End(items, c) == End(items, p) || Parent(items, End(items, c)) == p
    ensures forall m :: c < m < End(items, c) ==> Parent(items, m) != p
  {
    var e := End(items, c);
    var big := End(items, p);
    if big < |items| {
      assert items[big].indent < items[c].indent;
    }
    if e < big {
      ParentUnique(items, e, p);
    }
    forall m | c < m < e
      ensures Parent(items, m) != p
    {
      assert items[m].indent > items[c].indent;
    }
  }

  /** A child `c` of `p` is followed, among the children of `p`, by the ones
      from the end of its own block on. */
  lemma ChildThenSiblings(items: seq<Line>, p: int, c: nat)
    requires -1 <= p < |items| && p < c < End(items, p) && Parent(items, c) == p
    ensures End(items, c) <= End(items, p)
    ensures End(items, c) == End(items, p) || Parent(items, End(items, c)) == p
    ensures KidsIn(items, p, c, End(items, p)) == [c] + KidsIn(items, p, End(items, c), End(items, p))
  {
    NextSibling(items, p, c);
    KidsInFirst(items, p, c, End(items, p));
    KidsInDropLow(items, p, c + 1, End(items, c), End(items, p));
  }

  lemma OutlineOfChildren(items: seq<Line>, c: nat, rest: seq<nat>, p: int)
    requires -1 <= p < c < |items|
    requires forall i :: 0 <= i < |rest| ==> p < rest[i] < |items|
    ensures Outline(BuildAll(items, [c] + rest, p))
         == [(items[c].value, items[c].indent)] + Outline(Build(items, c).children) + Outline(BuildAll(items, rest, p))
  {
    var ts := BuildAll(items, [c] + rest, p);
    assert ts[0] == Build(items, c);
    assert ts[1..] == BuildAll(items, rest, p);
  }

  /** The children of line `p` (of the root for `p == -1`) read in preorder
      as the rest of its block. */
  lemma {:induction false} OutlineBelow(items: seq<Line>, p: int)
    requires -1 <= p < |items|
    ensures Outline(Build(items, p).children) == Pairs(items, p + 1, End(items, p))
    decreases |items| - p, |items| + 1
  {
    var ks := KidsIn(items, p, p + 1, End(items, p));
    KidsInsideBlock(items, p);
    assert Build(items, p).children == BuildAll(items, ks, p);
    FirstInBlock(items, p);
    OutlineFrom(items, p, p + 1);
  }

  /** The line right after `p`, when it is inside the block of `p`, is a child of `p`. */
  lemma FirstInBlock(items: seq<Line>, p: int)
    requires -1 <= p < |items|
    ensures p + 1 == End(items, p) || Parent(items, p + 1) == p
  {
    if p + 1 < End(items, p) {
      ParentUnique(items, p + 1, p);
    }
  }

  /** The forest hanging below `p`, from child `c` to the end of the block of `p`,
      reads in preorder as exactly the lines from `c` to that end. */
  lemma {:induction false} OutlineFrom(items: seq<Line>, p: int, c: nat)
    requires -1 <= p < |items| && p < c <= End(items, p)
    requires c == End(items, p) || Parent(items, c) == p
    ensures Outline(BuildAll(items, KidsIn(items, p, c, End(items, p)), p)) == Pairs(items, c, End(items, p))
    decreases |items| - p, End(items, p) - c
  {
    var big := End(items, p);
    if c < big {
      var e := End(items, c);
      ChildThenSiblings(items, p, c);
      OutlineBelow(items, c);
      OutlineFrom(items, p, e);
      OutlineJoin(items, p, c, e, big, KidsIn(items, p, e, big));
    }
  }

  /** The outline of a child followed by its siblings, from the outlines of
      the child's subtree and of the siblings. */
  lemma OutlineJoin(items: seq<Line>, p: int, c: nat, e: nat, big: nat, rest: seq<nat>)
    requires -1 <= p < c < e <= big <= |items|
    requires forall i :: 0 <= i < |rest| ==> p < rest[i] < |items|
    requires Outline(Build(items, c).children) == Pairs(items, c + 1, e)
    requires Outline(BuildAll(items, rest, p)) == Pairs(items, e, big)
    ensures Outline(BuildAll(items, [c] + rest, p)) == Pairs(items, c, big)
  {
    var first := [(items[c].value, items[c].indent)];
    OutlineOfChildren(items, c, rest, p);
    assert Pairs(items, c, big) == first + Pairs(items, c + 1, big);
    PairsSplit(items, c + 1, e, big);
    ConcatAssociative(first, Pairs(items, c + 1, e), Pairs(items, e, big));
  }

  /** Every non-blank line becomes exactly one node, and reading the tree in
      preorder gives the lines back in source order with their indents. */
  lemma OutlineOfTree(code: string)
    ensures IndentTree(code).value == "root" && IndentTree(code).indent == -1
    ensures Outline(IndentTree(code).children) == Pairs(Items(code), 0, |Items(code)|)
  {
    OutlineOfRoot(Items(code));
  }

  lemma OutlineOfRoot(items: seq<Line>)
    ensures Outline(Build(items, -1).children) == Pairs(items, 0, |items|)
  {
    OutlineBelow(items, -1);
    assert End(items, -1) == |items|;
  }

  /** Every child is indented strictly deeper than its parent. */
  predicate WellIndented(t: Tree) {
    forall i :: 0 <= i < |t.children| ==> t.children[i].indent > t.indent && WellIndented(t.children[i])
  }

  lemma {:induction false} BuildWellIndented(items: seq<Line>, p: int)
    requires -1 <= p < |items|
    ensures WellIndented(Build(items, p))
    decreases |items| - p
  {
    var ks := Kids(items, p);
    var ts := BuildAll(items, ks, p);
    forall i | 0 <= i < |ts|
      ensures ts[i].indent > IndentOf(items, p) && WellIndented(ts[i])
    {
      BuildAllAt(items, ks, p, i);
      BuildWellIndented(items, ks[i]);
    }
  }

  lemma {:induction false} BuildAllAt(items: seq<Line>, ks: seq<nat>, p: int, i: nat)
    requires -1 <= p && i < |ks|
    requires forall j :: 0 <= j < |ks| ==> p < ks[j] < |items|
    ensures BuildAll(items, ks, p)[i] == Build(items, ks[i])
    decreases i
  {
    if i > 0 {
      BuildAllAt(items, ks[1..], p, i - 1);
    }
  }

  lemma TreeWellIndented(code: string)
    ensures WellIndented(IndentTree(code))
  {
    BuildWellIndented(Items(code), -1);
  }

  /** Blank rows contribute no line and every other row exactly one, in order. */
  lemma {:induction false} ToLinesAppend(a: seq<string>, b: seq<string>)
    ensures ToLines(a + b) == ToLines(a) + ToLines(b)
  {
    if a != [] {
      assert (a + b)[0] == a[0];
      assert (a + b)[1..] == a[1..] + b;
      ToLinesAppend(a[1..], b);
      ConcatAssociative(RowLines(a[0]), ToLines(a[1..]), ToLines(b));
    } else {
      assert a + b == b;
    }
  }

  lemma AppendNothing<T>(x: seq<T>)
    ensures x + [] == x
  {
  }

  /** The children of a node are listed in source order. */
  lemma {:induction false} KidsInSorted(items: seq<Line>, p: int, lo: nat, hi: nat)
    requires lo <= hi <= |items|
    ensures forall i, j :: 0 <= i < j < |KidsIn(items, p, lo, hi)| ==> KidsIn(items, p, lo, hi)[i] < KidsIn(items, p, lo, hi)[j]
    decreases hi
  {
    if lo < hi {
      KidsInSorted(items, p, lo, hi - 1);
    }
  }
}
