/** The tree of narrowed views of one array: parent links, offsets and sizes.

    Node 0 is the root.  A node stands for one SyncedArray; `parent`, `offset` and `size` are the
    fields that its constructor fixes for life.  Nodes are numbered in order of creation, so a
    parent always has a smaller number than its children. */
module ViewTree {

  datatype Link = Link(parent: int, offset: nat, size: nat)

  /** Every node but the root lies inside an earlier node. */
  ghost predicate WellRooted(tree: seq<Link>) {
    && |tree| > 0
    && tree[0].parent == -1
    && tree[0].offset == 0
    && forall i {:trigger tree[i].parent} :: 0 < i < |tree| ==>
         0 <= tree[i].parent < i && tree[i].offset + tree[i].size <= tree[tree[i].parent].size
  }

  /** Where node `i` begins in the root: the sum of the offsets up to the root. */
  ghost function Start(tree: seq<Link>, i: nat): nat
    requires WellRooted(tree) && i < |tree|
  {
    if i == 0 then 0 else Start(tree, tree[i].parent) + tree[i].offset
  }

  /** Node `i` is `r` or a descendant of `r`. */
  ghost predicate Below(tree: seq<Link>, i: nat, r: nat)
    requires WellRooted(tree) && i < |tree|
  {
    i == r || (i > r && Below(tree, tree[i].parent, r))
  }

  ghost predicate Covers(tree: seq<Link>, i: nat, k: nat)
    requires WellRooted(tree) && i < |tree|
  {
    Start(tree, i) <= k < Start(tree, i) + tree[i].size
  }

  /** The living nodes form a tree: a living node has a living parent. */
  ghost predicate Rooted(tree: seq<Link>, live: seq<bool>)
    requires WellRooted(tree)
  {
    && |live| == |tree|
    && live[0]
    && forall i {:trigger tree[i].parent} :: 0 < i < |tree| && live[i] ==> live[tree[i].parent]
  }

  /** Two intervals, given by first position and length, share a position. */
  predicate Overlap(start: nat, size: nat, start': nat, size': nat) {
    start < start' + size' && start' < start + size && size > 0 && size' > 0
  }

  ghost predicate Siblings(tree: seq<Link>, live: seq<bool>, i: int, j: int)
    requires |live| == |tree|
  {
    0 < i < j < |tree| && live[i] && live[j] && tree[i].parent == tree[j].parent
  }

  /** Living siblings do not overlap. */
  ghost predicate SiblingsApart(tree: seq<Link>, live: seq<bool>)
    requires |live| == |tree|
  {
    forall i, j {:trigger Siblings(tree, live, i, j)} :: Siblings(tree, live, i, j) ==>
      !Overlap(tree[i].offset, tree[i].size, tree[j].offset, tree[j].size)
  }

  ghost predicate GoodTree(tree: seq<Link>, live: seq<bool>) {
    WellRooted(tree) && Rooted(tree, live) && SiblingsApart(tree, live)
  }

  lemma {:induction false} BelowTransitive(tree: seq<Link>, i: nat, j: nat, r: nat)
    requires WellRooted(tree) && i < |tree| && j < |tree|
    requires Below(tree, i, j) && Below(tree, j, r)
    ensures Below(tree, i, r)
    decreases i
  {
    if i != j {
      BelowTransitive(tree, tree[i].parent, j, r);
      BelowSmaller(tree, j, r);
    }
  }

  lemma BelowSmaller(tree: seq<Link>, i: nat, r: nat)
    requires WellRooted(tree) && i < |tree| && Below(tree, i, r)
    ensures r <= i
  {
  }

  lemma {:induction false} EveryoneBelowRoot(tree: seq<Link>, i: nat)
    requires WellRooted(tree) && i < |tree|
    ensures Below(tree, i, 0)
  {
    if i > 0 {
      EveryoneBelowRoot(tree, tree[i].parent);
    }
  }

  lemma {:induction false} BelowInside(tree: seq<Link>, i: nat, r: nat)
    requires WellRooted(tree) && i < |tree| && Below(tree, i, r)
    ensures Start(tree, r) <= Start(tree, i)
    ensures Start(tree, i) + tree[i].size <= Start(tree, r) + tree[r].size
    decreases i
  {
    if i != r {
      BelowInside(tree, tree[i].parent, r);
    }
  }

  /** Two ancestors of the same node are comparable. */
  lemma {:induction false} AncestorsLinear(tree: seq<Link>, i: nat, a: nat, b: nat)
    requires WellRooted(tree) && i < |tree|
    requires Below(tree, i, a) && Below(tree, i, b) && a <= b
    ensures b < |tree| && Below(tree, b, a)
    decreases i
  {
    if i != b {
      if i == a {
        BelowSmaller(tree, i, b);
      } else {
        AncestorsLinear(tree, tree[i].parent, a, b);
      }
    }
  }

  /** The child of `r` on the way down to `i`. */
  lemma {:induction false} ToChild(tree: seq<Link>, live: seq<bool>, i: nat, r: nat) returns (c: nat)
    requires WellRooted(tree) && Rooted(tree, live) && i < |tree| && live[i]
    requires Below(tree, i, r) && i != r
    ensures r < c <= i && live[c] && tree[c].parent == r && Below(tree, i, c)
    decreases i
  {
    if tree[i].parent == r {
      c := i;
    } else {
      c := ToChild(tree, live, tree[i].parent, r);
    }
  }

  /** A node is below at most one child of `r`. */
  lemma OneChild(tree: seq<Link>, i: nat, c: nat, c': nat)
    requires WellRooted(tree) && i < |tree| && c < |tree| && c' < |tree|
    requires Below(tree, i, c) && Below(tree, i, c')
    requires tree[c].parent == tree[c'].parent
    ensures c == c'
  {
    if c < c' {
      AncestorsLinear(tree, i, c, c');
    } else if c' < c {
      AncestorsLinear(tree, i, c', c);
    }
  }

  /** The living nodes that cover one position form a chain. */
  lemma {:induction false} CoverChain(tree: seq<Link>, live: seq<bool>, i: nat, j: nat, k: nat)
    requires GoodTree(tree, live) && i <= j < |tree| && live[i] && live[j]
    requires Covers(tree, i, k) && Covers(tree, j, k)
    ensures Below(tree, j, i)
    decreases i + j
  {
    if i < j {
      var p := tree[j].parent;
      BelowInside(tree, j, p);
      if i <= p {
        CoverChain(tree, live, i, p, k);
      } else {
        CoverChain(tree, live, p, i, k);
        var c := ToChild(tree, live, i, p);
        BelowInside(tree, i, c);
        assert Siblings(tree, live, c, j);
        assert false;
      }
    }
  }

  /** Adding a node changes nothing for the others. */
  lemma {:induction false} StartPrefix(tree: seq<Link>, more: seq<Link>, i: nat)
    requires WellRooted(tree) && WellRooted(tree + more) && i < |tree|
    ensures Start(tree + more, i) == Start(tree, i)
  {
    if i > 0 {
      StartPrefix(tree, more, tree[i].parent);
    }
  }

  /** The constructor's test, on inclusive last positions. */
  predicate RangesClash(start: nat, size: nat, start': nat, size': nat) {
    !(start + size - 1 < start' || start' + size' - 1 < start)
  }
}
