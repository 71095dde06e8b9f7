/** Exactly when the code keeps its promises about views, at the two places where it may not. */
module FamilyLimits {
  import opened ViewTree
  import opened EagerVector
  import opened LazyCells

  /** Where `create_array_from_parent` puts the array of view `i`: one level of offsets only. */
  function CodeOffset(tree: seq<Link>, i: nat): int
    requires 0 < i < |tree| && 0 <= tree[i].parent < |tree|
  {
    tree[tree[i].parent].offset + tree[i].offset
  }

  /** The array lies on the view's own cells if and only if nothing above the parent is offset. */
  lemma ViewInPlaceExactly(tree: seq<Link>, i: nat)
    requires WellRooted(tree) && 0 < i < |tree|
    ensures CodeOffset(tree, i) == Start(tree, i) <==>
            var p := tree[i].parent; p == 0 || Start(tree, tree[p].parent) == 0
  {
    assert Start(tree, i) == Start(tree, tree[i].parent) + tree[i].offset;
  }

  /** A view three levels down whose array would lie on cells 2 and 3 instead of 4 and 5. */
  lemma DeepViewMisplaced()
    ensures var tree := [Link(-1, 0, 8), Link(0, 2, 6), Link(1, 1, 4), Link(2, 1, 2)];
            WellRooted(tree) && Start(tree, 3) == 4 && CodeOffset(tree, 3) == 2
  {
    var tree := [Link(-1, 0, 8), Link(0, 2, 6), Link(1, 1, 4), Link(2, 1, 2)];
    assert Start(tree, 1) == 2;
    assert Start(tree, 2) == 3;
  }

  /** The number in each cell, with requests executed over memory `mem`. */
  ghost function Executed(conv: Convert, d: DType, tree: seq<Link>, live: seq<bool>, pend: seq<Pending>, mem: seq<Value>): (r: seq<Value>)
    requires GoodTree(tree, live) && |pend| == |tree|
    ensures |r| == |mem|
  {
    seq(|mem|, k requires 0 <= k < |mem| => Executing(conv, d, Deepest(tree, live, pend, k), mem[k]))
  }

  ghost function Executing(conv: Convert, d: DType, p: Pending, m: Value): Value {
    if p.Request? then Realize(conv, d, p.c) else m
  }

  /** Destroying view `n` keeps every cell, whatever the memory holds, if and only if `n` has no
      request of its own, or no cells, or an ancestor's pending request puts the same number there. */
  lemma {:induction false} DestroyKeepsCellsExactly(conv: Convert, d: DType, tree: seq<Link>, live: seq<bool>, pend: seq<Pending>, n: nat)
    requires GoodTree(tree, live) && |pend| == |tree| && 0 < n < |tree| && live[n]
    requires forall i :: 0 < i < |tree| && live[i] ==> tree[i].parent != n
    ensures GoodTree(tree, live[n := false])
    ensures (forall mem :: |mem| == tree[0].size ==>
               Executed(conv, d, tree, live[n := false], pend, mem) == Executed(conv, d, tree, live, pend, mem))
            <==>
            var above := Deepest(tree, live[n := false], pend, Start(tree, n));
            pend[n].Nothing? || tree[n].size == 0 || (above.Request? && Realize(conv, d, above.c) == Realize(conv, d, pend[n].c))
  {
    DestroyKeepsTree(tree, live, n);
    var live' := live[n := false];
    var above := Deepest(tree, live', pend, Start(tree, n));
    forall k: nat
      ensures Covers(tree, n, k) ==> Deepest(tree, live', pend, k) == above
      ensures Covers(tree, n, k) && pend[n].Request? ==> Deepest(tree, live, pend, k) == pend[n]
      ensures !Covers(tree, n, k) || pend[n].Nothing? ==> Deepest(tree, live', pend, k) == Deepest(tree, live, pend, k)
    {
      WithoutLeaf(tree, live, pend, n, k);
    }
    hide Deepest, GoodTree;
    if pend[n].Request? && tree[n].size > 0 {
      EveryoneBelowRoot(tree, n);
      BelowInside(tree, n, 0);
      var k := Start(tree, n);
      var mem := Constantly(tree[0].size, Realize(conv, d, pend[n].c) + 1.0);
      assert Covers(tree, n, k) && Executed(conv, d, tree, live, pend, mem)[k] == Realize(conv, d, pend[n].c);
      assert Executed(conv, d, tree, live', pend, mem)[k] == Executing(conv, d, above, mem[k]);
    }
  }

  /** What decides a cell when the childless view `n` is gone. */
  lemma WithoutLeaf(tree: seq<Link>, live: seq<bool>, pend: seq<Pending>, n: nat, k: nat)
    requires GoodTree(tree, live) && |pend| == |tree| && 0 < n < |tree| && live[n] && GoodTree(tree, live[n := false])
    requires forall i :: 0 < i < |tree| && live[i] ==> tree[i].parent != n
    ensures Covers(tree, n, k) ==> Deepest(tree, live[n := false], pend, k) == Deepest(tree, live[n := false], pend, Start(tree, n))
    ensures Covers(tree, n, k) && pend[n].Request? ==> Deepest(tree, live, pend, k) == pend[n]
    ensures !Covers(tree, n, k) || pend[n].Nothing? ==> Deepest(tree, live[n := false], pend, k) == Deepest(tree, live, pend, k)
  {
    if Covers(tree, n, k) {
      OverLeaf(tree, live, pend, n, k);
    }
    if !Covers(tree, n, k) || pend[n].Nothing? {
      assert Over(tree, live[n := false], pend, k) == Over(tree, live, pend, k);
    }
  }

  /** Of the other living nodes exactly the ancestors of a childless view cover its cells. */
  lemma CoverLeaf(tree: seq<Link>, live: seq<bool>, n: nat, j: nat, h: nat)
    requires GoodTree(tree, live) && 0 < n < |tree| && live[n] && j < |tree| && live[j] && j != n && Covers(tree, n, h)
    requires forall i :: 0 < i < |tree| && live[i] ==> tree[i].parent != n
    ensures (Covers(tree, j, h) <==> Below(tree, n, j)) && (Covers(tree, j, h) ==> j < n)
  {
    if Below(tree, n, j) {
      BelowInside(tree, n, j);
    }
    if Covers(tree, j, h) {
      if j < n {
        CoverChain(tree, live, j, n, h);
      } else {
        CoverChain(tree, live, n, j, h);
        var c := ToChild(tree, live, j, n);
      }
    }
  }

  /** Over every cell of a childless view the same ancestors count, and its own request comes last. */
  lemma OverLeaf(tree: seq<Link>, live: seq<bool>, pend: seq<Pending>, n: nat, k: nat)
    requires GoodTree(tree, live) && |pend| == |tree| && 0 < n < |tree| && live[n] && Covers(tree, n, k)
    requires GoodTree(tree, live[n := false]) && forall i :: 0 < i < |tree| && live[i] ==> tree[i].parent != n
    ensures Deepest(tree, live[n := false], pend, k) == Deepest(tree, live[n := false], pend, Start(tree, n))
    ensures pend[n].Request? ==> Deepest(tree, live, pend, k) == pend[n]
  {
    forall j, h | 0 <= j < |tree| && live[j] && Covers(tree, n, h) && j != n
      ensures Covers(tree, j, h) <==> Below(tree, n, j)
      ensures Covers(tree, j, h) ==> j < n
    {
      CoverLeaf(tree, live, n, j, h);
    }
    var live' := live[n := false];
    assert Covers(tree, n, Start(tree, n));
    assert Over(tree, live', pend, k) == Over(tree, live', pend, Start(tree, n));
    if pend[n].Request? {
      LastFrom(Over(tree, live, pend, k), n);
    }
  }

  /** `pend` are the requests that the reference holds for pending. */
  ghost predicate Pends(e: Eager, pend: seq<Pending>) {
    && |pend| == |e.tree| == |e.live|
    && forall j: nat :: j < |pend| && e.live[j] ==> pend[j] == if j in e.pending then Request(e.pending[j]) else Nothing
  }

  /** What the reference asks of a view that is to be destroyed with a request of its own is just what
      keeps its cells. */
  lemma RepeatedExactly(conv: Convert, e: Eager, pend: seq<Pending>, n: nat)
    requires ValidEager(e) && 0 < n < |e.tree| && e.live[n] && n in e.pending && e.tree[n].size > 0 && Pends(e, pend)
    requires forall i :: 0 < i < |e.tree| && e.live[i] ==> e.tree[i].parent != n
    ensures GoodTree(e.tree, e.live[n := false])
    ensures Repeated(conv, e, n) <==>
            var above := Deepest(e.tree, e.live[n := false], pend, Start(e.tree, n));
            above.Request? && SameNumber(conv, e.store, above.c, e.pending[n])
  {
    DestroyKeepsTree(e.tree, e.live, n);
    var live', k := e.live[n := false], Start(e.tree, n);
    assert Covers(e.tree, n, k);
    forall j: nat | j < |e.tree| && e.live[j] && j != n ensures Covers(e.tree, j, k) <==> Below(e.tree, n, j) {
      CoverLeaf(e.tree, e.live, n, j, k);
    }
    hide GoodTree, SameNumber, Deepest;
    if a :| NearestPending(e, n, a) {
      NearestDecides(e, pend, n, a);
    }
    if Deepest(e.tree, live', pend, k).Request? {
      var j := NearestThere(e, pend, n);
    }
  }

  lemma NearestThere(e: Eager, pend: seq<Pending>, n: nat) returns (j: nat)
    requires ValidEager(e) && 0 < n < |e.tree| && e.live[n] && Pends(e, pend) && GoodTree(e.tree, e.live[n := false])
    requires Deepest(e.tree, e.live[n := false], pend, Start(e.tree, n)).Request?
    requires forall j: nat :: j < |e.tree| && e.live[j] && j != n ==> (Covers(e.tree, j, Start(e.tree, n)) <==> Below(e.tree, n, j))
    ensures NearestPending(e, n, j) && Deepest(e.tree, e.live[n := false], pend, Start(e.tree, n)) == pend[j] == Request(e.pending[j])
  {
    var live', k := e.live[n := false], Start(e.tree, n);
    var over := Over(e.tree, live', pend, k);
    var i := LastIs(over);
    hide Covers, SiblingsApart, Rooted;
    j := DeepestDecides(e.tree, live', pend, k, i);
    forall b: nat | b in e.pending && b != n && Below(e.tree, n, b) ensures Below(e.tree, j, b) {
      assert over[b].Request?;
    }
  }

  lemma NearestDecides(e: Eager, pend: seq<Pending>, n: nat, a: nat)
    requires ValidEager(e) && 0 < n < |e.tree| && e.live[n] && Pends(e, pend) && GoodTree(e.tree, e.live[n := false])
    requires NearestPending(e, n, a)
    requires forall j: nat :: j < |e.tree| && e.live[j] && j != n ==> (Covers(e.tree, j, Start(e.tree, n)) <==> Below(e.tree, n, j))
    ensures Deepest(e.tree, e.live[n := false], pend, Start(e.tree, n)) == pend[a] == Request(e.pending[a])
  {
    var j := DeepestDecides(e.tree, e.live[n := false], pend, Start(e.tree, n), a);
    assert Below(e.tree, j, a) && Below(e.tree, a, j);
  }

  /** A filled view that dies before anyone reads leaves the old number behind. */
  lemma DestroyLosesFill(conv: Convert, d: DType)
    ensures var tree := [Link(-1, 0, 1), Link(0, 0, 1)];
            && GoodTree(tree, [true, true]) && GoodTree(tree, [true, false])
            && Executed(conv, d, tree, [true, true], [Nothing, Request(Number(5.0))], [0.0]) == [conv(FLOAT, d, 5.0)]
            && Executed(conv, d, tree, [true, false], [Nothing, Request(Number(5.0))], [0.0]) == [0.0]
  {
    var tree, pend := [Link(-1, 0, 1), Link(0, 0, 1)], [Nothing, Request(Number(5.0))];
    assert SiblingsApart(tree, [true, true]) && SiblingsApart(tree, [true, false]);
    assert Start(tree, 0) == 0 && Start(tree, 1) == 0;
    var over := Over(tree, [true, true], pend, 0);
    LastFrom(over, 1);
    assert Over(tree, [true, false], pend, 0) == [Nothing, Nothing];
    assert Last([Nothing, Nothing]) == Nothing by {
      var j := LastIs([Nothing, Nothing]);
    }
  }
}
