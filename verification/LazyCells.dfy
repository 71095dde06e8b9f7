/** What the pending zero and fill requests of a tree of views mean for each cell. */
module LazyCells {
  import opened ViewTree
  import opened EagerVector

  datatype Pending = Nothing | Request(c: Constant)

  /** The last request of a sequence. */
  ghost function Last(reqs: seq<Pending>): Pending {
    if reqs == [] then Nothing
    else if reqs[|reqs| - 1].Request? then reqs[|reqs| - 1]
    else Last(reqs[..|reqs| - 1])
  }

  lemma {:induction false} LastIs(reqs: seq<Pending>) returns (j: int)
    ensures Last(reqs).Nothing? ==> forall i :: 0 <= i < |reqs| ==> reqs[i].Nothing?
    ensures Last(reqs).Request? ==> 0 <= j < |reqs| && reqs[j] == Last(reqs)
    ensures Last(reqs).Request? ==> forall i :: j < i < |reqs| ==> reqs[i].Nothing?
  {
    j := |reqs| - 1;
    if reqs != [] && reqs[j].Nothing? {
      j := LastIs(reqs[..j]);
    }
  }

  lemma {:induction false} LastFrom(reqs: seq<Pending>, j: nat)
    requires j < |reqs| && reqs[j].Request?
    requires forall i :: j < i < |reqs| ==> reqs[i].Nothing?
    ensures Last(reqs) == reqs[j]
  {
    if j < |reqs| - 1 {
      LastFrom(reqs[..|reqs| - 1], j);
    }
  }

  /** Each node's request, kept only where the node is living and covers cell `k`. */
  ghost function Over(tree: seq<Link>, live: seq<bool>, pend: seq<Pending>, k: nat): (r: seq<Pending>)
    requires GoodTree(tree, live) && |pend| == |tree|
    ensures |r| == |tree|
    ensures forall j :: 0 <= j < |tree| ==> r[j] == if live[j] && Covers(tree, j, k) then pend[j] else Nothing
  {
    seq(|tree|, j requires 0 <= j < |tree| => if live[j] && Covers(tree, j, k) then pend[j] else Nothing)
  }

  /** The request that decides cell `k`: the newest, hence deepest, one over it. */
  ghost function Deepest(tree: seq<Link>, live: seq<bool>, pend: seq<Pending>, k: nat): Pending
    requires GoodTree(tree, live) && |pend| == |tree|
  {
    Last(Over(tree, live, pend, k))
  }

  /** Node `j` is the deepest pending node over cell `k`. */
  ghost predicate Decides(tree: seq<Link>, live: seq<bool>, pend: seq<Pending>, k: nat, j: nat)
    requires GoodTree(tree, live) && |pend| == |tree|
  {
    var over := Over(tree, live, pend, k);
    && j < |tree| && over[j].Request?
    && forall i :: 0 <= i < |tree| && over[i].Request? ==> Below(tree, j, i)
  }

  /** A cell with any request over it has a deepest one, and that one decides. */
  lemma DeepestDecides(tree: seq<Link>, live: seq<bool>, pend: seq<Pending>, k: nat, i: nat) returns (j: nat)
    requires GoodTree(tree, live) && |pend| == |tree| && i < |tree|
    requires live[i] && Covers(tree, i, k) && pend[i].Request?
    ensures Decides(tree, live, pend, k, j) && Deepest(tree, live, pend, k) == pend[j]
  {
    var over := Over(tree, live, pend, k);
    assert over[i].Request?;
    j := LastIs(over);
    forall h | 0 <= h < |tree| && over[h].Request? ensures Below(tree, j, h) {
      CoverChain(tree, live, h, j, k);
    }
  }

  /** Requesting `c` on node `n`, and forgetting the requests below it, sets exactly the cells of `n`. */
  lemma RequestOverrides(tree: seq<Link>, live: seq<bool>, pend: seq<Pending>, pend': seq<Pending>, n: nat, k: nat)
    requires GoodTree(tree, live) && |pend| == |pend'| == |tree| && n < |tree| && live[n]
    requires pend'[n].Request?
    requires forall j :: 0 <= j < |tree| && j != n && live[j] ==>
      pend'[j] == if Below(tree, j, n) then Nothing else pend[j]
    ensures Deepest(tree, live, pend', k)
         == if Covers(tree, n, k) then pend'[n] else Deepest(tree, live, pend, k)
  {
    var over, over' := Over(tree, live, pend, k), Over(tree, live, pend', k);
    if Covers(tree, n, k) {
      forall i | n < i < |tree| ensures over'[i].Nothing? {
        if live[i] && Covers(tree, i, k) {
          CoverChain(tree, live, n, i, k);
        }
      }
      LastFrom(over', n);
    } else {
      forall i | 0 <= i < |tree| ensures over[i] == over'[i] {
        if live[i] && i != n && Below(tree, i, n) {
          BelowInside(tree, i, n);
        }
      }
      assert over == over';
    }
  }

  /** Executing the request of `n` matters only where no deeper node has its own. */
  lemma RequestExecuted(tree: seq<Link>, live: seq<bool>, pend: seq<Pending>, n: nat, k: nat)
    requires GoodTree(tree, live) && |pend| == |tree| && n < |tree| && live[n] && Covers(tree, n, k)
    requires forall j :: 0 <= j < |tree| && live[j] && j != n && Below(tree, n, j) ==> pend[j].Nothing?
    ensures Deepest(tree, live, pend, k)
         == var d := Deepest(tree, live, pend[n := Nothing], k); if d.Request? then d else pend[n]
  {
    var over, over' := Over(tree, live, pend, k), Over(tree, live, pend[n := Nothing], k);
    forall j | 0 <= j < n ensures over[j].Nothing? {
      if live[j] && Covers(tree, j, k) {
        CoverChain(tree, live, j, n, k);
      }
    }
    assert forall i :: n < i < |tree| ==> over'[i] == over[i];
    var j := LastIs(over');
    if Last(over').Request? {
      LastFrom(over, j);
    } else if pend[n].Request? {
      LastFrom(over, n);
    } else {
      assert over' == over;
    }
  }

  /** A request on a node outside the cell is of no concern to it. */
  lemma RequestElsewhere(tree: seq<Link>, live: seq<bool>, pend: seq<Pending>, n: nat, k: nat)
    requires GoodTree(tree, live) && |pend| == |tree| && n < |tree| && !Covers(tree, n, k)
    ensures Deepest(tree, live, pend[n := Nothing], k) == Deepest(tree, live, pend, k)
  {
    assert Over(tree, live, pend[n := Nothing], k) == Over(tree, live, pend, k);
  }
}
