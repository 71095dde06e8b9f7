/** What holds of a family of arrays between any two calls. */
module FamilyFacts {
  import opened ViewTree
  import opened EagerVector
  import opened LazyCells
  import opened SyncedArray

  /** Either no living node holds an array, and the root has a request; or every living node has its head
      array on the root's memory, under a key derived from its parent's and at the summed offset. */
  ghost predicate NoneOrAll(f: Family)
    reads f
  {
    && WellRooted(f.tree) && |f.live| == |f.nodes| == |f.tree|
    && if f.nodes[0].arrays == map[] then
         f.nodes[0].Lazy() && forall j :: 0 <= j < |f.nodes| && f.live[j] ==> f.nodes[j].arrays == map[]
       else
         && f.nodes[0].HeadReady() && f.nodes[0].head.key.Plain? && !f.nodes[0].Lazy()
         && f.nodes[0].arrays[f.nodes[0].head.key].block.Length == f.tree[0].size
         && forall j :: 0 <= j < |f.tree| && f.live[j] ==>
              HeadSet(f.tree, f.nodes[0].head.key, f.nodes[0].head.dtype,
                      f.nodes[0].arrays[f.nodes[0].head.key].block, j, f.nodes[j])
  }

  /** After any run of operations the arrays of a family are laid out that way, and exactly the
      requests are pending that the reference says. */
  method NoneOrAllAfterAnyRun(conv: Convert, size: nat, ops: seq<Op>) returns (f: Family)
    requires Faithful(conv) && AllAllowed(conv, EagerVector.Fresh(size), ops)
    ensures NoneOrAll(f) && f.tree == Finally(conv, EagerVector.Fresh(size), ops).tree
    ensures Listed(f.live, f.nodes, Finally(conv, EagerVector.Fresh(size), ops).pending)
  {
    hide AllAllowed, Finally, Outcomes;
    var outcomes;
    f, outcomes := RunFamily(conv, size, ops);
  }

  /** Views lie inside their parents, and living views of one parent share no cell. */
  lemma ViewsApart(f: Family, i: nat, j: nat, k: nat)
    requires f.Valid() && WellRooted(f.tree) && |f.live| == |f.tree|
    requires 0 < i < j < |f.tree| && f.live[i] && f.live[j] && f.tree[i].parent == f.tree[j].parent
    ensures Covers(f.tree, i, k) ==> Covers(f.tree, f.tree[i].parent, k)
    ensures !(Covers(f.tree, i, k) && Covers(f.tree, j, k))
  {
    assert Siblings(f.tree, f.live, i, j);
    var p := f.tree[i].parent;
    assert Start(f.tree, i) == Start(f.tree, p) + f.tree[i].offset;
    assert Start(f.tree, j) == Start(f.tree, p) + f.tree[j].offset;
  }

  /** Every copy besides the head is at head and holds the converted values of its node's interval. */
  lemma CopiesAgree(f: Family, n: nat, key: Key)
    requires f.Valid() && n < |f.nodes| == |f.live| && f.live[n]
    requires key in f.nodes[n].arrays && f.nodes[n].head.Head? && key != f.nodes[n].head.key
    ensures WellRooted(f.tree) && |f.nodes| == |f.tree| && f.nodes[0].HeadReady() && f.Structure() && f.SetUp()
    ensures var e, d := f.nodes[n].arrays[key], f.nodes[0].head.dtype;
            e.atHead && key.Plain? && e.block[..] == ConvertAll(f.conv, d, key.dtype, Interval(f.tree, f.Vector(), n))
  {
    assert Spare(f.live, f.nodes, n, key);
  }
}
