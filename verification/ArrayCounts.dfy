/** The tree of narrowed arrays and its reference counts: a change at one array is passed on to all
    arrays above it, so the root knows the whole family's count. */
module ArrayCounts {
  import opened CountSums
  import opened Shapes
  import opened Wrappers

  import ViewTree

  /** A SyncedArray, as far as counting and placing go. */
  datatype Node = Node(alive: bool, parent: Option<nat>, size: nat, offset: nat, count: int)

  function ParentEdge(n: Node): Edge {
    if n.alive then Edge(n.parent, n.count) else Edge(None, 0)
  }

  function ParentEdges(arrays: seq<Node>): (edges: seq<Edge>)
    ensures |edges| == |arrays| && forall i :: 0 <= i < |arrays| ==> edges[i] == ParentEdge(arrays[i])
  {
    seq(|arrays|, i requires 0 <= i < |arrays| => ParentEdge(arrays[i]))
  }

  /** Parents live and are older than their children. */
  ghost predicate Tree(arrays: seq<Node>) {
    forall a {:trigger arrays[a].parent} :: 0 <= a < |arrays| && arrays[a].alive && arrays[a].parent.Some? ==>
      arrays[a].parent.value < a && arrays[arrays[a].parent.value].alive
  }

  /** Children lie inside their parent and pass the overlap check pairwise. */
  ghost predicate Placed(arrays: seq<Node>)
    requires Tree(arrays)
  {
    && (forall a {:trigger arrays[a].parent} :: 0 <= a < |arrays| && arrays[a].alive && arrays[a].parent.Some? ==>
          arrays[a].offset + arrays[a].size <= arrays[arrays[a].parent.value].size)
    && (forall a, b :: 0 <= a < b < |arrays| && Siblings(arrays[a], arrays[b]) ==>
          !ViewTree.RangesClash(arrays[b].offset, arrays[b].size, arrays[a].offset, arrays[a].size))
  }

  predicate Siblings(a: Node, b: Node) {
    a.alive && b.alive && a.parent.Some? && a.parent == b.parent
  }

  /** Every array's count is that of its holders and of its children. */
  ghost predicate Balanced(arrays: seq<Node>, holders: seq<Edge>) {
    forall a: nat :: a < |arrays| && arrays[a].alive ==> Sum(arrays, holders, a) == arrays[a].count
  }

  function Sum(arrays: seq<Node>, holders: seq<Edge>, a: nat): int {
    Total(holders, a) + Total(ParentEdges(arrays), a)
  }

  // ---- Passing a change on ---------------------------------------------------------------------

  /** The arrays after a change of `diff` at `a`. */
  function Bumped(arrays: seq<Node>, a: nat, diff: int): (after: seq<Node>)
    requires Tree(arrays) && a < |arrays| && arrays[a].alive
    ensures SameButCounts(arrays, after)
    decreases a
  {
    var here := arrays[a := arrays[a].(count := arrays[a].count + diff)];
    if arrays[a].parent.None? then here else Bumped(here, arrays[a].parent.value, diff)
  }

  predicate SameButCounts(arrays: seq<Node>, after: seq<Node>) {
    |after| == |arrays| && forall x :: 0 <= x < |arrays| ==> after[x] == arrays[x].(count := after[x].count)
  }

  lemma SamePlaces(arrays: seq<Node>, after: seq<Node>)
    requires Tree(arrays) && SameButCounts(arrays, after)
    ensures Tree(after) && (Placed(arrays) ==> Placed(after))
  {
    assert forall a :: 0 <= a < |arrays| ==> after[a] == arrays[a].(count := after[a].count);
  }

  /** Balanced but for `diff` missing at `a`. */
  ghost predicate Off(arrays: seq<Node>, holders: seq<Edge>, a: nat, diff: int) {
    forall x: nat :: x < |arrays| && arrays[x].alive ==>
      Sum(arrays, holders, x) == arrays[x].count + (if x == a then diff else 0)
  }

  /** Setting one array right puts its parent off. */
  lemma OffMovesUp(arrays: seq<Node>, holders: seq<Edge>, a: nat, diff: int)
    requires Tree(arrays) && a < |arrays| && arrays[a].alive && Off(arrays, holders, a, diff)
    ensures var here := arrays[a := arrays[a].(count := arrays[a].count + diff)];
            && (arrays[a].parent.Some? ==> Off(here, holders, arrays[a].parent.value, diff))
            && (arrays[a].parent.None? ==> Balanced(here, holders))
  {
    var here := arrays[a := arrays[a].(count := arrays[a].count + diff)];
    var edges := ParentEdges(arrays);
    assert ParentEdges(here) == edges[a := ParentEdge(here[a])];
    forall x: nat | x < |arrays| && arrays[x].alive
      ensures Sum(here, holders, x) == here[x].count + (if here[a].parent == Some(x) then diff else 0)
    {
      assert Sum(arrays, holders, x) == arrays[x].count + (if x == a then diff else 0);
      TotalUpdate(edges, a, ParentEdge(here[a]), x);
    }
  }

  lemma {:induction false} BumpRights(arrays: seq<Node>, holders: seq<Edge>, a: nat, diff: int)
    requires Tree(arrays) && a < |arrays| && arrays[a].alive && Off(arrays, holders, a, diff)
    ensures Balanced(Bumped(arrays, a, diff), holders)
    decreases a
  {
    OffMovesUp(arrays, holders, a, diff);
    var here := arrays[a := arrays[a].(count := arrays[a].count + diff)];
    if arrays[a].parent.Some? {
      BumpRights(here, holders, arrays[a].parent.value, diff);
    }
  }

  /** A change passed on keeps the balance, if the holders of `a` changed by as much. */
  lemma BumpKeepsBalance(arrays: seq<Node>, before: seq<Edge>, after: seq<Edge>, a: nat, diff: int)
    requires Tree(arrays) && a < |arrays| && arrays[a].alive && Balanced(arrays, before)
    requires forall t: nat :: Total(after, t) == Total(before, t) + (if t == a then diff else 0)
    ensures Balanced(Bumped(arrays, a, diff), after)
  {
    forall x: nat | x < |arrays| && arrays[x].alive
      ensures Sum(arrays, after, x) == arrays[x].count + (if x == a then diff else 0)
    {
      assert Sum(arrays, before, x) == arrays[x].count;
    }
    BumpRights(arrays, after, a, diff);
  }

  // ---- The root's count ------------------------------------------------------------------------

  function RootOf(arrays: seq<Node>, a: nat): (r: nat)
    requires Tree(arrays) && a < |arrays| && arrays[a].alive
    ensures r < |arrays| && arrays[r].alive && arrays[r].parent.None?
    decreases a
  {
    if arrays[a].parent.None? then a else RootOf(arrays, arrays[a].parent.value)
  }

  /** The members of `r`'s family. */
  function Family(arrays: seq<Node>, r: nat): (mask: seq<bool>)
    requires Tree(arrays)
    ensures |mask| == |arrays|
    ensures forall a :: 0 <= a < |arrays| ==> (mask[a] <==> arrays[a].alive && RootOf(arrays, a) == r)
  {
    seq(|arrays|, a requires 0 <= a < |arrays| => arrays[a].alive && RootOf(arrays, a) == r)
  }

  function FamilyCounts(arrays: seq<Node>, mask: seq<bool>, m: nat): int
    requires m <= |arrays| == |mask|
  {
    if m == 0 then 0 else FamilyCounts(arrays, mask, m - 1) + if mask[m - 1] then arrays[m - 1].count else 0
  }

  /** Summing the balance over a family. */
  lemma {:induction false} FamilyBalance(arrays: seq<Node>, holders: seq<Edge>, mask: seq<bool>, m: nat)
    requires m <= |arrays| == |mask| && Balanced(arrays, holders)
    requires forall a :: 0 <= a < |mask| && mask[a] ==> arrays[a].alive
    ensures FamilyCounts(arrays, mask, m)
         == ByTarget(mask, holders, m) + ByTarget(mask, ParentEdges(arrays), m)
  {
    if m > 0 {
      FamilyBalance(arrays, holders, mask, m - 1);
      if mask[m - 1] {
        assert Sum(arrays, holders, m - 1) == arrays[m - 1].count;
      }
    }
  }

  /** A member of the family other than the root has its parent in the family. */
  lemma MemberEdge(arrays: seq<Node>, r: nat, a: nat)
    requires Tree(arrays) && r < |arrays| && arrays[r].alive && arrays[r].parent.None? && a < |arrays|
    ensures var mask := Family(arrays, r);
            (if mask[a] then arrays[a].count else 0) == Marked(mask, ParentEdge(arrays[a])) + if a == r then arrays[r].count else 0
  {
    if arrays[a].alive && arrays[a].parent.Some? {
      assert RootOf(arrays, a) == RootOf(arrays, arrays[a].parent.value);
    }
  }

  lemma IntoUpTo(mask: seq<bool>, edges: seq<Edge>, m: nat)
    requires m < |edges|
    ensures Into(mask, edges[..m + 1]) == Into(mask, edges[..m]) + Marked(mask, edges[m])
  {
    assert edges[..m + 1][..m] == edges[..m];
  }

  /** What children bring to their parents is the family's counts without the root's. */
  lemma {:induction false} ChildrenInFamily(arrays: seq<Node>, r: nat, m: nat)
    requires Tree(arrays) && r < |arrays| && arrays[r].alive && arrays[r].parent.None? && m <= |arrays|
    ensures var mask := Family(arrays, r);
            FamilyCounts(arrays, mask, m) == Into(mask, ParentEdges(arrays)[..m]) + if r < m then arrays[r].count else 0
  {
    if m > 0 {
      hide Tree, RootOf, Into, Marked, ParentEdge;
      ChildrenInFamily(arrays, r, m - 1);
      MemberEdge(arrays, r, m - 1);
      IntoUpTo(Family(arrays, r), ParentEdges(arrays), m - 1);
    }
  }

  /** A root's count is the count of all holders anywhere in its family. */
  lemma RootCountsFamily(arrays: seq<Node>, holders: seq<Edge>, r: nat)
    requires Tree(arrays) && Balanced(arrays, holders)
    requires r < |arrays| && arrays[r].alive && arrays[r].parent.None?
    ensures arrays[r].count == Into(Family(arrays, r), holders)
  {
    var mask, edges := Family(arrays, r), ParentEdges(arrays);
    FamilyBalance(arrays, holders, mask, |arrays|);
    ChildrenInFamily(arrays, r, |arrays|);
    IntoByTarget(mask, holders);
    IntoByTarget(mask, edges);
    assert edges[..|arrays|] == edges;
  }

  // ---- Nothing else to know --------------------------------------------------------------------

  lemma {:induction false} SameTotals(edges: seq<Edge>, others: seq<Edge>, t: nat)
    requires |edges| == |others| && forall i :: 0 <= i < |edges| ==> Share(edges[i], t) == Share(others[i], t)
    ensures Total(edges, t) == Total(others, t)
  {
    if edges != [] {
      SameTotals(edges[..|edges| - 1], others[..|others| - 1], t);
    }
  }

  /** Who holds what determines all counts: arrays that agree but for counts, and are balanced under the same
      holders, agree. */
  lemma {:induction false} CountsDetermined(arrays: seq<Node>, others: seq<Node>, holders: seq<Edge>, m: nat)
    requires Tree(arrays) && SameButCounts(arrays, others) && Balanced(arrays, holders) && Balanced(others, holders)
    requires m <= |arrays|
    ensures forall a :: m <= a < |arrays| && arrays[a].alive ==> others[a] == arrays[a]
    decreases |arrays| - m
  {
    if m < |arrays| {
      CountsDetermined(arrays, others, holders, m + 1);
      if arrays[m].alive {
        forall i | 0 <= i < |arrays| ensures Share(ParentEdges(arrays)[i], m) == Share(ParentEdges(others)[i], m) {
          assert others[i] == arrays[i].(count := others[i].count);
          assert arrays[i].alive && arrays[i].parent == Some(m) ==> m < i;
        }
        SameTotals(ParentEdges(arrays), ParentEdges(others), m);
        assert Sum(arrays, holders, m) == arrays[m].count && Sum(others, holders, m) == others[m].count;
      }
    }
  }
}
