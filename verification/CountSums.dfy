/** Sums of counts over the objects that hold a given object. */
module CountSums {
  import opened Wrappers

  /** One object holding another, and the count it brings along. */
  datatype Edge = Edge(to: Option<nat>, count: int)

  function Share(e: Edge, t: nat): int { if e.to == Some(t) then e.count else 0 }

  /** The counts of all holders of `t`. */
  function Total(edges: seq<Edge>, t: nat): int {
    if edges == [] then 0 else Total(edges[..|edges| - 1], t) + Share(edges[|edges| - 1], t)
  }

  lemma {:induction false} TotalUpdate(edges: seq<Edge>, i: nat, e: Edge, t: nat)
    requires i < |edges|
    ensures Total(edges[i := e], t) == Total(edges, t) - Share(edges[i], t) + Share(e, t)
  {
    var last := |edges| - 1;
    if i < last {
      TotalUpdate(edges[..last], i, e, t);
      assert edges[i := e][..last] == edges[..last][i := e];
    } else {
      assert edges[i := e][..last] == edges[..last];
    }
  }

  lemma TotalAppend(edges: seq<Edge>, e: Edge, t: nat)
    ensures Total(edges + [e], t) == Total(edges, t) + Share(e, t)
  {
    assert (edges + [e])[..|edges|] == edges;
  }

  lemma {:induction false} TotalNone(edges: seq<Edge>, t: nat)
    requires forall i :: 0 <= i < |edges| ==> edges[i].to != Some(t)
    ensures Total(edges, t) == 0
  {
    if edges != [] {
      TotalNone(edges[..|edges| - 1], t);
    }
  }

  // ---- Sums over several targets ---------------------------------------------------------------

  function Marked(mask: seq<bool>, e: Edge): int {
    if e.to.Some? && e.to.value < |mask| && mask[e.to.value] then e.count else 0
  }

  /** The counts of all edges into marked targets. */
  function Into(mask: seq<bool>, edges: seq<Edge>): int {
    if edges == [] then 0 else Into(mask, edges[..|edges| - 1]) + Marked(mask, edges[|edges| - 1])
  }

  /** The same, target by target. */
  function ByTarget(mask: seq<bool>, edges: seq<Edge>, m: nat): int
    requires m <= |mask|
  {
    if m == 0 then 0 else ByTarget(mask, edges, m - 1) + if mask[m - 1] then Total(edges, m - 1) else 0
  }

  lemma {:induction false} ByTargetAppend(mask: seq<bool>, edges: seq<Edge>, e: Edge, m: nat)
    requires m <= |mask|
    ensures ByTarget(mask, edges + [e], m)
         == ByTarget(mask, edges, m) + if e.to.Some? && e.to.value < m && mask[e.to.value] then e.count else 0
  {
    if m > 0 {
      ByTargetAppend(mask, edges, e, m - 1);
      TotalAppend(edges, e, m - 1);
    }
  }

  lemma {:induction false} ByTargetNothing(mask: seq<bool>, m: nat)
    requires m <= |mask|
    ensures ByTarget(mask, [], m) == 0
  {
    if m > 0 {
      ByTargetNothing(mask, m - 1);
    }
  }

  lemma {:induction false} IntoByTarget(mask: seq<bool>, edges: seq<Edge>)
    ensures ByTarget(mask, edges, |mask|) == Into(mask, edges)
  {
    if edges == [] {
      ByTargetNothing(mask, |mask|);
    } else {
      var last := |edges| - 1;
      IntoByTarget(mask, edges[..last]);
      ByTargetAppend(mask, edges[..last], edges[last], |mask|);
      assert edges == edges[..last] + [edges[last]];
    }
  }
}
