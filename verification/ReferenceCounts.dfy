/** Variables, NdArrays and the arrays under them, with the counts of references that users hold, kept
    so that any array can tell how many users its whole family has. */
module ReferenceCounts {
  import opened Arithmetic
  import opened ArrayCounts
  import opened CountSums
  import opened Shapes
  import opened Wrappers

  import ViewTree

  datatype NdArray = NdArray(alive: bool, shape: seq<nat>, size: nat, strides: seq<nat>, store: nat, count: int)

  datatype Variable = Variable(alive: bool, shape: seq<nat>, data: nat, grad: nat, count: int)

  function ArrayEdge(n: NdArray): Edge {
    if n.alive then Edge(Some(n.store), n.count) else Edge(None, 0)
  }

  /** The holders of arrays. */
  function ArrayEdges(ndArrays: seq<NdArray>): (edges: seq<Edge>)
    ensures |edges| == |ndArrays| && forall i :: 0 <= i < |ndArrays| ==> edges[i] == ArrayEdge(ndArrays[i])
  {
    seq(|ndArrays|, i requires 0 <= i < |ndArrays| => ArrayEdge(ndArrays[i]))
  }

  function DataEdge(v: Variable): Edge {
    if v.alive then Edge(Some(v.data), v.count) else Edge(None, 0)
  }

  /** The variables that hold NdArrays as their data; gradients are not counted. */
  function DataEdges(variables: seq<Variable>): (edges: seq<Edge>)
    ensures |edges| == |variables| && forall i :: 0 <= i < |variables| ==> edges[i] == DataEdge(variables[i])
  {
    seq(|variables|, i requires 0 <= i < |variables| => DataEdge(variables[i]))
  }

  /** What every NdArray's count is made of. */
  ghost predicate CountsUsers(ndArrays: seq<NdArray>, direct: seq<int>, holders: seq<Edge>) {
    && |direct| == |ndArrays|
    && forall k: nat :: k < |ndArrays| && ndArrays[k].alive ==> ndArrays[k].count == direct[k] + Total(holders, k)
  }

  /** The shape information is that of the shape and fits the array. */
  ghost predicate Shaped(n: NdArray, arrays: seq<Node>)
    requires n.store < |arrays|
  {
    n.size == Product(n.shape) && n.strides == Strides(n.shape) && arrays[n.store].size == n.size
  }

  predicate Stored(n: NdArray, arrays: seq<Node>) {
    n.store < |arrays| && arrays[n.store].alive
  }

  /** Arrays and the NdArrays that hold them. */
  ghost predicate Lower(arrays: seq<Node>, ndArrays: seq<NdArray>) {
    && Tree(arrays) && Placed(arrays) && Balanced(arrays, ArrayEdges(ndArrays))
    && forall k :: 0 <= k < |ndArrays| && ndArrays[k].alive ==> Stored(ndArrays[k], arrays)
  }

  ghost predicate AllShaped(arrays: seq<Node>, ndArrays: seq<NdArray>) {
    forall k :: 0 <= k < |ndArrays| && ndArrays[k].alive ==>
      Stored(ndArrays[k], arrays) && Shaped(ndArrays[k], arrays)
  }

  predicate Held(ndArrays: seq<NdArray>, k: nat) {
    k < |ndArrays| && ndArrays[k].alive
  }

  /** NdArrays and the variables that hold them. */
  ghost predicate Upper(variables: seq<Variable>, ndArrays: seq<NdArray>, direct: seq<int>) {
    && CountsUsers(ndArrays, direct, DataEdges(variables))
    && forall v :: 0 <= v < |variables| && variables[v].alive ==>
         Held(ndArrays, variables[v].data) && Held(ndArrays, variables[v].grad)
  }

  // ---- What is new -----------------------------------------------------------------------------

  /** A new NdArray of the shape on an array. */
  function OnArray(shape: seq<nat>, store: nat): NdArray {
    NdArray(true, shape, Product(shape), Strides(shape), store, 0)
  }

  /** `after` is `before`, up to counts, and behind it one new array of its own for each of the sizes. */
  ghost predicate NewRoots(before: seq<Node>, after: seq<Node>, sizes: seq<nat>) {
    && |after| == |before| + |sizes| && SameButCounts(before, after[..|before|])
    && forall i :: 0 <= i < |sizes| ==>
         after[|before| + i] == Node(true, None, sizes[i], 0, after[|before| + i].count)
  }

  /** An NdArray in another shape: on its array if the size is the same, else on array `other`. */
  function InShape(n: NdArray, shape: seq<nat>, other: nat): NdArray {
    n.(shape := shape, size := Product(shape), strides := Strides(shape),
       store := if n.size == Product(shape) then n.store else other)
  }

  /** The sizes of the arrays that another shape asks for. */
  function NewSizes(n: NdArray, shape: seq<nat>): seq<nat> { if n.size == Product(shape) then [] else [Product(shape)] }

  /** What NdArray::reshape leaves behind. */
  ghost predicate NdReshaped(before: seq<NdArray>, arrays: seq<Node>, after: seq<NdArray>, arrays': seq<Node>,
                             k: nat, shape: seq<nat>, ok: bool)
    requires k < |before|
  {
    if ok then
      && after == before[k := InShape(before[k], shape, |arrays|)]
      && NewRoots(arrays, arrays', NewSizes(before[k], shape)) && (NewSizes(before[k], shape) == [] ==> arrays' == arrays)
    else after == before && arrays' == arrays
  }

  /** The variable that a view leaves: destroyed if data or gradient have another shape by now. */
  function Viewed(x: Variable, ndArrays: seq<NdArray>): Variable {
    var data, grad := HasShape(ndArrays, x.data, x.shape), HasShape(ndArrays, x.grad, x.shape);
    Variable(data && grad, x.shape, if data then x.data else |ndArrays|, if data && grad then x.grad else |ndArrays| + 1, 0)
  }

  /** The variable that a view in another shape leaves, on views of data and gradient. */
  function ViewedAs(x: Variable, ndArrays: seq<NdArray>, shape: seq<nat>): Variable {
    var data, grad := HasSize(ndArrays, x.data, Product(shape)), HasSize(ndArrays, x.grad, Product(shape));
    Variable(data && grad, shape, |ndArrays| + (if data then 2 else 0), |ndArrays| + (if data && grad then 3 else 1), 0)
  }

  /** The NdArrays after a view in another shape has been tried. */
  function ViewedIn(x: Variable, ndArrays: seq<NdArray>, arrays: nat, shape: seq<nat>): seq<NdArray> {
    var made := ndArrays + [OnArray(shape, arrays), OnArray(shape, arrays + 1)];
    if !HasSize(ndArrays, x.data, Product(shape)) then made
    else if !HasSize(ndArrays, x.grad, Product(shape)) then made + [OnArray(shape, ndArrays[x.data].store)]
    else made + [OnArray(shape, ndArrays[x.data].store), OnArray(shape, ndArrays[x.grad].store)]
  }

  class Registry {
    var variables: seq<Variable>
    var ndArrays: seq<NdArray>
    var arrays: seq<Node>
    /** Per NdArray, the references users hold to it directly. */
    ghost var direct: seq<int>

    ghost predicate Valid()
      reads this
    {
      Lower(arrays, ndArrays) && AllShaped(arrays, ndArrays) && Upper(variables, ndArrays, direct)
    }

    constructor ()
      ensures Valid() && variables == [] && ndArrays == [] && arrays == [] && direct == []
    {
      variables, ndArrays, arrays, direct := [], [], [], [];
    }

    // ---- Counts ----------------------------------------------------------------------------------

    /** SyncedArray::update_python_user_reference_counts. */
    method UpdateArray(a: nat, diff: int)
      requires Tree(arrays) && a < |arrays| && arrays[a].alive
      modifies `arrays
      ensures arrays == Bumped(old(arrays), a, diff)
      decreases a
    {
      arrays := arrays[a := arrays[a].(count := arrays[a].count + diff)];
      if arrays[a].parent.Some? {
        UpdateArray(arrays[a].parent.value, diff);
      }
    }

    /** NdArray::update_python_user_reference_counts. */
    method UpdateNdArray(k: nat, diff: int)
      requires Lower(arrays, ndArrays) && Held(ndArrays, k)
      modifies `arrays, `ndArrays
      ensures Lower(arrays, ndArrays) && SameButCounts(old(arrays), arrays)
      ensures ndArrays == Counted(old(ndArrays), k, diff)
    {
      LowerFacts(arrays, ndArrays, k);
      CountingKeepsLower(arrays, ndArrays, k, diff);
      assert Counted(ndArrays, k, diff) == ndArrays[k := ndArrays[k].(count := ndArrays[k].count + diff)];
      hide *;
      ndArrays := ndArrays[k := ndArrays[k].(count := ndArrays[k].count + diff)];
      UpdateArray(ndArrays[k].store, diff);
    }

    /** A user takes or drops references to a variable. */
    method UpdateVariable(v: nat, diff: int)
      requires Valid() && v < |variables| && variables[v].alive
      modifies `variables, `ndArrays, `arrays
      ensures Valid() && SameButCounts(old(arrays), arrays)
      ensures variables == old(variables)[v := old(variables[v]).(count := old(variables[v]).count + diff)]
      ensures variables[v].data < |old(ndArrays)| && ndArrays == Counted(old(ndArrays), variables[v].data, diff)
    {
      hide Lower, SameButCounts, AllShaped;
      DataHolderChanged(variables, v, variables[v].(count := variables[v].count + diff));
      variables := variables[v := variables[v].(count := variables[v].count + diff)];
      UpdateNdArray(variables[v].data, diff);
      CountsKeepShapes(old(arrays), arrays, old(ndArrays), variables[v].data, diff);
    }

    /** A user takes or drops references to an NdArray itself. */
    method UpdateDirect(k: nat, diff: int)
      requires Valid() && k < |ndArrays| && Held(ndArrays, k)
      modifies `ndArrays, `arrays, `direct
      ensures Valid() && SameButCounts(old(arrays), arrays) && direct == old(direct)[k := old(direct[k]) + diff]
      ensures ndArrays == Counted(old(ndArrays), k, diff)
    {
      hide Lower, SameButCounts, AllShaped;
      UpdateNdArray(k, diff);
      CountsKeepShapes(old(arrays), arrays, old(ndArrays), k, diff);
      direct := direct[k := direct[k] + diff];
    }

    /** The count of an array's whole family, found at the root. */
    method GetCount(a: nat) returns (count: int)
      requires Valid() && a < |arrays| && arrays[a].alive
      ensures count == arrays[RootOf(arrays, a)].count
      ensures var users := NdArraysOf(ndArrays, Family(arrays, RootOf(arrays, a)));
              count == DirectUsers(direct, users, |users|) + Into(users, DataEdges(variables))
    {
      var x: nat := a;
      while arrays[x].parent.Some?
        invariant x < |arrays| && arrays[x].alive && RootOf(arrays, x) == RootOf(arrays, a)
        decreases x
      {
        x := arrays[x].parent.value;
      }
      RootCountsFamily(arrays, ArrayEdges(ndArrays), x);
      UsersOfFamily(variables, ndArrays, direct, Family(arrays, x));
      count := arrays[x].count;
    }

    // ---- Holding something else ------------------------------------------------------------------

    /** NdArray::set_array: the new array takes over the count, the old one loses it. */
    method SetArray(k: nat, a: nat) returns (r: Result<nat>)
      requires Lower(arrays, ndArrays) && k < |ndArrays| && Held(ndArrays, k) && a < |arrays| && arrays[a].alive
      modifies `ndArrays, `arrays
      ensures Lower(arrays, ndArrays) && SameButCounts(old(arrays), arrays)
      ensures old(Valid()) ==> Valid()
      ensures r.Success? <==> old(ndArrays[k].size == arrays[a].size)
      ensures ndArrays == if r.Success? then old(ndArrays)[k := old(ndArrays[k]).(store := a)] else old(ndArrays)
    {
      hide *;
      LowerFacts(arrays, ndArrays, k);
      SameSelf(arrays);
      IfValid(this, k, a);
      if ndArrays[k].size != arrays[a].size {
        return Failure("Size must match.");
      }
      var count, was := ndArrays[k].count, ndArrays[k].store;
      Transfer(arrays, ndArrays, k, a);
      RehungIs(arrays, was, a, count);
      UpdateArray(a, count);
      UpdateArray(was, -count);
      ndArrays := ndArrays[k := ndArrays[k].(store := a)];
      if old(Valid()) {
        SameShapes(old(arrays), arrays, ndArrays);
        PartsValid(this);
      }
      r := Success(a);
    }

    /** Variable::set_data: the new NdArray takes over the variable's count, the old one loses it. */
    method SetData(v: nat, k: nat) returns (r: Result<nat>)
      requires Valid() && v < |variables| && variables[v].alive && k < |ndArrays| && Held(ndArrays, k)
      modifies `variables, `ndArrays, `arrays
      ensures Valid() && SameButCounts(old(arrays), arrays)
      ensures r.Success? <==> old(ndArrays[k].shape == variables[v].shape)
      ensures variables == if r.Success? then old(variables)[v := old(variables[v]).(data := k)] else old(variables)
      ensures old(variables[v]).data < |old(ndArrays)|
      ensures ndArrays == if r.Success? then Handed(old(ndArrays), old(variables[v]).data, k, old(variables[v]).count)
                          else old(ndArrays)
    {
      hide *;
      ValidParts(this);
      SameSelf(arrays);
      HolderFacts(this, v);
      if ndArrays[k].shape != variables[v].shape {
        return Failure("Shape must match.");
      }
      var count, was := variables[v].count, variables[v].data;
      HandedIs(ndArrays, was, k, count);
      DataMoved(variables, ndArrays, direct, v, k);
      CountedStaysHeld(ndArrays, k, count, was);
      UpdateNdArray(k, count);
      CountsKeepShapes(old(arrays), arrays, old(ndArrays), k, count);
      ghost var middle, between := arrays, ndArrays;
      UpdateNdArray(was, -count);
      CountsKeepShapes(middle, arrays, between, was, -count);
      SameTwice(old(arrays), middle, arrays);
      variables := variables[v := variables[v].(data := k)];
      PartsValid(this);
      r := Success(k);
    }

    // ---- New objects -----------------------------------------------------------------------------

    /** The SyncedArray constructors. */
    method AddArray(parent: Option<nat>, size: nat, offset: nat) returns (a: nat)
      requires Valid() && Fits(arrays, Node(true, parent, size, offset, 0))
      modifies `arrays
      ensures Valid() && a == |old(arrays)| && arrays == old(arrays) + [Node(true, parent, size, offset, 0)]
    {
      hide *;
      ValidParts(this);
      ArrayAdded(arrays, ndArrays, Node(true, parent, size, offset, 0));
      a := |arrays|;
      arrays := arrays + [Node(true, parent, size, offset, 0)];
      PartsValid(this);
    }

    /** The NdArray constructor on an array that exists. */
    method AddNdArray(store: nat, shape: seq<nat>) returns (r: Result<nat>)
      requires Valid() && store < |arrays| && arrays[store].alive
      modifies `ndArrays, `direct
      ensures Valid() && (r.Success? <==> arrays[store].size == Product(shape))
      ensures r.Success? ==>
                && r.value == |old(ndArrays)| && direct == old(direct) + [0]
                && ndArrays == old(ndArrays) + [NdArray(true, shape, Product(shape), Strides(shape), store, 0)]
      ensures r.Failure? ==> ndArrays == old(ndArrays) && direct == old(direct)
    {
      hide *;
      ValidParts(this);
      var strides := GetContiguousStrides(shape);
      if arrays[store].size != Product(shape) {
        return Failure("The total size of array must be the same as the shape.");
      }
      var n := NdArray(true, shape, Product(shape), strides, store, 0);
      NdArrayAdded(variables, ndArrays, arrays, direct, n);
      r := Success(|ndArrays|);
      ndArrays, direct := ndArrays + [n], direct + [0];
      PartsValid(this);
    }

    /** The NdArray constructor on a new array. */
    method NewNdArray(shape: seq<nat>) returns (k: nat)
      requires Valid()
      modifies `arrays, `ndArrays, `direct
      ensures Valid() && k == |old(ndArrays)|
      ensures arrays == old(arrays) + [Node(true, None, Product(shape), 0, 0)]
      ensures ndArrays
           == old(ndArrays) + [NdArray(true, shape, Product(shape), Strides(shape), |old(arrays)|, 0)]
      ensures direct == old(direct) + [0]
    {
      var a := AddArray(None, Product(shape), 0);
      var r := AddNdArray(a, shape);
      k := r.value;
    }

    /** The Variable constructor on a shape. */
    method NewVariable(shape: seq<nat>) returns (v: nat)
      requires Valid()
      modifies this
      ensures Valid() && v == |old(variables)|
      ensures variables
           == old(variables) + [Variable(true, shape, |old(ndArrays)|, |old(ndArrays)| + 1, 0)]
      ensures arrays == old(arrays) + [Node(true, None, Product(shape), 0, 0), Node(true, None, Product(shape), 0, 0)]
      ensures ndArrays == old(ndArrays) + [OnArray(shape, |old(arrays)|), OnArray(shape, |old(arrays)| + 1)]
      ensures direct == old(direct) + [0, 0]
    {
      var data := NewNdArray(shape);
      var grad := NewNdArray(shape);
      var x := Variable(true, shape, data, grad, 0);
      VariableAdded(variables, ndArrays, direct, x);
      v := |variables|;
      variables := variables + [x];
    }

    method SetGrad(v: nat, k: nat) returns (r: Result<nat>)
      requires Valid() && v < |variables| && variables[v].alive && k < |ndArrays| && Held(ndArrays, k)
      modifies `variables
      ensures Valid() && (r.Success? <==> old(ndArrays[k].shape == variables[v].shape))
      ensures variables == if r.Success? then old(variables)[v := old(variables[v]).(grad := k)] else old(variables)
    {
      hide *;
      ValidParts(this);
      if ndArrays[k].shape != variables[v].shape {
        return Failure("Shape must match.");
      }
      GradMoved(variables, ndArrays, direct, v, k);
      variables := variables[v := variables[v].(grad := k)];
      PartsValid(this);
      r := Success(k);
    }

    // ---- Views, narrowing and reshaping ----------------------------------------------------------

    /** NdArray::view: another shape on the same array. */
    method NdView(k: nat, shape: seq<nat>) returns (r: Result<nat>)
      requires Valid() && k < |ndArrays| && ndArrays[k].alive
      modifies `ndArrays, `direct
      ensures Valid() && (r.Success? <==> old(ndArrays[k].size) == Product(shape))
      ensures r.Success? ==>
                && r.value == |old(ndArrays)| && direct == old(direct) + [0]
                && ndArrays == old(ndArrays)
                             + [NdArray(true, shape, Product(shape), Strides(shape), old(ndArrays[k].store), 0)]
      ensures r.Failure? ==> ndArrays == old(ndArrays) && direct == old(direct)
    {
      hide *;
      ShapeFacts(this, k);
      r := AddNdArray(ndArrays[k].store, shape);
    }

    /** The check against the children the parent already has. */
    method OverlapsChild(parent: nat, begin: nat, size: nat) returns (overlap: bool)
      ensures overlap <==> exists a :: 0 <= a < |arrays| && ChildOverlaps(arrays[a], parent, begin, size)
    {
      overlap := false;
      var a := 0;
      while a < |arrays|
        invariant a <= |arrays|
        invariant overlap <==> exists b :: 0 <= b < a && ChildOverlaps(arrays[b], parent, begin, size)
      {
        overlap := overlap || ChildOverlaps(arrays[a], parent, begin, size);
        a := a + 1;
      }
    }

    /** NdArray::narrow: a new array for rows `start` up to `start + length`, inside the old one. */
    method Narrow(k: nat, dim: int, start: int, length: int) returns (r: Result<nat>)
      requires Valid() && k < |ndArrays| && ndArrays[k].alive && |ndArrays[k].shape| > 0
      modifies `arrays, `ndArrays, `direct
      ensures Valid()
      ensures r.Success? <==>
                && dim == 0 && 0 <= start && 0 <= length && start + length <= old(ndArrays[k].shape[0])
                && !exists a :: 0 <= a < |old(arrays)|
                     && ChildOverlaps(old(arrays)[a], old(ndArrays[k].store), NarrowedOffset(old(ndArrays[k].shape), start),
                                      Product(NarrowedShape(old(ndArrays[k].shape), length)))
      // the ranges of the part and of a living child of the same array do not meet
      ensures r.Success? <==>
                && dim == 0 && 0 <= start && 0 <= length && start + length <= old(ndArrays[k].shape[0])
                && var shape := old(ndArrays[k].shape);
                   var begin, size := NarrowedOffset(shape, start), Product(NarrowedShape(shape, length));
                   !exists a :: 0 <= a < |old(arrays)| && old(arrays)[a].alive && old(arrays)[a].parent == Some(old(ndArrays[k].store))
                     && begin <= old(arrays)[a].offset + old(arrays)[a].size - 1 && old(arrays)[a].offset <= begin + size - 1
      ensures r.Success? ==>
                var shape := NarrowedShape(old(ndArrays[k].shape), length);
                && r.value == |old(ndArrays)| && direct == old(direct) + [0]
                && arrays == old(arrays) + [Node(true, Some(old(ndArrays[k].store)), Product(shape),
                                                 NarrowedOffset(old(ndArrays[k].shape), start), 0)]
                && ndArrays == old(ndArrays)
                             + [NdArray(true, shape, Product(shape), Strides(shape), |old(arrays)|, 0)]
      ensures r.Failure? ==> arrays == old(arrays) && ndArrays == old(ndArrays) && direct == old(direct)
    {
      if dim != 0 {
        return Failure("dim is out of range (expected to be 0).");
      }
      if start < 0 {
        return Failure("start is out of range.");
      }
      if length < 0 {
        return Failure("negative number for length is not permitted.");
      }
      if start + length > ndArrays[k].shape[0] {
        return Failure("start + length exceeds dimension size.");
      }
      hide *;
      ShapeFacts(this, k);
      var shape := NarrowedShape(ndArrays[k].shape, length);
      var offset, size := NarrowedOffset(ndArrays[k].shape, start), Product(shape);
      NarrowedInside(ndArrays[k].shape, start, length);
      OverlapsIs(arrays, ndArrays[k].store, offset, size);
      var overlap := OverlapsChild(ndArrays[k].store, offset, size);
      if overlap {
        return Failure("It is not possible to create Child-Array that has overlapped areas.");
      }
      ChildFits(arrays, ndArrays[k].store, size, offset);
      var a := AddArray(Some(ndArrays[k].store), size, offset);
      r := AddNdArray(a, shape);
    }

    /** NdArray::reshape: a new shape on the same array if the size allows, else, if forced and not
        narrowed, on a new one. */
    method NdReshape(k: nat, shape: seq<nat>, force: bool) returns (ok: bool)
      requires Valid() && k < |ndArrays| && ndArrays[k].alive
      modifies `arrays, `ndArrays
      ensures Valid() && (ok <==> CanReshape(old(ndArrays), old(arrays), k, shape, force))
      // the same size, or force on an array that is not narrowed
      ensures old(ndArrays[k]).store < |old(arrays)|
      ensures ok <==> old(ndArrays[k]).size == Product(shape) || (force && old(arrays)[old(ndArrays[k]).store].parent.None?)
      // the array stays with the size, else there is a new one of its own; nothing else changes
      ensures |ndArrays| == |old(ndArrays)| && ndArrays == old(ndArrays)[k := ndArrays[k]]
      ensures ok ==> ndArrays[k].shape == shape && ndArrays[k].size == Product(shape) && ndArrays[k].count == old(ndArrays[k]).count
      ensures old(ndArrays[k]).size == Product(shape) ==> ndArrays[k].store == old(ndArrays[k]).store && arrays == old(arrays)
      ensures ok && old(ndArrays[k]).size != Product(shape) ==>
                && ndArrays[k].store == |old(arrays)| && |arrays| == |old(arrays)| + 1
                && arrays[|old(arrays)|] == Node(true, None, Product(shape), 0, arrays[|old(arrays)|].count)
      ensures NdReshaped(old(ndArrays), old(arrays), ndArrays, arrays, k, shape, ok)
    {
      hide *;
      ShapeFacts(this, k);
      ReshapeCases(ndArrays, arrays, k, shape, force);
      InShapeIs(ndArrays, k, shape, |arrays|);
      NotReshaped(ndArrays, arrays, k, shape);
      if ndArrays[k].shape == shape {
        StridesFacts(this, k);
        InPlace(ndArrays, arrays, ndArrays, k, shape);
        return true;
      }
      var strides := GetContiguousStrides(shape);
      var size := Product(shape);
      ghost var reshaped := ndArrays[k := ndArrays[k].(shape := shape, size := size, strides := strides)];
      if ndArrays[k].size == size {
        ReshapedInPlace(this, k, shape);
        ndArrays := ndArrays[k := ndArrays[k].(shape := shape, size := size, strides := strides)];
        PartsValid(this);
        InPlace(old(ndArrays), arrays, ndArrays, k, shape);
        return true;
      }
      if !force || arrays[ndArrays[k].store].parent.Some? {
        return false;
      }
      NoParentFits(arrays, size);
      var a := AddArray(None, size, 0);
      ReshapedElsewhere(this, k, shape, a);
      ndArrays := ndArrays[k := ndArrays[k].(shape := shape, size := size, strides := strides)];
      ghost var before := arrays;
      var r := SetArray(k, a);
      AllShapedAgain(before, arrays, reshaped, k, a, shape);
      OneRoot(old(arrays), before, arrays, size);
      Elsewhere(old(ndArrays), old(arrays), ndArrays, arrays, k, shape);
      PartsValid(this);
      ok := true;
    }

    /** Variable::reshape.  The variable takes its new shape before its data and gradient are asked, and
        keeps it if one of them refuses. */
    method Reshape(v: nat, shape: seq<nat>, force: bool) returns (ok: bool)
      requires Valid() && v < |variables| && variables[v].alive
      modifies `variables, `arrays, `ndArrays
      ensures Valid()
      ensures ok <==> MayReshape(old(variables[v]), old(ndArrays), old(arrays), shape, force)
      // the shape it has; or the size it has, or force, and data and gradient can follow, by force if the size changes
      ensures var x, size := old(variables[v]), Product(shape);
              && x.data < |old(ndArrays)| && x.grad < |old(ndArrays)|
              && var n, m := old(ndArrays)[x.data], old(ndArrays)[x.grad];
                 && n.store < |old(arrays)| && m.store < |old(arrays)|
                 && (ok <==>
                       || x.shape == shape
                       || (if Product(x.shape) == size then n.size == size && m.size == size
                           else
                             && force && (n.size == size || old(arrays)[n.store].parent.None?)
                             && (m.size == size || old(arrays)[m.store].parent.None?)))
      ensures variables == old(variables)[v := old(variables[v]).(
                shape := if Product(old(variables[v].shape)) == Product(shape) || force then shape else old(variables[v].shape))]
      ensures Reached(old(variables[v]), old(ndArrays), old(arrays), ndArrays, arrays, shape, force)
      // in fields: data and gradient follow, each on its array if its size stays
      ensures |ndArrays| == |old(ndArrays)| && |arrays| >= |old(arrays)|
      ensures ok && old(variables[v].shape) != shape ==>
                forall k :: k == old(variables[v].data) || k == old(variables[v].grad) ==>
                  Followed(old(ndArrays), old(arrays), ndArrays, arrays, shape, k)
      ensures forall k :: 0 <= k < |ndArrays| && k != old(variables[v].data) && k != old(variables[v].grad) ==>
                ndArrays[k] == old(ndArrays)[k]
    {
      hide *;
      ghost var x := variables[v];
      HolderFacts(this, v);
      FollowsIs(this, x, shape, force);
      ok := ReshapeNow(v, shape, force);
      ReachedIs(x, old(ndArrays), old(arrays), ndArrays, arrays, shape, force);
    }

    method ReshapeNow(v: nat, shape: seq<nat>, force: bool) returns (ok: bool)
      requires Valid() && v < |variables| && variables[v].alive
      modifies `variables, `arrays, `ndArrays
      ensures Valid()
      ensures ok <==> MayReshape(old(variables[v]), old(ndArrays), old(arrays), shape, force)
      ensures variables == old(variables)[v := old(variables[v]).(
                shape := if Product(old(variables[v].shape)) == Product(shape) || force then shape else old(variables[v].shape))]
      ensures Reached(old(variables[v]), old(ndArrays), old(arrays), ndArrays, arrays, shape, force)
    {
      hide *;
      HolderFacts(this, v);
      ghost var x := variables[v];
      ReshapeFacts(variables[v], ndArrays, arrays, shape, force);
      if variables[v].shape == shape {
        assert variables == variables[v := variables[v].(shape := shape)];
        NotReached(x, ndArrays, arrays, shape, force);
        return true;
      }
      var grows := Product(variables[v].shape) != Product(shape);
      if grows && !force {
        assert variables == variables[v := variables[v].(shape := variables[v].shape)];
        NotReached(x, ndArrays, arrays, shape, force);
        return false;
      }
      ValidParts(this);
      VariableReshaped(variables, ndArrays, direct, v, shape);
      variables := variables[v := variables[v].(shape := shape)];
      PartsValid(this);
      ok := NdReshape(variables[v].data, shape, grows);
      if !ok {
        RefusedIs(old(ndArrays), old(arrays), ndArrays, arrays, x.data, shape);
        NotReached(x, ndArrays, arrays, shape, force);
        return;
      }
      HolderFacts(this, v);
      GradStill(old(ndArrays), ndArrays, old(arrays), arrays, variables[v].data, variables[v].grad, shape, grows);
      ghost var between, middle := ndArrays, arrays;
      ok := NdReshape(variables[v].grad, shape, grows);
      HalfReached(x, old(ndArrays), old(arrays), between, middle, ndArrays, arrays, shape, force, ok);
    }

    /** Variable::view: a second variable on the same data and gradient.  It is given up if they have
        another shape by now. */
    method View(v: nat) returns (r: Result<nat>)
      requires Valid() && v < |variables| && variables[v].alive
      modifies this
      ensures Valid() && direct == old(direct) + [0, 0]
      ensures NewRoots(old(arrays), arrays, [Product(old(variables[v].shape)), Product(old(variables[v].shape))])
      ensures ndArrays == old(ndArrays) + [OnArray(old(variables[v].shape), |old(arrays)|),
                                           OnArray(old(variables[v].shape), |old(arrays)| + 1)]
      ensures var x := old(variables[v]);
              r.Success? <==> HasShape(old(ndArrays), x.data, x.shape) && HasShape(old(ndArrays), x.grad, x.shape)
      ensures r.Success? ==> r.value == |old(variables)|
      ensures variables == old(variables) + [Viewed(old(variables[v]), old(ndArrays))]
      // in fields
      ensures var x, made := old(variables[v]), variables[|old(variables)|];
              && x.data < |old(ndArrays)| && x.grad < |old(ndArrays)|
              && (r.Success? <==> old(ndArrays)[x.data].shape == x.shape && old(ndArrays)[x.grad].shape == x.shape)
              && made.alive == r.Success? && made.count == 0
              && (r.Success? ==> made.shape == x.shape && made.data == x.data && made.grad == x.grad)
    {
      hide *;
      HolderFacts(this, v);
      var x := variables[v];
      ghost var before := ndArrays;
      ShapeTests(ndArrays, x.data, x.shape);
      ShapeTests(ndArrays, x.grad, x.shape);
      ViewedIsOn(x, ndArrays);
      ghost var roots := arrays;
      var view := NewVariable(x.shape);
      TwoRoots(roots, arrays, Product(x.shape));
      ghost var made := arrays;
      StaysHeld(before, ndArrays, x.data);
      StaysHeld(before, ndArrays, x.grad);
      HandedIs(ndArrays, variables[view].data, x.data, 0);
      r := SetData(view, x.data);
      RootsStay(roots, made, arrays, Product(x.shape));
      made := arrays;
      CountedNothing(ndArrays, variables[view].data);
      if r.Success? {
        r := SetGrad(view, x.grad);
      }
      if r.Failure? {
        DestroyVariable(view);
        RootsStay(roots, made, arrays, Product(x.shape));
        return;
      }
      r := Success(view);
    }

    /** Variable::view(shape): a new variable on views of the data and gradient in another shape. */
    method ViewShaped(v: nat, shape: seq<nat>) returns (r: Result<nat>)
      requires Valid() && v < |variables| && variables[v].alive
      modifies this
      ensures Valid()
      ensures var x := old(variables[v]);
              r.Success? <==>
                && Product(shape) == Product(x.shape)
                && HasSize(old(ndArrays), x.data, Product(shape)) && HasSize(old(ndArrays), x.grad, Product(shape))
      ensures r.Success? ==> r.value == |old(variables)|
      // in fields: on success a variable in the shape, on NdArrays in the shape that lie on the old arrays
      ensures var x := old(variables[v]);
              && x.data < |old(ndArrays)| && x.grad < |old(ndArrays)|
              && (r.Success? <==>
                    && Product(shape) == Product(x.shape)
                    && old(ndArrays)[x.data].size == Product(shape) && old(ndArrays)[x.grad].size == Product(shape))
              && (r.Success? ==>
                    && |variables| == r.value + 1
                    && var made := variables[r.value];
                       && made.alive && made.shape == shape && made.count == 0
                       && |old(ndArrays)| <= made.data < |ndArrays| && |old(ndArrays)| <= made.grad < |ndArrays| && made.data != made.grad
                       && ndArrays[made.data].shape == shape && ndArrays[made.data].store == old(ndArrays)[x.data].store
                       && ndArrays[made.grad].shape == shape && ndArrays[made.grad].store == old(ndArrays)[x.grad].store)
      ensures if Product(shape) != Product(old(variables[v].shape)) then
                variables == old(variables) && ndArrays == old(ndArrays) && arrays == old(arrays) && direct == old(direct)
              else
                && variables == old(variables) + [ViewedAs(old(variables[v]), old(ndArrays), shape)]
                && ndArrays == ViewedIn(old(variables[v]), old(ndArrays), |old(arrays)|, shape)
                && NewRoots(old(arrays), arrays, [Product(shape), Product(shape)])
                && direct == old(direct) + Zeros(|ndArrays| - |old(ndArrays)|)
    {
      hide *;
      HolderFacts(this, v);
      var x := variables[v];
      ghost var before, roots := ndArrays, arrays;
      SizeTests(ndArrays, x.data, Product(shape));
      SizeTests(ndArrays, x.grad, Product(shape));
      ViewedIs(x, ndArrays, |arrays|, shape);
      FewZeros();
      if Product(shape) != Product(x.shape) {
        return Failure("The total size must be the same as the variable.");
      }
      var view := NewVariable(shape);
      TwoRoots(roots, arrays, Product(shape));
      ghost var made := arrays;
      SameSelf(made);
      StaysHeld(before, ndArrays, x.data);
      StaysHeld(before, ndArrays, x.grad);
      var data := NdView(x.data, shape);
      if data.Failure? {
        CountedNothing(ndArrays, variables[view].data);
        DestroyVariable(view);
        RootsStay(roots, made, arrays, Product(shape));
        return data;
      }
      StaysHeld(ndArrays, ndArrays, data.value);
      HandedIs(ndArrays, variables[view].data, data.value, 0);
      r := SetData(view, data.value);
      RootsStay(roots, made, arrays, Product(shape));
      made := arrays;
      var grad := NdView(x.grad, shape);
      if grad.Failure? {
        CountedNothing(ndArrays, variables[view].data);
        DestroyVariable(view);
        RootsStay(roots, made, arrays, Product(shape));
        return grad;
      }
      StaysHeld(ndArrays, ndArrays, grad.value);
      r := SetGrad(view, grad.value);
      r := Success(view);
    }

    // ---- Destruction -----------------------------------------------------------------------------

    method DestroyVariable(v: nat)
      requires Valid() && v < |variables| && variables[v].alive
      modifies `variables, `ndArrays, `arrays
      ensures Valid() && SameButCounts(old(arrays), arrays)
      ensures old(variables[v]).data < |old(ndArrays)|
      ensures ndArrays == Counted(old(ndArrays), old(variables[v]).data, -old(variables[v]).count)
      ensures variables == old(variables)[v := old(variables[v]).(alive := false)]
    {
      hide *;
      ValidParts(this);
      DataDropped(variables, ndArrays, direct, v);
      var count, was := variables[v].count, variables[v].data;
      UpdateNdArray(was, -count);
      CountsKeepShapes(old(arrays), arrays, old(ndArrays), was, -count);
      variables := variables[v := variables[v].(alive := false)];
      PartsValid(this);
    }

    /** Happens when the last variable lets go of the NdArray. */
    method DestroyNdArray(k: nat)
      requires Valid() && k < |ndArrays| && Held(ndArrays, k)
      requires forall v :: 0 <= v < |variables| && variables[v].alive ==> variables[v].data != k && variables[v].grad != k
      modifies `ndArrays, `arrays
      ensures Valid() && SameButCounts(old(arrays), arrays)
      ensures ndArrays == old(ndArrays)[k := old(ndArrays[k]).(alive := false)]
    {
      hide *;
      ValidParts(this);
      LowerFacts(arrays, ndArrays, k);
      NdArrayDropped(variables, ndArrays, arrays, direct, k);
      var count, was := ndArrays[k].count, ndArrays[k].store;
      UpdateArray(was, -count);
      DroppedIs(ndArrays, k);
      ndArrays := ndArrays[k := ndArrays[k].(alive := false)];
      PartsValid(this);
    }

    /** Happens when the last NdArray and the last child let go of the array.  Nothing has to be passed
        on to the parent: the count is zero by then. */
    method DestroyArray(a: nat)
      requires Valid() && a < |arrays| && arrays[a].alive
      requires forall k :: 0 <= k < |ndArrays| && ndArrays[k].alive ==> ndArrays[k].store != a
      requires forall c :: 0 <= c < |arrays| && arrays[c].alive ==> arrays[c].parent != Some(a)
      modifies `arrays
      ensures Valid() && old(arrays[a].count) == 0
      ensures arrays == old(arrays)[a := old(arrays[a]).(alive := false)]
    {
      hide *;
      ValidParts(this);
      ArrayDropped(ndArrays, arrays, a);
      arrays := arrays[a := arrays[a].(alive := false)];
      PartsValid(this);
    }
  }

  // ---- Users of a family -------------------------------------------------------------------------

  /** Which NdArrays lie on marked arrays. */
  function NdArraysOf(ndArrays: seq<NdArray>, mask: seq<bool>): (users: seq<bool>)
    ensures |users| == |ndArrays|
    ensures forall k :: 0 <= k < |ndArrays| ==>
              (users[k] <==> ndArrays[k].alive && ndArrays[k].store < |mask| && mask[ndArrays[k].store])
  {
    seq(|ndArrays|, k requires 0 <= k < |ndArrays| =>
      ndArrays[k].alive && ndArrays[k].store < |mask| && mask[ndArrays[k].store])
  }

  /** The references users hold to marked NdArrays directly. */
  function DirectUsers(direct: seq<int>, users: seq<bool>, m: nat): int
    requires m <= |users|
  {
    if m == 0 then 0
    else DirectUsers(direct, users, m - 1) + (if users[m - 1] && m - 1 < |direct| then direct[m - 1] else 0)
  }

  lemma {:induction false} UsersUpTo(variables: seq<Variable>, ndArrays: seq<NdArray>, direct: seq<int>,
                                     mask: seq<bool>, m: nat)
    requires Upper(variables, ndArrays, direct) && m <= |ndArrays|
    ensures var users := NdArraysOf(ndArrays, mask);
            (Into(mask, ArrayEdges(ndArrays)[..m])
             == DirectUsers(direct, users, m) + ByTarget(users, DataEdges(variables), m))
  {
    if m > 0 {
      UsersUpTo(variables, ndArrays, direct, mask, m - 1);
      var edges := ArrayEdges(ndArrays);
      assert edges[..m][..m - 1] == edges[..m - 1];
    }
  }

  /** A family's count is what users hold of its NdArrays directly and through variables. */
  lemma UsersOfFamily(variables: seq<Variable>, ndArrays: seq<NdArray>, direct: seq<int>, mask: seq<bool>)
    requires Upper(variables, ndArrays, direct)
    ensures var users := NdArraysOf(ndArrays, mask);
            (Into(mask, ArrayEdges(ndArrays))
             == DirectUsers(direct, users, |users|) + Into(users, DataEdges(variables)))
  {
    UsersUpTo(variables, ndArrays, direct, mask, |ndArrays|);
    assert ArrayEdges(ndArrays)[..|ndArrays|] == ArrayEdges(ndArrays);
    IntoByTarget(NdArraysOf(ndArrays, mask), DataEdges(variables));
  }

  lemma GradMoved(variables: seq<Variable>, ndArrays: seq<NdArray>, direct: seq<int>, v: nat, k: nat)
    requires Upper(variables, ndArrays, direct) && v < |variables| && variables[v].alive && Held(ndArrays, k)
    ensures Upper(variables[v := variables[v].(grad := k)], ndArrays, direct)
  {
    DataHolderChanged(variables, v, variables[v].(grad := k));
  }

  lemma DataDropped(variables: seq<Variable>, ndArrays: seq<NdArray>, direct: seq<int>, v: nat)
    requires Upper(variables, ndArrays, direct) && v < |variables| && variables[v].alive
    ensures variables[v].data < |ndArrays| && Held(ndArrays, variables[v].data)
    ensures var after := Counted(ndArrays, variables[v].data, -variables[v].count);
            Upper(variables[v := variables[v].(alive := false)], after, direct) && SameButNdCounts(ndArrays, after)
  {
    DataHolderChanged(variables, v, variables[v].(alive := false));
  }

  lemma NdArrayDropped(variables: seq<Variable>, ndArrays: seq<NdArray>, arrays: seq<Node>, direct: seq<int>, k: nat)
    requires Lower(arrays, ndArrays) && AllShaped(arrays, ndArrays) && Upper(variables, ndArrays, direct)
    requires k < |ndArrays| && ndArrays[k].alive
    requires forall v :: 0 <= v < |variables| && variables[v].alive ==> variables[v].data != k && variables[v].grad != k
    ensures var after := Bumped(arrays, ndArrays[k].store, -ndArrays[k].count);
            SameButCounts(arrays, after) && Lower(after, Dropped(ndArrays, k)) && AllShaped(after, Dropped(ndArrays, k))
    ensures Upper(variables, Dropped(ndArrays, k), direct)
  {
    hide *;
    DroppedStores(arrays, ndArrays, k);
    DroppedUpper(variables, ndArrays, direct, k);
    HolderDropped(ndArrays, k);
    var after := Bumped(arrays, ndArrays[k].store, -ndArrays[k].count);
    BumpedIsSame(arrays, ndArrays[k].store, -ndArrays[k].count);
    SamePlaces(arrays, after);
    SameStores(arrays, after);
    SameShapes(arrays, after, Dropped(ndArrays, k));
    BumpKeepsBalance(arrays, ArrayEdges(ndArrays), ArrayEdges(Dropped(ndArrays, k)),
                     ndArrays[k].store, -ndArrays[k].count);
    MakeLower(after, Dropped(ndArrays, k));
  }

  function Dropped(ndArrays: seq<NdArray>, k: nat): seq<NdArray>
    requires k < |ndArrays|
  {
    ndArrays[k := ndArrays[k].(alive := false)]
  }

  lemma DroppedUpper(variables: seq<Variable>, ndArrays: seq<NdArray>, direct: seq<int>, k: nat)
    requires Upper(variables, ndArrays, direct) && k < |ndArrays|
    requires forall v :: 0 <= v < |variables| && variables[v].alive ==> variables[v].data != k && variables[v].grad != k
    ensures Upper(variables, Dropped(ndArrays, k), direct)
  {
  }

  lemma DroppedIs(ndArrays: seq<NdArray>, k: nat)
    requires k < |ndArrays|
    ensures Dropped(ndArrays, k) == ndArrays[k := ndArrays[k].(alive := false)]
  {
  }

  lemma DroppedStores(arrays: seq<Node>, ndArrays: seq<NdArray>, k: nat)
    requires Lower(arrays, ndArrays) && AllShaped(arrays, ndArrays) && k < |ndArrays| && ndArrays[k].alive
    ensures Tree(arrays) && Placed(arrays) && Balanced(arrays, ArrayEdges(ndArrays)) && AllShaped(arrays, Dropped(ndArrays, k))
    ensures ndArrays[k].store < |arrays| && arrays[ndArrays[k].store].alive
  {
  }

  lemma BumpedIsSame(arrays: seq<Node>, a: nat, diff: int)
    requires Tree(arrays) && a < |arrays| && arrays[a].alive
    ensures SameButCounts(arrays, Bumped(arrays, a, diff))
  {
  }

  lemma MakeLower(arrays: seq<Node>, ndArrays: seq<NdArray>)
    requires Tree(arrays) && Placed(arrays) && Balanced(arrays, ArrayEdges(ndArrays)) && AllShaped(arrays, ndArrays)
    ensures Lower(arrays, ndArrays)
  {
  }

  lemma HolderDropped(ndArrays: seq<NdArray>, k: nat)
    requires k < |ndArrays| && ndArrays[k].alive
    ensures forall t: nat :: Total(ArrayEdges(Dropped(ndArrays, k)), t)
                          == Total(ArrayEdges(ndArrays), t) + (if t == ndArrays[k].store then -ndArrays[k].count else 0)
  {
    var edges, fewer := ArrayEdges(ndArrays), Dropped(ndArrays, k);
    assert ArrayEdges(fewer) == edges[k := Edge(None, 0)];
    forall t: nat
      ensures Total(ArrayEdges(fewer), t)
           == Total(edges, t) + (if t == ndArrays[k].store then -ndArrays[k].count else 0)
    {
      TotalUpdate(edges, k, Edge(None, 0), t);
    }
  }

  lemma ArrayDropped(ndArrays: seq<NdArray>, arrays: seq<Node>, a: nat)
    requires Lower(arrays, ndArrays) && AllShaped(arrays, ndArrays) && a < |arrays| && arrays[a].alive
    requires forall k :: 0 <= k < |ndArrays| && ndArrays[k].alive ==> ndArrays[k].store != a
    requires forall c :: 0 <= c < |arrays| && arrays[c].alive ==> arrays[c].parent != Some(a)
    ensures arrays[a].count == 0
    ensures Lower(arrays[a := arrays[a].(alive := false)], ndArrays)
    ensures AllShaped(arrays[a := arrays[a].(alive := false)], ndArrays)
  {
    assert Tree(arrays[a := arrays[a].(alive := false)]) && Placed(arrays[a := arrays[a].(alive := false)]);
    hide Placed, Tree;
    DroppedBalance(ndArrays, arrays, a);
  }

  lemma DroppedBalance(ndArrays: seq<NdArray>, arrays: seq<Node>, a: nat)
    requires Balanced(arrays, ArrayEdges(ndArrays)) && a < |arrays| && arrays[a].alive
    requires forall k :: 0 <= k < |ndArrays| && ndArrays[k].alive ==> ndArrays[k].store != a
    requires forall c :: 0 <= c < |arrays| && arrays[c].alive ==> arrays[c].parent != Some(a)
    ensures arrays[a].count == 0 && Balanced(arrays[a := arrays[a].(alive := false)], ArrayEdges(ndArrays))
  {
    var edges, holders := ParentEdges(arrays), ArrayEdges(ndArrays);
    TotalNone(edges, a);
    TotalNone(holders, a);
    assert Sum(arrays, holders, a) == arrays[a].count;
    var after := arrays[a := arrays[a].(alive := false)];
    assert ParentEdges(after) == edges[a := Edge(None, 0)];
    forall x: nat | x < |after| && after[x].alive
      ensures Sum(after, holders, x) == after[x].count
    {
      TotalUpdate(edges, a, Edge(None, 0), x);
      assert Sum(arrays, holders, x) == arrays[x].count;
    }
  }

  predicate ChildOverlaps(a: Node, parent: nat, begin: nat, size: nat) {
    a.alive && a.parent == Some(parent) && ViewTree.RangesClash(begin, size, a.offset, a.size)
  }

  lemma OverlapsIs(arrays: seq<Node>, parent: nat, begin: nat, size: nat)
    ensures forall a :: 0 <= a < |arrays| ==>
              (ChildOverlaps(arrays[a], parent, begin, size) <==>
                 && arrays[a].alive && arrays[a].parent == Some(parent)
                 && begin <= arrays[a].offset + arrays[a].size - 1 && arrays[a].offset <= begin + size - 1)
  {
  }

  lemma ShapeFacts(g: Registry, k: nat)
    requires g.Valid() && k < |g.ndArrays| && g.ndArrays[k].alive
    ensures g.ndArrays[k].store < |g.arrays| && g.arrays[g.ndArrays[k].store].alive
    ensures g.arrays[g.ndArrays[k].store].size == g.ndArrays[k].size == Product(g.ndArrays[k].shape)
  {
  }

  lemma ChildFits(arrays: seq<Node>, parent: nat, size: nat, offset: nat)
    requires parent < |arrays| && arrays[parent].alive && offset + size <= arrays[parent].size
    requires !exists a :: 0 <= a < |arrays| && ChildOverlaps(arrays[a], parent, offset, size)
    ensures Fits(arrays, Node(true, Some(parent), size, offset, 0))
  {
    var n := Node(true, Some(parent), size, offset, 0);
    forall a | 0 <= a < |arrays| && Siblings(arrays[a], n)
      ensures !ViewTree.RangesClash(n.offset, n.size, arrays[a].offset, arrays[a].size)
    {
      assert !ChildOverlaps(arrays[a], parent, offset, size);
    }
  }

  /** When NdArray::reshape succeeds. */
  predicate CanReshape(ndArrays: seq<NdArray>, arrays: seq<Node>, k: nat, shape: seq<nat>, force: bool)
    requires k < |ndArrays| && ndArrays[k].store < |arrays|
  {
    || ndArrays[k].shape == shape || ndArrays[k].size == Product(shape)
    || (force && arrays[ndArrays[k].store].parent.None?)
  }

  lemma ReshapeCases(ndArrays: seq<NdArray>, arrays: seq<Node>, k: nat, shape: seq<nat>, force: bool)
    requires k < |ndArrays| && ndArrays[k].store < |arrays|
    ensures CanReshape(ndArrays, arrays, k, shape, force) <==>
              || ndArrays[k].shape == shape || ndArrays[k].size == Product(shape)
              || (force && arrays[ndArrays[k].store].parent.None?)
  {
  }

  lemma InShapeIs(ndArrays: seq<NdArray>, k: nat, shape: seq<nat>, other: nat)
    requires k < |ndArrays|
    ensures var n := ndArrays[k];
            InShape(n, shape, other) == n.(shape := shape, size := Product(shape), strides := Strides(shape),
                                           store := if n.size == Product(shape) then n.store else other)
    ensures NewSizes(ndArrays[k], shape) == if ndArrays[k].size == Product(shape) then [] else [Product(shape)]
  {
  }

  lemma NotReshaped(ndArrays: seq<NdArray>, arrays: seq<Node>, k: nat, shape: seq<nat>)
    requires k < |ndArrays|
    ensures NdReshaped(ndArrays, arrays, ndArrays, arrays, k, shape, false)
  {
  }

  lemma RefusedIs(ndArrays: seq<NdArray>, arrays: seq<Node>, after: seq<NdArray>, arrays': seq<Node>, k: nat, shape: seq<nat>)
    requires k < |ndArrays| && NdReshaped(ndArrays, arrays, after, arrays', k, shape, false)
    ensures after == ndArrays && arrays' == arrays
  {
  }

  lemma InPlace(ndArrays: seq<NdArray>, arrays: seq<Node>, after: seq<NdArray>, k: nat, shape: seq<nat>)
    requires k < |ndArrays| && ndArrays[k].size == Product(shape)
    requires after == ndArrays[k := ndArrays[k].(shape := shape, size := Product(shape), strides := Strides(shape))]
    ensures NdReshaped(ndArrays, arrays, after, arrays, k, shape, true)
  {
    SameSelf(arrays);
    assert arrays[..|arrays|] == arrays;
  }

  lemma OneRoot(before: seq<Node>, made: seq<Node>, after: seq<Node>, size: nat)
    requires made == before + [Node(true, None, size, 0, 0)] && SameButCounts(made, after)
    ensures NewRoots(before, after, [size])
    ensures |after| == |before| + 1 && after[|before|] == Node(true, None, size, 0, after[|before|].count)
  {
    assert made[..|before|] == before && made[|before|] == Node(true, None, size, 0, 0);
  }

  lemma TwoRoots(before: seq<Node>, made: seq<Node>, size: nat)
    requires made == before + [Node(true, None, size, 0, 0), Node(true, None, size, 0, 0)]
    ensures NewRoots(before, made, [size, size])
  {
    assert made[..|before|] == before;
  }

  lemma RootsStay(before: seq<Node>, made: seq<Node>, after: seq<Node>, size: nat)
    requires NewRoots(before, made, [size, size]) && SameButCounts(made, after)
    ensures NewRoots(before, after, [size, size])
  {
  }

  lemma Elsewhere(ndArrays: seq<NdArray>, arrays: seq<Node>, after: seq<NdArray>, arrays': seq<Node>, k: nat, shape: seq<nat>)
    requires k < |ndArrays| && ndArrays[k].size != Product(shape) && NewRoots(arrays, arrays', [Product(shape)])
    requires after == ndArrays[k := ndArrays[k].(shape := shape, size := Product(shape), strides := Strides(shape), store := |arrays|)]
    ensures NdReshaped(ndArrays, arrays, after, arrays', k, shape, true)
  {
  }

  /** Both reshapes together ask for the arrays that each of them asks for. */
  lemma RootsTogether(a: seq<Node>, b: seq<Node>, c: seq<Node>, xs: seq<nat>, ys: seq<nat>)
    requires NewRoots(a, b, xs) && NewRoots(b, c, ys)
    ensures NewRoots(a, c, xs + ys)
  {
    forall i | 0 <= i < |xs + ys| ensures c[|a| + i] == Node(true, None, (xs + ys)[i], 0, c[|a| + i].count) {
      if i < |xs| {
        assert c[..|b|][|a| + i] == b[|a| + i].(count := c[|a| + i].count);
      } else {
        assert c[|b| + (i - |xs|)] == Node(true, None, ys[i - |xs|], 0, c[|b| + (i - |xs|)].count);
      }
    }
    forall i | 0 <= i < |a| ensures c[..|a|][i] == a[i].(count := c[..|a|][i].count) {
      assert b[..|a|][i] == a[i].(count := b[i].count) && c[..|b|][i] == b[i].(count := c[i].count);
    }
  }

  lemma StridesFacts(g: Registry, k: nat)
    requires g.Valid() && k < |g.ndArrays| && g.ndArrays[k].alive
    ensures g.ndArrays[k].strides == Strides(g.ndArrays[k].shape) && g.ndArrays[k].size == Product(g.ndArrays[k].shape)
  {
  }

  lemma NoParentFits(arrays: seq<Node>, size: nat)
    ensures Fits(arrays, Node(true, None, size, 0, 0))
  {
  }

  /** Shape information is no business of the counts. */
  lemma ShapeKeepsCounts(variables: seq<Variable>, ndArrays: seq<NdArray>, arrays: seq<Node>, direct: seq<int>,
                         k: nat, shape: seq<nat>)
    requires Lower(arrays, ndArrays) && Upper(variables, ndArrays, direct) && k < |ndArrays| && ndArrays[k].alive
    ensures var after := ndArrays[k := ndArrays[k].(shape := shape, size := Product(shape), strides := Strides(shape))];
            Lower(arrays, after) && Upper(variables, after, direct)
  {
    var after := ndArrays[k := ndArrays[k].(shape := shape, size := Product(shape), strides := Strides(shape))];
    assert ArrayEdges(after) == ArrayEdges(ndArrays);
    hide Tree, Placed, Balanced;
  }

  lemma ReshapedInPlace(g: Registry, k: nat, shape: seq<nat>)
    requires g.Valid() && k < |g.ndArrays| && g.ndArrays[k].alive && g.ndArrays[k].size == Product(shape)
    ensures var after := g.ndArrays[k := g.ndArrays[k].(shape := shape, size := Product(shape), strides := Strides(shape))];
            Lower(g.arrays, after) && AllShaped(g.arrays, after) && Upper(g.variables, after, g.direct)
  {
    ShapeKeepsCounts(g.variables, g.ndArrays, g.arrays, g.direct, k, shape);
    hide Lower, Upper;
  }

  lemma ReshapedElsewhere(g: Registry, k: nat, shape: seq<nat>, a: nat)
    requires g.Valid() && k < |g.ndArrays| && g.ndArrays[k].alive
    ensures var after := g.ndArrays[k := g.ndArrays[k].(shape := shape, size := Product(shape), strides := Strides(shape))];
            && Lower(g.arrays, after) && Upper(g.variables, after, g.direct) && Held(after, k)
            && Upper(g.variables, after[k := after[k].(store := a)], g.direct)
            && AllShapedBut(g.arrays, after, k)
  {
    ShapeKeepsCounts(g.variables, g.ndArrays, g.arrays, g.direct, k, shape);
    StoreKeepsUpper(g.variables, g.ndArrays[k := g.ndArrays[k].(shape := shape, size := Product(shape), strides := Strides(shape))],
                    g.direct, k, a);
    hide Lower, Upper, Strides, Product;
  }

  lemma StoreKeepsUpper(variables: seq<Variable>, ndArrays: seq<NdArray>, direct: seq<int>, k: nat, a: nat)
    requires Upper(variables, ndArrays, direct) && k < |ndArrays|
    ensures Upper(variables, ndArrays[k := ndArrays[k].(store := a)], direct)
  {
  }

  ghost predicate AllShapedBut(arrays: seq<Node>, ndArrays: seq<NdArray>, k: nat) {
    forall x :: 0 <= x < |ndArrays| && ndArrays[x].alive && x != k ==>
      Stored(ndArrays[x], arrays) && Shaped(ndArrays[x], arrays)
  }

  lemma AllShapedAgain(before: seq<Node>, after: seq<Node>, ndArrays: seq<NdArray>, k: nat, a: nat, shape: seq<nat>)
    requires AllShapedBut(before, ndArrays, k) && SameButCounts(before, after) && k < |ndArrays|
    requires a < |before| && before[a].alive && before[a].size == Product(shape)
    requires ndArrays[k].size == Product(shape) && ndArrays[k].shape == shape && ndArrays[k].strides == Strides(shape)
    ensures AllShaped(after, ndArrays[k := ndArrays[k].(store := a)])
  {
  }

  predicate Takes(was: seq<nat>, shape: seq<nat>, force: bool) {
    was == shape || Product(was) == Product(shape) || force
  }

  predicate Reshapes(ndArrays: seq<NdArray>, arrays: seq<Node>, k: nat, shape: seq<nat>, force: bool) {
    k < |ndArrays| && ndArrays[k].store < |arrays| && CanReshape(ndArrays, arrays, k, shape, force)
  }

  /** The variable takes a shape it did not have, and asks its data and gradient to do so too. */
  predicate Tried(was: seq<nat>, shape: seq<nat>, force: bool) { was != shape && Takes(was, shape, force) }

  /** The variable tries, and its data can take the shape. */
  predicate DataMoves(x: Variable, ndArrays: seq<NdArray>, arrays: seq<Node>, shape: seq<nat>, force: bool) {
    Tried(x.shape, shape, force) && Reshapes(ndArrays, arrays, x.data, shape, Product(x.shape) != Product(shape))
  }

  /** And so can its gradient, which is asked next. */
  predicate GradMoves(x: Variable, ndArrays: seq<NdArray>, arrays: seq<Node>, shape: seq<nat>, force: bool) {
    DataMoves(x, ndArrays, arrays, shape, force) && Reshapes(ndArrays, arrays, x.grad, shape, Product(x.shape) != Product(shape))
  }

  /** What Variable::reshape leaves of NdArrays and arrays: the data takes the new shape if it can, whatever
      the gradient does; either stays on its array unless its size changes. */
  ghost predicate Reached(x: Variable, before: seq<NdArray>, arrays: seq<Node>, after: seq<NdArray>, arrays': seq<Node>,
                          shape: seq<nat>, force: bool)
  {
    && x.data < |before| && x.grad < |before|
    && var data, grad := DataMoves(x, before, arrays, shape, force), GradMoves(x, before, arrays, shape, force);
       var between := if data then before[x.data := InShape(before[x.data], shape, |arrays|)] else before;
       var more := if data then NewSizes(before[x.data], shape) else [];
       var most := more + if grad then NewSizes(between[x.grad], shape) else [];
       && after == (if grad then between[x.grad := InShape(between[x.grad], shape, |arrays| + |more|)] else between)
       && NewRoots(arrays, arrays', most) && (most == [] ==> arrays' == arrays)
  }

  predicate HasShape(ndArrays: seq<NdArray>, k: nat, shape: seq<nat>) {
    k < |ndArrays| && ndArrays[k].shape == shape
  }

  /** NdArray `k` has the shape, on its old array or, with another size, on a new one of its own. */
  ghost predicate Followed(before: seq<NdArray>, arrays: seq<Node>, after: seq<NdArray>, arrays': seq<Node>, shape: seq<nat>, k: nat) {
    && k < |before| == |after| && after[k].store < |arrays'|
    && after[k].shape == shape && after[k].size == Product(shape) && after[k].count == before[k].count
    && if before[k].size == Product(shape) then after[k].store == before[k].store
       else after[k].store >= |arrays| && arrays'[after[k].store].parent.None? && arrays'[after[k].store].size == Product(shape)
  }

  lemma ReachedIs(x: Variable, before: seq<NdArray>, arrays: seq<Node>, after: seq<NdArray>, arrays': seq<Node>, shape: seq<nat>, force: bool)
    requires Reached(x, before, arrays, after, arrays', shape, force)
    requires x.data < |before| ==> before[x.data].store < |arrays|
    requires x.grad < |before| ==> before[x.grad].store < |arrays|
    ensures |after| == |before| && |arrays'| >= |arrays|
    ensures MayReshape(x, before, arrays, shape, force) && x.shape != shape ==>
              Followed(before, arrays, after, arrays', shape, x.data) && Followed(before, arrays, after, arrays', shape, x.grad)
    ensures forall k :: 0 <= k < |after| && k != x.data && k != x.grad ==> after[k] == before[k]
  {
    hide Product, Strides, CanReshape, SameButCounts, NewRoots;
    if MayReshape(x, before, arrays, shape, force) && x.shape != shape {
      var more := NewSizes(before[x.data], shape);
      var between := before[x.data := InShape(before[x.data], shape, |arrays|)];
      var most := more + NewSizes(between[x.grad], shape);
      assert NewRoots(arrays, arrays', most);
      RootAt(arrays, arrays', most, 0);
      RootAt(arrays, arrays', most, |more|);
    } else {
      var none: seq<nat> := [];
      assert none + none == none && NewSizes(before[x.data], shape) + none == NewSizes(before[x.data], shape);
      assert NewRoots(arrays, arrays', []) || NewRoots(arrays, arrays', NewSizes(before[x.data], shape));
      MoreRoots(arrays, arrays', []);
      MoreRoots(arrays, arrays', NewSizes(before[x.data], shape));
    }
  }

  lemma RootAt(before: seq<Node>, after: seq<Node>, sizes: seq<nat>, i: nat)
    requires NewRoots(before, after, sizes)
    ensures |after| == |before| + |sizes|
    ensures i < |sizes| ==> after[|before| + i] == Node(true, None, sizes[i], 0, after[|before| + i].count)
  {
    hide SameButCounts;
  }

  lemma MoreRoots(before: seq<Node>, after: seq<Node>, sizes: seq<nat>)
    ensures NewRoots(before, after, sizes) ==> |after| >= |before|
  {
  }

  lemma FollowsIs(g: Registry, x: Variable, shape: seq<nat>, force: bool)
    requires g.Valid() && Held(g.ndArrays, x.data) && Held(g.ndArrays, x.grad)
    ensures g.ndArrays[x.data].store < |g.arrays| && g.ndArrays[x.grad].store < |g.arrays|
    ensures MayReshape(x, g.ndArrays, g.arrays, shape, force) <==>
            var n, m, size := g.ndArrays[x.data], g.ndArrays[x.grad], Product(shape);
            || x.shape == shape
            || (if Product(x.shape) == size then n.size == size && m.size == size
                else force && (n.size == size || g.arrays[n.store].parent.None?) && (m.size == size || g.arrays[m.store].parent.None?))
  {
    hide Balanced, Placed, CountsUsers, Product;
  }

  /** When Variable::reshape succeeds: data and gradient are forced only if the size changes. */
  predicate MayReshape(x: Variable, ndArrays: seq<NdArray>, arrays: seq<Node>, shape: seq<nat>, force: bool) {
    var grows := Product(x.shape) != Product(shape);
    || x.shape == shape
    || (Takes(x.shape, shape, force)
        && Reshapes(ndArrays, arrays, x.data, shape, grows) && Reshapes(ndArrays, arrays, x.grad, shape, grows))
  }

  lemma HolderFacts(g: Registry, v: nat)
    requires g.Valid() && v < |g.variables| && g.variables[v].alive
    ensures var data, grad := g.variables[v].data, g.variables[v].grad;
            && data < |g.ndArrays| && g.ndArrays[data].alive && g.ndArrays[data].store < |g.arrays|
            && grad < |g.ndArrays| && g.ndArrays[grad].alive && g.ndArrays[grad].store < |g.arrays|
            && Held(g.ndArrays, data) && Held(g.ndArrays, grad)
  {
  }

  lemma ReshapeFacts(x: Variable, ndArrays: seq<NdArray>, arrays: seq<Node>, shape: seq<nat>, force: bool)
    requires x.data < |ndArrays| && ndArrays[x.data].store < |arrays|
    requires x.grad < |ndArrays| && ndArrays[x.grad].store < |arrays|
    ensures var grows := Product(x.shape) != Product(shape);
            && (MayReshape(x, ndArrays, arrays, shape, force) <==>
                  || x.shape == shape
                  || ((grows ==> force) && CanReshape(ndArrays, arrays, x.data, shape, grows)
                      && CanReshape(ndArrays, arrays, x.grad, shape, grows)))
            && (Takes(x.shape, shape, force) <==> x.shape == shape || !grows || force)
            && (Tried(x.shape, shape, force) <==> x.shape != shape && (!grows || force))
  {
  }

  lemma VariableReshaped(variables: seq<Variable>, ndArrays: seq<NdArray>, direct: seq<int>, v: nat, shape: seq<nat>)
    requires Upper(variables, ndArrays, direct) && v < |variables|
    ensures Upper(variables[v := variables[v].(shape := shape)], ndArrays, direct)
  {
    assert DataEdges(variables[v := variables[v].(shape := shape)]) == DataEdges(variables);
  }

  /** Reshaping the data leaves the gradient's chances as they were. */
  lemma GradStill(before: seq<NdArray>, after: seq<NdArray>, arrays: seq<Node>, arrays': seq<Node>,
                  data: nat, grad: nat, shape: seq<nat>, force: bool)
    requires data < |before| && grad < |before| && before[data].store < |arrays| && before[grad].store < |arrays|
    requires NdReshaped(before, arrays, after, arrays', data, shape, true) && CanReshape(before, arrays, data, shape, force)
    ensures |after| == |before| && (after[grad].store < |arrays'| ==>
              (CanReshape(after, arrays', grad, shape, force) <==> CanReshape(before, arrays, grad, shape, force)))
  {
    if grad != data {
      assert arrays'[..|arrays|][before[grad].store] == arrays'[before[grad].store];
    }
  }

  lemma NotReached(x: Variable, ndArrays: seq<NdArray>, arrays: seq<Node>, shape: seq<nat>, force: bool)
    requires x.data < |ndArrays| && x.grad < |ndArrays| && ndArrays[x.data].store < |arrays|
    requires Tried(x.shape, shape, force) ==> !CanReshape(ndArrays, arrays, x.data, shape, Product(x.shape) != Product(shape))
    ensures Reached(x, ndArrays, arrays, ndArrays, arrays, shape, force)
  {
    hide CanReshape, Product;
    SameSelf(arrays);
    assert arrays[..|arrays|] == arrays;
  }

  lemma HalfReached(x: Variable, before: seq<NdArray>, arrays: seq<Node>, between: seq<NdArray>, middle: seq<Node>,
                    after: seq<NdArray>, arrays': seq<Node>, shape: seq<nat>, force: bool, ok: bool)
    requires x.data < |before| && x.grad < |before| == |between| && before[x.data].store < |arrays| && before[x.grad].store < |arrays|
    requires Tried(x.shape, shape, force) && CanReshape(before, arrays, x.data, shape, Product(x.shape) != Product(shape))
    requires NdReshaped(before, arrays, between, middle, x.data, shape, true)
    requires NdReshaped(between, middle, after, arrays', x.grad, shape, ok)
    requires ok <==> CanReshape(before, arrays, x.grad, shape, Product(x.shape) != Product(shape))
    ensures Reached(x, before, arrays, after, arrays', shape, force)
  {
    hide CanReshape, Product, NewRoots, InShape, SameButCounts;
    var more := NewSizes(before[x.data], shape);
    NewRootsLength(arrays, middle, more);
    if ok {
      RootsTogether(arrays, middle, arrays', more, NewSizes(between[x.grad], shape));
    } else {
      assert more + [] == more;
    }
  }

  lemma NewRootsLength(before: seq<Node>, after: seq<Node>, sizes: seq<nat>)
    requires NewRoots(before, after, sizes)
    ensures |after| == |before| + |sizes|
  {
  }

  function Zeros(n: int): (zs: seq<int>)
    ensures n >= 0 ==> |zs| == n && forall i :: 0 <= i < n ==> zs[i] == 0
  {
    if n <= 0 then [] else Zeros(n - 1) + [0]
  }

  lemma FewZeros()
    ensures Zeros(2) == [0, 0] && Zeros(3) == [0, 0, 0] && Zeros(4) == [0, 0, 0, 0]
  {
  }

  lemma ViewedIsOn(x: Variable, ndArrays: seq<NdArray>)
    ensures var data, grad := HasShape(ndArrays, x.data, x.shape), HasShape(ndArrays, x.grad, x.shape);
            (Viewed(x, ndArrays)
             == Variable(data && grad, x.shape, if data then x.data else |ndArrays|, if data && grad then x.grad else |ndArrays| + 1, 0))
  {
  }

  lemma ViewedIs(x: Variable, ndArrays: seq<NdArray>, arrays: nat, shape: seq<nat>)
    requires x.data < |ndArrays| && x.grad < |ndArrays|
    ensures var data, grad := HasSize(ndArrays, x.data, Product(shape)), HasSize(ndArrays, x.grad, Product(shape));
            var made := ndArrays + [OnArray(shape, arrays), OnArray(shape, arrays + 1)];
            && (ViewedAs(x, ndArrays, shape)
                == Variable(data && grad, shape, |ndArrays| + (if data then 2 else 0), |ndArrays| + (if data && grad then 3 else 1), 0))
            && (ViewedIn(x, ndArrays, arrays, shape)
                == made + (if data then [OnArray(shape, ndArrays[x.data].store)] else [])
                        + (if data && grad then [OnArray(shape, ndArrays[x.grad].store)] else []))
    ensures forall store: nat :: OnArray(shape, store) == NdArray(true, shape, Product(shape), Strides(shape), store, 0)
  {
  }

  lemma ShapeTests(ndArrays: seq<NdArray>, k: nat, shape: seq<nat>)
    requires k < |ndArrays|
    ensures HasShape(ndArrays, k, shape) <==> ndArrays[k].shape == shape
  {
  }

  predicate HasSize(ndArrays: seq<NdArray>, k: nat, size: nat) {
    k < |ndArrays| && ndArrays[k].size == size
  }

  lemma SizeTests(ndArrays: seq<NdArray>, k: nat, size: nat)
    requires k < |ndArrays|
    ensures HasSize(ndArrays, k, size) <==> ndArrays[k].size == size
  {
  }

  lemma StaysHeld(before: seq<NdArray>, after: seq<NdArray>, k: nat)
    requires before <= after && k < |before| && before[k].alive
    ensures k < |after| && after[k] == before[k] && Held(after, k)
  {
  }

  /** A new node has no count, and a place inside its parent beside its siblings. */
  ghost predicate Fits(arrays: seq<Node>, n: Node) {
    && n.alive && n.count == 0
    && (n.parent.Some? ==>
          && n.parent.value < |arrays| && arrays[n.parent.value].alive
          && n.offset + n.size <= arrays[n.parent.value].size)
    && forall a :: 0 <= a < |arrays| && Siblings(arrays[a], n) ==>
         !ViewTree.RangesClash(n.offset, n.size, arrays[a].offset, arrays[a].size)
  }

  predicate SameButNdCounts(before: seq<NdArray>, after: seq<NdArray>) {
    |after| == |before| && forall k :: 0 <= k < |before| ==> after[k] == before[k].(count := after[k].count)
  }

  lemma SameTwice(a: seq<Node>, b: seq<Node>, c: seq<Node>)
    requires SameButCounts(a, b) && SameButCounts(b, c)
    ensures SameButCounts(a, c)
  {
  }

  lemma ValidParts(g: Registry)
    requires g.Valid()
    ensures Lower(g.arrays, g.ndArrays) && AllShaped(g.arrays, g.ndArrays)
    ensures Upper(g.variables, g.ndArrays, g.direct)
  {
  }

  lemma IfValid(g: Registry, k: nat, a: nat)
    requires k < |g.ndArrays| && a < |g.arrays| && g.arrays[a].alive
    ensures g.Valid() ==> Upper(g.variables, g.ndArrays[k := g.ndArrays[k].(store := a)], g.direct)
    ensures g.Valid() && g.ndArrays[k].size == g.arrays[a].size ==>
              AllShaped(g.arrays, g.ndArrays[k := g.ndArrays[k].(store := a)])
  {
  }

  lemma PartsValid(g: Registry)
    requires Lower(g.arrays, g.ndArrays) && AllShaped(g.arrays, g.ndArrays)
    requires Upper(g.variables, g.ndArrays, g.direct)
    ensures g.Valid()
  {
  }

  lemma CountedStaysHeld(ndArrays: seq<NdArray>, k: nat, diff: int, x: nat)
    requires k < |ndArrays| && Held(ndArrays, x)
    ensures |Counted(ndArrays, k, diff)| == |ndArrays| && Held(Counted(ndArrays, k, diff), x)
    ensures x < |ndArrays|
  {
  }

  /** Both updates of set_data, and the new holder, together. */
  lemma DataMoved(variables: seq<Variable>, ndArrays: seq<NdArray>, direct: seq<int>, v: nat, k: nat)
    requires Upper(variables, ndArrays, direct) && v < |variables| && variables[v].alive
    requires k < |ndArrays| && Held(ndArrays, k)
    ensures variables[v].data < |ndArrays| && Held(ndArrays, variables[v].data)
    ensures var was, count := variables[v].data, variables[v].count;
            var after := Counted(Counted(ndArrays, k, count), was, -count);
            Upper(variables[v := variables[v].(data := k)], after, direct) && SameButNdCounts(ndArrays, after)
  {
    DataHolderChanged(variables, v, variables[v].(data := k));
  }

  lemma ArrayAdded(arrays: seq<Node>, ndArrays: seq<NdArray>, n: Node)
    requires Lower(arrays, ndArrays) && AllShaped(arrays, ndArrays) && Fits(arrays, n)
    ensures Lower(arrays + [n], ndArrays) && AllShaped(arrays + [n], ndArrays)
  {
    assert Tree(arrays + [n]) && Placed(arrays + [n]);
    BalanceAdded(ndArrays, arrays, n);
    hide Balanced, Placed;
  }

  lemma BalanceAdded(ndArrays: seq<NdArray>, arrays: seq<Node>, n: Node)
    requires Lower(arrays, ndArrays) && n.alive && n.count == 0 && (n.parent.Some? ==> n.parent.value < |arrays|)
    ensures Balanced(arrays + [n], ArrayEdges(ndArrays))
  {
    var after, edges := arrays + [n], ParentEdges(arrays);
    assert ParentEdges(after) == edges + [ParentEdge(n)];
    assert forall i :: 0 <= i < |edges| ==> edges[i].to != Some(|arrays|);
    hide Placed;
    forall a: nat | a < |after| && after[a].alive
      ensures Sum(after, ArrayEdges(ndArrays), a) == after[a].count
    {
      TotalAppend(edges, ParentEdge(n), a);
      if a < |arrays| {
        assert Sum(arrays, ArrayEdges(ndArrays), a) == arrays[a].count;
      } else {
        TotalNone(edges, a);
        TotalNone(ArrayEdges(ndArrays), a);
      }
    }
  }

  lemma NdArrayAdded(variables: seq<Variable>, ndArrays: seq<NdArray>, arrays: seq<Node>, direct: seq<int>, n: NdArray)
    requires Lower(arrays, ndArrays) && AllShaped(arrays, ndArrays) && Upper(variables, ndArrays, direct)
    requires n.alive && n.count == 0 && Stored(n, arrays) && Shaped(n, arrays)
    ensures Lower(arrays, ndArrays + [n]) && AllShaped(arrays, ndArrays + [n])
    ensures Upper(variables, ndArrays + [n], direct + [0])
  {
    HolderAdded(arrays, ndArrays, n);
    TotalNone(DataEdges(variables), |ndArrays|);
  }

  lemma HolderAdded(arrays: seq<Node>, ndArrays: seq<NdArray>, n: NdArray)
    requires Balanced(arrays, ArrayEdges(ndArrays)) && n.alive && n.count == 0
    ensures Balanced(arrays, ArrayEdges(ndArrays + [n]))
  {
    var after, edges := ndArrays + [n], ArrayEdges(ndArrays);
    assert ArrayEdges(after) == edges + [ArrayEdge(n)];
    forall a: nat | a < |arrays| && arrays[a].alive
      ensures Sum(arrays, ArrayEdges(after), a) == arrays[a].count
    {
      TotalAppend(edges, ArrayEdge(n), a);
      assert Sum(arrays, edges, a) == arrays[a].count;
    }
  }

  lemma VariableAdded(variables: seq<Variable>, ndArrays: seq<NdArray>, direct: seq<int>, x: Variable)
    requires Upper(variables, ndArrays, direct) && x.alive && x.count == 0
    requires Held(ndArrays, x.data) && Held(ndArrays, x.grad)
    ensures Upper(variables + [x], ndArrays, direct)
  {
    var edges := DataEdges(variables);
    assert DataEdges(variables + [x]) == edges + [DataEdge(x)];
    forall k: nat | k < |ndArrays| && ndArrays[k].alive
      ensures ndArrays[k].count == direct[k] + Total(DataEdges(variables + [x]), k)
    {
      TotalAppend(edges, DataEdge(x), k);
    }
  }

  lemma LowerFacts(arrays: seq<Node>, ndArrays: seq<NdArray>, k: nat)
    requires Lower(arrays, ndArrays) && Held(ndArrays, k)
    ensures Tree(arrays) && k < |ndArrays| && ndArrays[k].alive
    ensures ndArrays[k].store < |arrays| && arrays[ndArrays[k].store].alive
  {
  }

  function Counted(ndArrays: seq<NdArray>, k: nat, diff: int): seq<NdArray>
    requires k < |ndArrays|
  {
    ndArrays[k := ndArrays[k].(count := ndArrays[k].count + diff)]
  }

  lemma CountedNothing(ndArrays: seq<NdArray>, k: nat)
    requires k < |ndArrays|
    ensures Counted(ndArrays, k, -0) == ndArrays
  {
  }

  /** A count handed over from one NdArray to another. */
  function Handed(ndArrays: seq<NdArray>, was: nat, k: nat, count: int): seq<NdArray>
    requires was < |ndArrays| && k < |ndArrays|
  {
    Counted(Counted(ndArrays, k, count), was, -count)
  }

  lemma HandedIs(ndArrays: seq<NdArray>, was: nat, k: nat, count: int)
    requires was < |ndArrays| && k < |ndArrays|
    ensures |Counted(ndArrays, k, count)| == |ndArrays|
    ensures Handed(ndArrays, was, k, count) == Counted(Counted(ndArrays, k, count), was, -count)
    ensures SameButNdCounts(ndArrays, Handed(ndArrays, was, k, count))
    ensures count == 0 ==> Handed(ndArrays, was, k, count) == ndArrays
  {
  }

  lemma CountingKeepsLower(arrays: seq<Node>, ndArrays: seq<NdArray>, k: nat, diff: int)
    requires Lower(arrays, ndArrays) && Held(ndArrays, k)
    ensures Lower(Bumped(arrays, ndArrays[k].store, diff), Counted(ndArrays, k, diff))
  {
    var after := Bumped(arrays, ndArrays[k].store, diff);
    CountChanged(ndArrays, k, diff);
    SamePlaces(arrays, after);
    SameStores(arrays, after);
    hide Tree, Placed, Balanced, Bumped, SameButCounts;
    BumpKeepsBalance(arrays, ArrayEdges(ndArrays), ArrayEdges(Counted(ndArrays, k, diff)), ndArrays[k].store, diff);
  }

  /** The arrays after both updates of set_array. */
  function Rehung(arrays: seq<Node>, was: nat, a: nat, count: int): seq<Node>
    requires Tree(arrays) && a < |arrays| && arrays[a].alive && was < |arrays| && arrays[was].alive
  {
    BumpedTwice(arrays, a, count, was, -count);
    Bumped(Bumped(arrays, a, count), was, -count)
  }

  lemma RehungIs(arrays: seq<Node>, was: nat, a: nat, count: int)
    requires Tree(arrays) && a < |arrays| && arrays[a].alive && was < |arrays| && arrays[was].alive
    ensures var up := Bumped(arrays, a, count);
            Tree(up) && was < |up| && up[was].alive && Rehung(arrays, was, a, count) == Bumped(up, was, -count)
    ensures SameButCounts(arrays, Rehung(arrays, was, a, count))
  {
    BumpedTwice(arrays, a, count, was, -count);
  }

  lemma Transfer(arrays: seq<Node>, ndArrays: seq<NdArray>, k: nat, a: nat)
    requires Lower(arrays, ndArrays) && Held(ndArrays, k)
    requires a < |arrays| && arrays[a].alive && ndArrays[k].size == arrays[a].size
    ensures ndArrays[k].store < |arrays| && arrays[ndArrays[k].store].alive
    ensures Lower(Rehung(arrays, ndArrays[k].store, a, ndArrays[k].count), ndArrays[k := ndArrays[k].(store := a)])
  {
    var was, count := ndArrays[k].store, ndArrays[k].count;
    var after := Rehung(arrays, was, a, count);
    RehungBalance(arrays, ndArrays, k, a);
    hide Tree, Placed, Balanced, Rehung, SameButCounts, ArrayEdges;
    SamePlaces(arrays, after);
    SameStores(arrays, after);
    assert arrays[a].size == after[a].size && after[a].alive by { SameAt(arrays, after, a); }
  }

  lemma SameAt(arrays: seq<Node>, after: seq<Node>, a: nat)
    requires SameButCounts(arrays, after) && a < |arrays|
    ensures a < |after| && after[a] == arrays[a].(count := after[a].count)
  {
  }

  lemma RehungBalance(arrays: seq<Node>, ndArrays: seq<NdArray>, k: nat, a: nat)
    requires Tree(arrays) && Balanced(arrays, ArrayEdges(ndArrays))
    requires k < |ndArrays| && ndArrays[k].alive && a < |arrays| && arrays[a].alive
    requires ndArrays[k].store < |arrays| && arrays[ndArrays[k].store].alive
    ensures SameButCounts(arrays, Rehung(arrays, ndArrays[k].store, a, ndArrays[k].count))
    ensures Balanced(Rehung(arrays, ndArrays[k].store, a, ndArrays[k].count),
                     ArrayEdges(ndArrays[k := ndArrays[k].(store := a)]))
  {
    var was, count, edges := ndArrays[k].store, ndArrays[k].count, ArrayEdges(ndArrays);
    var both, after := edges + [Edge(Some(a), count)], edges[k := Edge(Some(a), count)];
    StoreChanged(ndArrays, k, a);
    assert Rehung(arrays, was, a, count) == Bumped(Bumped(arrays, a, count), was, -count);
    hide *;
    BumpedTwice(arrays, a, count, was, -count);
    Moved(edges, k, was, a, count);
    BumpKeepsBalance(arrays, edges, both, a, count);
    BumpKeepsBalance(Bumped(arrays, a, count), both, after, was, -count);
  }

  lemma StoreChanged(ndArrays: seq<NdArray>, k: nat, a: nat)
    requires k < |ndArrays| && ndArrays[k].alive
    ensures ArrayEdges(ndArrays)[k] == Edge(Some(ndArrays[k].store), ndArrays[k].count)
    ensures ArrayEdges(ndArrays[k := ndArrays[k].(store := a)])
         == ArrayEdges(ndArrays)[k := Edge(Some(a), ndArrays[k].count)]
  {
  }

  lemma BumpedTwice(arrays: seq<Node>, a: nat, x: int, b: nat, y: int)
    requires Tree(arrays) && a < |arrays| && arrays[a].alive && b < |arrays| && arrays[b].alive
    ensures Tree(Bumped(arrays, a, x)) && Bumped(arrays, a, x)[b].alive
    ensures SameButCounts(arrays, Bumped(Bumped(arrays, a, x), b, y))
    ensures SameButCounts(arrays, Bumped(arrays, a, x))
  {
    SamePlaces(arrays, Bumped(arrays, a, x));
  }

  /** Holder `k` moves from one target to another, by way of holding both. */
  lemma Moved(edges: seq<Edge>, k: nat, was: nat, a: nat, count: int)
    requires k < |edges| && edges[k] == Edge(Some(was), count)
    ensures var both, after := edges + [Edge(Some(a), count)], edges[k := Edge(Some(a), count)];
            && (forall t: nat :: Total(both, t) == Total(edges, t) + (if t == a then count else 0))
            && (forall t: nat :: Total(after, t) == Total(both, t) + (if t == was then -count else 0))
  {
    var both, after := edges + [Edge(Some(a), count)], edges[k := Edge(Some(a), count)];
    forall t: nat
      ensures Total(both, t) == Total(edges, t) + (if t == a then count else 0)
      ensures Total(after, t) == Total(both, t) + (if t == was then -count else 0)
    {
      TotalAppend(edges, Edge(Some(a), count), t);
      TotalUpdate(edges, k, Edge(Some(a), count), t);
    }
  }

  lemma DataHolderChanged(variables: seq<Variable>, v: nat, after: Variable)
    requires v < |variables|
    ensures forall t: nat :: Total(DataEdges(variables[v := after]), t)
                          == Total(DataEdges(variables), t) - Share(DataEdge(variables[v]), t) + Share(DataEdge(after), t)
  {
    var edges := DataEdges(variables);
    assert DataEdges(variables[v := after]) == edges[v := DataEdge(after)];
    forall t: nat
      ensures Total(DataEdges(variables[v := after]), t)
           == Total(edges, t) - Share(edges[v], t) + Share(DataEdge(after), t)
    {
      TotalUpdate(edges, v, DataEdge(after), t);
    }
  }

  lemma SameSelf(arrays: seq<Node>)
    ensures SameButCounts(arrays, arrays)
  {
  }

  lemma SameStores(before: seq<Node>, after: seq<Node>)
    requires SameButCounts(before, after)
    ensures forall n: NdArray :: Stored(n, before) ==> Stored(n, after)
  {
  }

  lemma SameShapes(before: seq<Node>, after: seq<Node>, ndArrays: seq<NdArray>)
    requires SameButCounts(before, after) && AllShaped(before, ndArrays)
    ensures AllShaped(after, ndArrays)
  {
  }

  lemma CountsKeepShapes(before: seq<Node>, after: seq<Node>, ndArrays: seq<NdArray>, k: nat, diff: int)
    requires SameButCounts(before, after) && AllShaped(before, ndArrays) && k < |ndArrays|
    ensures AllShaped(after, Counted(ndArrays, k, diff))
  {
  }

  lemma CountChanged(ndArrays: seq<NdArray>, k: nat, diff: int)
    requires k < |ndArrays| && ndArrays[k].alive
    ensures forall t: nat :: Total(ArrayEdges(Counted(ndArrays, k, diff)), t)
                          == Total(ArrayEdges(ndArrays), t) + (if t == ndArrays[k].store then diff else 0)
  {
    var after := Counted(ndArrays, k, diff);
    var edges := ArrayEdges(ndArrays);
    assert ArrayEdges(after) == edges[k := ArrayEdge(after[k])];
    forall t: nat
      ensures Total(ArrayEdges(after), t) == Total(edges, t) + (if t == ndArrays[k].store then diff else 0)
    {
      TotalUpdate(edges, k, ArrayEdge(after[k]), t);
    }
  }
}
