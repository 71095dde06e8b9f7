/** The reference: one flat vector that executes every operation at once.

    A view is an interval of the vector.  Before the first access after a whole-vector zero or
    fill there is no element type yet, so the vector holds constants; the first access fixes the
    place and type of the elements. */
module EagerVector {
  import opened ViewTree

  datatype DType = BOOL | BYTE | UBYTE | SHORT | USHORT | INT | UINT | LONG | ULONG | LONGLONG
                 | ULONGLONG | FLOAT | DOUBLE | LONGDOUBLE | HALF

  /** Where a copy lives: device id and array group, as in `create_key`. */
  datatype Place = Place(device: string, group: string)

  /** The number that an element of any type stands for. */
  type Value = real

  /** Element conversion; only its behaviour on equal types is known. */
  type Convert = (DType, DType, Value) -> Value

  ghost predicate Faithful(conv: Convert) {
    forall d, v :: conv(d, d, v) == v
  }

  /** A constant that has not been given an element type. */
  datatype Constant = Zero | Number(x: Value)

  function Realize(conv: Convert, d: DType, c: Constant): Value {
    match c
    case Zero => 0.0
    case Number(x) => conv(FLOAT, d, x)
  }

  datatype Store =
    | Constants(cells: seq<Constant>)
    | Elements(place: Place, dtype: DType, vals: seq<Value>)

  /** `pending` holds what a zero or fill has put into a node that no access has executed and no later one replaced. */
  datatype Eager = Eager(tree: seq<Link>, live: seq<bool>, store: Store, pending: map<nat, Constant>)

  datatype Op =
    | Narrow(parent: nat, size: nat, offset: nat)
    | Get(node: nat, place: Place, dtype: DType)
      /** `cast`, after which the caller overwrites the array it was handed with `data`. */
    | CastAndWrite(node: nat, place: Place, dtype: DType, writeOnly: bool, data: seq<Value>)
    | SetZero(node: nat)
    | Fill(node: nat, x: Value)
    | Destroy(node: nat)

  datatype Outcome = Done | Values(vals: seq<Value>) | Failed

  ghost predicate ValidEager(e: Eager) {
    && GoodTree(e.tree, e.live)
    && (forall j :: j in e.pending ==> j < |e.tree| && e.live[j])
    && match e.store
       case Constants(cells) => |cells| == e.tree[0].size
       case Elements(_, _, vals) => |vals| == e.tree[0].size
  }

  ghost predicate LiveNode(e: Eager, n: nat)
    requires ValidEager(e)
  {
    n < |e.tree| && e.live[n]
  }

  ghost function Interval<T>(tree: seq<Link>, s: seq<T>, n: nat): seq<T>
    requires WellRooted(tree) && n < |tree| && |s| == tree[0].size
  {
    EveryoneBelowRoot(tree, n);
    BelowInside(tree, n, 0);
    s[Start(tree, n)..Start(tree, n) + tree[n].size]
  }

  /** `s` with the interval of `n` replaced by `data`. */
  ghost function Overwrite<T>(tree: seq<Link>, s: seq<T>, n: nat, data: seq<T>): (r: seq<T>)
    requires WellRooted(tree) && n < |tree| && |s| == tree[0].size && |data| == tree[n].size
    ensures |r| == |s|
    ensures forall k :: 0 <= k < |s| ==>
              r[k] == if Covers(tree, n, k) then data[k - Start(tree, n)] else s[k]
  {
    EveryoneBelowRoot(tree, n);
    BelowInside(tree, n, 0);
    s[..Start(tree, n)] + data + s[Start(tree, n) + tree[n].size..]
  }

  ghost function Constantly<T>(n: nat, x: T): (r: seq<T>)
    ensures |r| == n && forall k :: 0 <= k < n ==> r[k] == x
  {
    seq(n, _ => x)
  }

  ghost function ConvertAll(conv: Convert, from: DType, to: DType, s: seq<Value>): (r: seq<Value>)
    ensures |r| == |s| && forall k :: 0 <= k < |s| ==> r[k] == conv(from, to, s[k])
  {
    seq(|s|, k requires 0 <= k < |s| => conv(from, to, s[k]))
  }

  /** An access at element type `d` gives the constants that type. */
  ghost function Settle(conv: Convert, store: Store, place: Place, d: DType): (r: Store)
    ensures r.Elements?
    ensures store.Elements? ==> r == store
  {
    match store
    case Constants(cells) =>
      Elements(place, d, seq(|cells|, k requires 0 <= k < |cells| => Realize(conv, d, cells[k])))
    case Elements(_, _, _) => store
  }

  /** Put constant `c` in every cell of node `n`; on the root this forgets the element type. */
  ghost function SetConstant(conv: Convert, e: Eager, n: nat, c: Constant): Store
    requires ValidEager(e) && LiveNode(e, n)
  {
    if n == 0 then
      Constants(Constantly(e.tree[0].size, c))
    else
      match e.store
      case Constants(cells) =>
        Constants(Overwrite(e.tree, cells, n, Constantly(e.tree[n].size, c)))
      case Elements(place, d, vals) =>
        Elements(place, d, Overwrite(e.tree, vals, n, Constantly(e.tree[n].size, Realize(conv, d, c))))
  }

  /** The vector that `cast` of `n` leaves before the caller writes. */
  ghost function CastStore(conv: Convert, e: Eager, n: nat, place: Place, d: DType): Store
    requires ValidEager(e) && LiveNode(e, n)
  {
    var s := Settle(conv, e.store, place, d);
    if n == 0 then Elements(place, d, ConvertAll(conv, s.dtype, d, s.vals)) else s
  }

  /** A view cannot be cast to another place or type than its root has. */
  ghost predicate CastRefused(e: Eager, n: nat, place: Place, d: DType)
  {
    n != 0 && e.store.Elements? && (e.store.place != place || e.store.dtype != d)
  }

  ghost predicate OverlapsSibling(e: Eager, parent: nat, size: nat, offset: nat)
    requires ValidEager(e)
  {
    exists i :: 0 < i < |e.tree| && e.live[i] && e.tree[i].parent == parent &&
      RangesClash(e.tree[i].offset, e.tree[i].size, offset, size)
  }

  /** Every cell of node `n` is zero. */
  ghost predicate AllZero(tree: seq<Link>, store: Store, n: nat)
    requires WellRooted(tree) && n < |tree|
  {
    match store
    case Constants(cells) => forall k :: 0 <= k < |cells| && Covers(tree, n, k) ==> cells[k] == Zero
    case Elements(_, _, vals) => forall k :: 0 <= k < |vals| && Covers(tree, n, k) ==> vals[k] == 0.0
  }

  /** An access to `n` executes what is pending at and below `n`, and at and below its pending ancestors. */
  ghost predicate Reaches(e: Eager, n: nat, j: nat)
    requires ValidEager(e) && n < |e.tree| && j < |e.tree|
  {
    Below(e.tree, j, n) || exists a :: a in e.pending && Below(e.tree, n, a) && Below(e.tree, j, a)
  }

  /** What is still pending after an access to `n`. */
  ghost function Unexecuted(e: Eager, n: nat): map<nat, Constant>
    requires ValidEager(e) && n < |e.tree|
  {
    map j | j in e.pending && !Reaches(e, n, j) :: e.pending[j]
  }

  /** What is still pending after a zero or fill of `n` has replaced what was pending in its cells. */
  ghost function Unreplaced(e: Eager, n: nat): map<nat, Constant>
    requires ValidEager(e) && n < |e.tree|
  {
    map j | j in e.pending && !Below(e.tree, j, n) :: e.pending[j]
  }

  /** The constants are the same number in this store. */
  ghost predicate SameNumber(conv: Convert, store: Store, c: Constant, c': Constant) {
    match store
    case Constants(_) => c == c'
    case Elements(_, d, _) => Realize(conv, d, c) == Realize(conv, d, c')
  }

  /** `a` is the nearest of the ancestors of `n` with something pending. */
  ghost predicate NearestPending(e: Eager, n: nat, a: nat)
    requires ValidEager(e) && n < |e.tree|
  {
    && a in e.pending && a != n && Below(e.tree, n, a)
    && forall b :: b in e.pending && b != n && Below(e.tree, n, b) ==> Below(e.tree, a, b)
  }

  /** What is pending above `n` puts into its cells what is pending in `n` itself. */
  ghost predicate Repeated(conv: Convert, e: Eager, n: nat)
    requires ValidEager(e) && n < |e.tree| && n in e.pending
  {
    exists a :: NearestPending(e, n, a) && SameNumber(conv, e.store, e.pending[a], e.pending[n])
  }

  /** What a caller must respect; each clause is a limit of the code, not a convenience. */
  ghost predicate Allowed(conv: Convert, e: Eager, op: Op)
    requires ValidEager(e)
  {
    match op
    case Narrow(p, size, offset) =>
      // inside the parent, and every node above the parent starts at the root's first element
      LiveNode(e, p) && offset + size <= e.tree[p].size && Start(e.tree, p) == e.tree[p].offset
    case Get(n, _, _) => LiveNode(e, n)
    case CastAndWrite(n, _, _, _, data) => LiveNode(e, n) && |data| == e.tree[n].size
    case SetZero(n) => LiveNode(e, n)
    case Fill(n, _) => LiveNode(e, n)
    case Destroy(n) =>
      // no child is left, and nothing that only the view knows is lost
      LiveNode(e, n) && n > 0 && (n !in e.pending || e.tree[n].size == 0 || Repeated(conv, e, n))
      && forall i :: 0 < i < |e.tree| && e.live[i] ==> e.tree[i].parent != n
  }

  /** One operation on the flat vector, and what the caller is told. */
  ghost function Execute(conv: Convert, e: Eager, op: Op): (Eager, Outcome)
    requires ValidEager(e) && Allowed(conv, e, op)
  {
    match op
    case Narrow(p, size, offset) =>
      if OverlapsSibling(e, p, size, offset) then (e, Failed)
      else (Eager(e.tree + [Link(p, offset, size)], e.live + [true], e.store, e.pending), Done)
    case Get(n, place, d) =>
      var s := Settle(conv, e.store, place, d);
      (e.(store := s, pending := Unexecuted(e, n)), Values(ConvertAll(conv, s.dtype, d, Interval(e.tree, s.vals, n))))
    case CastAndWrite(n, place, d, writeOnly, data) =>
      if CastRefused(e, n, place, d) then (e, Failed)
      else
        var s := CastStore(conv, e, n, place, d);
        (e.(store := s.(vals := Overwrite(e.tree, s.vals, n, data)), pending := Unexecuted(e, n)),
         if writeOnly then Done else Values(Interval(e.tree, s.vals, n)))
    case SetZero(n) => (e.(store := SetConstant(conv, e, n, Zero), pending := Unreplaced(e, n)[n := Zero]), Done)
    case Fill(n, x) => (e.(store := SetConstant(conv, e, n, Number(x)), pending := Unreplaced(e, n)[n := Number(x)]), Done)
    case Destroy(n) => (e.(live := e.live[n := false], pending := e.pending - {n}), Done)
  }

  /** The vector of a new array: zeros, with no element type yet. */
  ghost function Fresh(size: nat): (e: Eager)
    ensures ValidEager(e)
  {
    Eager([Link(-1, 0, size)], [true], Constants(Constantly(size, Zero)), map[0 := Zero])
  }

  /** Every operation finds the vector it needs, from `e` on. */
  ghost predicate AllAllowed(conv: Convert, e: Eager, ops: seq<Op>)
    requires ValidEager(e)
    decreases |ops|
  {
    ops == [] || (Allowed(conv, e, ops[0]) && (ExecuteValid(conv, e, ops[0]); AllAllowed(conv, Execute(conv, e, ops[0]).0, ops[1..])))
  }

  /** What the caller is told along a run. */
  ghost function Outcomes(conv: Convert, e: Eager, ops: seq<Op>): (r: seq<Outcome>)
    requires ValidEager(e) && AllAllowed(conv, e, ops)
    ensures |r| == |ops|
    decreases |ops|
  {
    if ops == [] then [] else
      ExecuteValid(conv, e, ops[0]);
      var (e', r) := Execute(conv, e, ops[0]);
      [r] + Outcomes(conv, e', ops[1..])
  }

  /** The reference after a run. */
  ghost function Finally(conv: Convert, e: Eager, ops: seq<Op>): (e': Eager)
    requires ValidEager(e) && AllAllowed(conv, e, ops)
    ensures ValidEager(e')
    decreases |ops|
  {
    if ops == [] then e else
      ExecuteValid(conv, e, ops[0]);
      Finally(conv, Execute(conv, e, ops[0]).0, ops[1..])
  }

  lemma ExecuteValid(conv: Convert, e: Eager, op: Op)
    requires ValidEager(e) && Allowed(conv, e, op)
    ensures ValidEager(Execute(conv, e, op).0)
  {
    match op
    case Narrow(p, size, offset) =>
      if !OverlapsSibling(e, p, size, offset) {
        NarrowKeepsTree(e.tree, e.live, p, size, offset);
      }
    case Destroy(n) =>
      DestroyKeepsTree(e.tree, e.live, n);
    case _ =>
  }

  /** A new view that passed the constructor's test keeps the living siblings apart. */
  lemma NarrowKeepsTree(tree: seq<Link>, live: seq<bool>, p: nat, size: nat, offset: nat)
    requires GoodTree(tree, live) && p < |tree| && live[p] && offset + size <= tree[p].size
    requires forall i :: 0 < i < |tree| && live[i] && tree[i].parent == p ==>
               !RangesClash(tree[i].offset, tree[i].size, offset, size)
    ensures GoodTree(tree + [Link(p, offset, size)], live + [true])
  {
    var tree', live' := tree + [Link(p, offset, size)], live + [true];
    forall i, j | Siblings(tree', live', i, j)
      ensures !Overlap(tree'[i].offset, tree'[i].size, tree'[j].offset, tree'[j].size)
    {
      assert j < |tree| ==> Siblings(tree, live, i, j);
    }
  }

  lemma DestroyKeepsTree(tree: seq<Link>, live: seq<bool>, n: nat)
    requires GoodTree(tree, live) && 0 < n < |tree| && live[n]
    requires forall i :: 0 < i < |tree| && live[i] ==> tree[i].parent != n
    ensures GoodTree(tree, live[n := false])
  {
    var live' := live[n := false];
    forall i, j | Siblings(tree, live', i, j)
      ensures !Overlap(tree[i].offset, tree[i].size, tree[j].offset, tree[j].size)
    {
      assert Siblings(tree, live, i, j);
    }
  }
}
