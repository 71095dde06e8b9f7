/** What the operations on the reference do, number by number, and what a read gives after a write. */
module VectorLaws {
  import opened ViewTree
  import opened EagerVector

  /** A constant as an element of type `d`. */
  lemma Realized(conv: Convert, d: DType, c: Constant)
    ensures Realize(conv, d, c) == if c.Zero? then 0.0 else conv(FLOAT, d, c.x)
  {
  }

  lemma Inside(e: Eager, n: nat)
    requires ValidEager(e) && n < |e.tree|
    ensures Start(e.tree, n) + e.tree[n].size <= e.tree[0].size
    ensures n == 0 ==> Start(e.tree, n) == 0
  {
    EveryoneBelowRoot(e.tree, n);
    BelowInside(e.tree, n, 0);
  }

  /** The values are the `size` numbers from `at` on, converted from the type they have to the type asked for. */
  ghost predicate ReadsAs(conv: Convert, store: Store, at: nat, size: nat, d: DType, vals: seq<Value>) {
    && |vals| == size
    && match store
       case Elements(_, t, numbers) =>
         at + size <= |numbers| && forall k :: 0 <= k < size ==> vals[k] == conv(t, d, numbers[at + k])
       case Constants(cells) =>
         at + size <= |cells| && forall k :: 0 <= k < size ==>
           var c := cells[at + k]; vals[k] == if c.Zero? then 0.0 else conv(FLOAT, d, c.x)
  }

  /** A read changes no number, but gives the constants the type it asks for. */
  lemma Reads(conv: Convert, e: Eager, n: nat, place: Place, d: DType)
    requires ValidEager(e) && Faithful(conv) && LiveNode(e, n)
    ensures Start(e.tree, n) + e.tree[n].size <= e.tree[0].size
    ensures var (e', r) := Execute(conv, e, Get(n, place, d));
            && e'.tree == e.tree && e'.live == e.live && e'.store.Elements?
            && r.Values? && ReadsAs(conv, e.store, Start(e.tree, n), e.tree[n].size, d, r.vals)
            && match e.store
               case Elements(_, _, _) => e'.store == e.store
               case Constants(cells) =>
                 && e'.store.place == place && e'.store.dtype == d && |e'.store.vals| == |cells|
                 && forall k :: 0 <= k < |cells| ==>
                      e'.store.vals[k] == if cells[k].Zero? then 0.0 else conv(FLOAT, d, cells[k].x)
  {
    Inside(e, n);
    Settles(conv, e.store, place, d);
    var s := Settle(conv, e.store, place, d);
    ReadIs(conv, e, n, place, d);
    hide *;
    ReadsFrom(conv, e.tree, s.vals, n, s.dtype, d);
  }

  lemma ReadIs(conv: Convert, e: Eager, n: nat, place: Place, d: DType)
    requires ValidEager(e) && LiveNode(e, n)
    ensures var (e', r) := Execute(conv, e, Get(n, place, d));
            var s := Settle(conv, e.store, place, d);
            && |s.vals| == e.tree[0].size && WellRooted(e.tree) && n < |e.tree| && (e.store.Constants? ==> |e.store.cells| == e.tree[0].size)
            && e'.tree == e.tree && e'.live == e.live && e'.store == s
            && r == Values(ConvertAll(conv, s.dtype, d, Interval(e.tree, s.vals, n)))
  {
    hide Start, Interval, Unexecuted, ConvertAll;
  }

  lemma ReadsFrom(conv: Convert, tree: seq<Link>, vals: seq<Value>, n: nat, t: DType, d: DType)
    requires WellRooted(tree) && n < |tree| && |vals| == tree[0].size && Start(tree, n) + tree[n].size <= tree[0].size
    ensures var r := ConvertAll(conv, t, d, Interval(tree, vals, n));
            |r| == tree[n].size && forall k :: 0 <= k < |r| ==> r[k] == conv(t, d, vals[Start(tree, n) + k])
  {
    hide Start, WellRooted;
  }

  /** The first access gives constants the type it asks for. */
  lemma Settles(conv: Convert, store: Store, place: Place, d: DType)
    ensures var s := Settle(conv, store, place, d);
            && (store.Elements? ==> s == store)
            && (store.Constants? ==>
                  && s.Elements? && s.place == place && s.dtype == d && |s.vals| == |store.cells|
                  && forall k :: 0 <= k < |store.cells| ==>
                       s.vals[k] == if store.cells[k].Zero? then 0.0 else conv(FLOAT, d, store.cells[k].x))
  {
  }

  /** The data stands in the cells from `at` on, and everywhere else what stood there; the values handed out are
      what stood in those cells, converted. */
  ghost predicate Wrote(conv: Convert, store: Store, at: nat, place: Place, d: DType, writeOnly: bool, data: seq<Value>,
                        store': Store, r: Outcome)
  {
    && store'.Elements? && store'.place == place && store'.dtype == d && at + |data| <= |store'.vals|
    && (if writeOnly then r == Done else r.Values? && |r.vals| == |data|)
    && (forall k :: 0 <= k < |data| ==> store'.vals[at + k] == data[k])
    && match store
       case Elements(_, t, vals) =>
         && |store'.vals| == |vals|
         && (forall k :: 0 <= k < |vals| && !(at <= k < at + |data|) ==> store'.vals[k] == vals[k])
         && (!writeOnly ==> forall k :: 0 <= k < |data| ==> r.vals[k] == conv(t, d, vals[at + k]))
       case Constants(cells) =>
         && |store'.vals| == |cells|
         && (forall k :: 0 <= k < |cells| && !(at <= k < at + |data|) ==>
               store'.vals[k] == if cells[k].Zero? then 0.0 else conv(FLOAT, d, cells[k].x))
         && (!writeOnly ==>
               forall k :: 0 <= k < |data| ==> var c := cells[at + k]; r.vals[k] == if c.Zero? then 0.0 else conv(FLOAT, d, c.x))
  }

  /** A cast of a view is refused if and only if the root has another place or type. */
  lemma Writes(conv: Convert, e: Eager, n: nat, place: Place, d: DType, writeOnly: bool, data: seq<Value>)
    requires ValidEager(e) && Faithful(conv) && LiveNode(e, n) && |data| == e.tree[n].size
    ensures Start(e.tree, n) + e.tree[n].size <= e.tree[0].size
    ensures var (e', r) := Execute(conv, e, CastAndWrite(n, place, d, writeOnly, data));
            && (r.Failed? <==> n != 0 && e.store.Elements? && !(e.store.place == place && e.store.dtype == d))
            && e'.tree == e.tree && e'.live == e.live
            && if r.Failed? then e' == e else Wrote(conv, e.store, Start(e.tree, n), place, d, writeOnly, data, e'.store, r)
  {
    Inside(e, n);
    RefusedIs(e, n, place, d);
    hide *;
    if CastRefused(e, n, place, d) {
      Refuses(conv, e, n, place, d, writeOnly, data);
    } else {
      CastWrote(conv, e, n, place, d, writeOnly, data);
      WriteIs(conv, e, n, place, d, writeOnly, data);
    }
  }

  lemma RefusedIs(e: Eager, n: nat, place: Place, d: DType)
    ensures CastRefused(e, n, place, d) <==> n != 0 && e.store.Elements? && !(e.store.place == place && e.store.dtype == d)
  {
  }

  lemma Refuses(conv: Convert, e: Eager, n: nat, place: Place, d: DType, writeOnly: bool, data: seq<Value>)
    requires ValidEager(e) && LiveNode(e, n) && |data| == e.tree[n].size && CastRefused(e, n, place, d)
    ensures Execute(conv, e, CastAndWrite(n, place, d, writeOnly, data)) == (e, Failed)
  {
  }

  lemma CastWrote(conv: Convert, e: Eager, n: nat, place: Place, d: DType, writeOnly: bool, data: seq<Value>)
    requires ValidEager(e) && Faithful(conv) && LiveNode(e, n) && |data| == e.tree[n].size && !CastRefused(e, n, place, d)
    requires Start(e.tree, n) + e.tree[n].size <= e.tree[0].size
    ensures var c := CastStore(conv, e, n, place, d);
            && |c.vals| == e.tree[0].size && WellRooted(e.tree)
            && Wrote(conv, e.store, Start(e.tree, n), place, d, writeOnly, data, c.(vals := Overwrite(e.tree, c.vals, n, data)),
                     if writeOnly then Done else Values(Interval(e.tree, c.vals, n)))
  {
    Casts(conv, e, n, place, d);
    var c := CastStore(conv, e, n, place, d);
    OverwriteAt(e.tree, c.vals, n, data);
    IntervalAt(e.tree, c.vals, n);
    hide Wrote, CastStore, Overwrite, Interval, Start, Settle;
    WrittenCells(conv, e.store, c, Start(e.tree, n), place, d, writeOnly, data, c.(vals := Overwrite(e.tree, c.vals, n, data)),
                 if writeOnly then Done else Values(Interval(e.tree, c.vals, n)));
  }

  lemma WriteIs(conv: Convert, e: Eager, n: nat, place: Place, d: DType, writeOnly: bool, data: seq<Value>)
    requires ValidEager(e) && LiveNode(e, n) && |data| == e.tree[n].size && !CastRefused(e, n, place, d)
    ensures var (e', r) := Execute(conv, e, CastAndWrite(n, place, d, writeOnly, data));
            var c := CastStore(conv, e, n, place, d);
            && |c.vals| == e.tree[0].size
            && WellRooted(e.tree) && e'.tree == e.tree && e'.live == e.live && e'.store == c.(vals := Overwrite(e.tree, c.vals, n, data))
            && r == if writeOnly then Done else Values(Interval(e.tree, c.vals, n))
    ensures n != 0 && e.store.Elements? ==> e.store.place == place && e.store.dtype == d
  {
    hide Start, Overwrite, Interval, Unexecuted;
  }

  lemma WrittenCells(conv: Convert, store: Store, c: Store, at: nat, place: Place, d: DType, writeOnly: bool, data: seq<Value>,
                     store': Store, r: Outcome)
    requires c.Elements? && c.place == place && c.dtype == d && at + |data| <= |c.vals|
    requires store'.Elements? && store' == c.(vals := store'.vals) && |store'.vals| == |c.vals|
    requires if writeOnly then r == Done else r.Values? && |r.vals| == |data|
    requires forall k :: 0 <= k < |c.vals| ==> store'.vals[k] == if at <= k < at + |data| then data[k - at] else c.vals[k]
    requires !writeOnly ==> forall k :: 0 <= k < |data| ==> r.vals[k] == c.vals[at + k]
    requires match store
             case Elements(_, t, vals) =>
               && |vals| == |c.vals| && (forall k :: 0 <= k < |c.vals| ==> c.vals[k] == conv(t, d, vals[k]))
               && (|data| == |c.vals| || forall k :: 0 <= k < |c.vals| ==> c.vals[k] == vals[k])
             case Constants(cells) =>
               |cells| == |c.vals| && forall k :: 0 <= k < |c.vals| ==> c.vals[k] == if cells[k].Zero? then 0.0 else conv(FLOAT, d, cells[k].x)
    ensures Wrote(conv, store, at, place, d, writeOnly, data, store', r)
  {
  }

  /** The vector that a cast leaves before the caller writes. */
  lemma Casts(conv: Convert, e: Eager, n: nat, place: Place, d: DType)
    requires ValidEager(e) && Faithful(conv) && LiveNode(e, n) && !CastRefused(e, n, place, d)
    ensures var c := CastStore(conv, e, n, place, d);
            && c.Elements? && c.place == place && c.dtype == d && |c.vals| == e.tree[0].size
            && match e.store
               case Elements(_, t, vals) => (n != 0 ==> c.vals == vals && t == d) && forall k :: 0 <= k < |vals| ==> c.vals[k] == conv(t, d, vals[k])
               case Constants(cells) =>
                 forall k :: 0 <= k < |cells| ==> c.vals[k] == if cells[k].Zero? then 0.0 else conv(FLOAT, d, cells[k].x)
  {
    Settles(conv, e.store, place, d);
    hide WellRooted, GoodTree, Settle;
  }

  lemma OverwriteAt(tree: seq<Link>, vals: seq<Value>, n: nat, data: seq<Value>)
    requires WellRooted(tree) && n < |tree| && |vals| == tree[0].size && |data| == tree[n].size
    requires Start(tree, n) + tree[n].size <= tree[0].size
    ensures |Overwrite(tree, vals, n, data)| == |vals|
    ensures forall k :: 0 <= k < |vals| ==>
              Overwrite(tree, vals, n, data)[k] == if Start(tree, n) <= k < Start(tree, n) + |data| then data[k - Start(tree, n)] else vals[k]
  {
    hide Start, WellRooted;
  }

  lemma IntervalAt(tree: seq<Link>, vals: seq<Value>, n: nat)
    requires WellRooted(tree) && n < |tree| && |vals| == tree[0].size && Start(tree, n) + tree[n].size <= tree[0].size
    ensures |Interval(tree, vals, n)| == tree[n].size
    ensures forall k :: 0 <= k < tree[n].size ==> Interval(tree, vals, n)[k] == vals[Start(tree, n) + k]
  {
    hide Start, WellRooted;
  }

  /** The `size` cells from `at` on hold the constant, and all others what they held.  On the root, and while
      there is no type, it stays a constant. */
  ghost predicate SetTo(conv: Convert, store: Store, isRoot: bool, at: nat, size: nat, c: Constant, store': Store) {
    if isRoot then store'.Constants? && |store'.cells| == size && forall k :: 0 <= k < size ==> store'.cells[k] == c
    else
      match store
      case Constants(cells) =>
        && store'.Constants? && |store'.cells| == |cells|
        && forall k :: 0 <= k < |cells| ==> store'.cells[k] == if at <= k < at + size then c else cells[k]
      case Elements(place, t, vals) =>
        && store'.Elements? && store'.place == place && store'.dtype == t && |store'.vals| == |vals|
        && forall k :: 0 <= k < |vals| ==>
             store'.vals[k] == if at <= k < at + size then (if c.Zero? then 0.0 else conv(FLOAT, t, c.x)) else vals[k]
  }

  /** A zero or fill puts one number into all cells of the node and leaves the others alone. */
  lemma Sets(conv: Convert, e: Eager, n: nat, c: Constant, op: Op)
    requires ValidEager(e) && LiveNode(e, n) && op == if c.Zero? then SetZero(n) else Fill(n, c.x)
    ensures Start(e.tree, n) + e.tree[n].size <= e.tree[0].size
    ensures var (e', r) := Execute(conv, e, op);
            && r == Done && e'.tree == e.tree && e'.live == e.live
            && SetTo(conv, e.store, n == 0, Start(e.tree, n), e.tree[n].size, c, e'.store)
  {
    Inside(e, n);
    hide Below, Rooted, SiblingsApart, Start;
  }

  /** A view is refused if and only if it meets a living sibling; making or destroying one changes no number. */
  lemma Reshapes(conv: Convert, e: Eager, op: Op)
    requires ValidEager(e) && Allowed(conv, e, op) && (op.Narrow? || op.Destroy?)
    ensures var (e', r) := Execute(conv, e, op);
            && e'.store == e.store && (r == Done || r == Failed)
            && (op.Narrow? ==>
                  && (r.Failed? <==>
                        exists i :: 0 < i < |e.tree| && e.live[i] && e.tree[i].parent == op.parent
                          && op.offset <= e.tree[i].offset + e.tree[i].size - 1 && e.tree[i].offset <= op.offset + op.size - 1)
                  && (r.Failed? ==> e' == e)
                  && (r.Done? ==> e'.tree == e.tree + [Link(op.parent, op.offset, op.size)] && e'.live == e.live + [true]))
            && (op.Destroy? ==> r.Done? && e'.tree == e.tree && e'.live == e.live[op.node := false])
  {
  }

  // ---- Runs ------------------------------------------------------------------------------------

  /** The run up to its `m`-th operation can be carried out, and so can that operation behind it. */
  lemma {:induction false} StepOf(conv: Convert, e: Eager, ops: seq<Op>, m: nat)
    requires ValidEager(e) && AllAllowed(conv, e, ops) && m < |ops|
    ensures AllAllowed(conv, e, ops[..m]) && AllAllowed(conv, e, ops[..m + 1])
    ensures var at := Finally(conv, e, ops[..m]);
            && Allowed(conv, at, ops[m])
            && Execute(conv, at, ops[m]) == (Finally(conv, e, ops[..m + 1]), Outcomes(conv, e, ops)[m])
    decreases m
  {
    hide ValidEager, Allowed, Execute;
    ExecuteValid(conv, e, ops[0]);
    var e' := Execute(conv, e, ops[0]).0;
    assert ops[..m + 1][0] == ops[0] && ops[..m + 1][1..] == ops[1..][..m];
    if m > 0 {
      assert ops[..m][0] == ops[0] && ops[..m][1..] == ops[1..][..m - 1];
      StepOf(conv, e', ops[1..], m - 1);
      assert ops[1..][m - 1] == ops[m];
    } else {
      assert ops[..0] == [];
    }
  }

  /** Nodes `m` and `n` have no cell in common. */
  ghost predicate Disjoint(e: Eager, m: nat, n: nat)
    requires ValidEager(e) && m < |e.tree| && n < |e.tree|
  {
    Start(e.tree, m) + e.tree[m].size <= Start(e.tree, n) || Start(e.tree, n) + e.tree[n].size <= Start(e.tree, m)
  }

  /** The operation writes neither the root as a whole nor any cell of `n`. */
  ghost predicate LeavesAlone(conv: Convert, e: Eager, op: Op, n: nat)
    requires ValidEager(e) && Allowed(conv, e, op) && n < |e.tree|
  {
    match op
    case Narrow(_, _, _) => true
    case Get(_, _, _) => true
    case CastAndWrite(m, _, _, _, _) => m != 0 && Disjoint(e, m, n)
    case SetZero(m) => m != 0 && Disjoint(e, m, n)
    case Fill(m, _) => m != 0 && Disjoint(e, m, n)
    case Destroy(m) => m != n
  }

  /** The cells of `n` hold these numbers, as elements of type `t`. */
  ghost predicate Holds(e: Eager, n: nat, t: DType, data: seq<Value>) {
    && ValidEager(e) && LiveNode(e, n) && e.store.Elements? && e.store.dtype == t && |data| == e.tree[n].size
    && Start(e.tree, n) + |data| <= |e.store.vals|
    && forall k :: 0 <= k < |data| ==> e.store.vals[Start(e.tree, n) + k] == data[k]
  }

  lemma HoldsStill(conv: Convert, e: Eager, op: Op, n: nat, t: DType, data: seq<Value>)
    requires Faithful(conv) && Holds(e, n, t, data) && Allowed(conv, e, op) && LeavesAlone(conv, e, op, n)
    ensures Holds(Execute(conv, e, op).0, n, t, data)
  {
    ExecuteValid(conv, e, op);
    var e' := Execute(conv, e, op).0;
    match op
    case Narrow(p, size, offset) =>
      Reshapes(conv, e, op);
      if Execute(conv, e, op).1 == Done {
        StartPrefix(e.tree, [Link(p, offset, size)], n);
      }
      hide Execute, Start, ValidEager, WellRooted;
    case Get(m, place, d) =>
      Reads(conv, e, m, place, d);
      hide Execute, Start, ValidEager, WellRooted;
    case CastAndWrite(m, place, d, w, more) =>
      Writes(conv, e, m, place, d, w, more);
      hide Execute, Start, ValidEager, WellRooted;
    case SetZero(m) =>
      Sets(conv, e, m, Zero, op);
      hide Execute, Start, ValidEager, WellRooted;
    case Fill(m, x) =>
      Sets(conv, e, m, Number(x), op);
      hide Execute, Start, ValidEager, WellRooted;
    case Destroy(_) =>
      Reshapes(conv, e, op);
      hide Execute, Start, ValidEager, WellRooted;
  }

  lemma {:induction false} HoldsThrough(conv: Convert, e: Eager, ops: seq<Op>, i: nat, j: nat, n: nat, t: DType, data: seq<Value>)
    requires ValidEager(e) && Faithful(conv) && AllAllowed(conv, e, ops) && i <= j <= |ops|
    requires AllAllowed(conv, e, ops[..i]) && Holds(Finally(conv, e, ops[..i]), n, t, data)
    requires forall m :: i <= m < j ==> AllAllowed(conv, e, ops[..m]) && Undisturbed(conv, Finally(conv, e, ops[..m]), ops[m], n)
    ensures AllAllowed(conv, e, ops[..j]) && Holds(Finally(conv, e, ops[..j]), n, t, data)
    decreases j - i
  {
    hide Holds, ValidEager, Allowed, Execute, AllAllowed, Finally, LeavesAlone;
    if i < j {
      StepOf(conv, e, ops, i);
      assert Undisturbed(conv, Finally(conv, e, ops[..i]), ops[i], n);
      HoldsStill(conv, Finally(conv, e, ops[..i]), ops[i], n, t, data);
      HoldsThrough(conv, e, ops, i + 1, j, n, t, data);
    }
  }

  ghost predicate Undisturbed(conv: Convert, e: Eager, op: Op, n: nat)
    requires ValidEager(e)
  {
    Allowed(conv, e, op) && n < |e.tree| && LeavesAlone(conv, e, op, n)
  }

  /** In every run: what was written to a node through an accepted cast at type `d` and not overwritten since
      is read, at type `d'`, as it was written, converted from `d` to `d'`. */
  lemma LastWriteIsRead(conv: Convert, e: Eager, ops: seq<Op>, i: nat, j: nat, n: nat, place: Place, d: DType, writeOnly: bool,
                        data: seq<Value>, place': Place, d': DType)
    requires ValidEager(e) && Faithful(conv) && AllAllowed(conv, e, ops) && i < j < |ops|
    requires ops[i] == CastAndWrite(n, place, d, writeOnly, data) && ops[j] == Get(n, place', d')
    requires Outcomes(conv, e, ops)[i] != Failed
    requires forall m :: i < m < j ==> AllAllowed(conv, e, ops[..m]) && Undisturbed(conv, Finally(conv, e, ops[..m]), ops[m], n)
    ensures var r := Outcomes(conv, e, ops)[j];
            r.Values? && |r.vals| == |data| && forall k :: 0 <= k < |data| ==> r.vals[k] == conv(d, d', data[k])
  {
    hide ValidEager, Execute, AllAllowed, Finally, Undisturbed;
    StepOf(conv, e, ops, i);
    StepOf(conv, e, ops, j);
    var at := Finally(conv, e, ops[..i]);
    Writes(conv, at, n, place, d, writeOnly, data);
    assert Holds(Finally(conv, e, ops[..i + 1]), n, d, data);
    HoldsThrough(conv, e, ops, i + 1, j, n, d, data);
    Reads(conv, Finally(conv, e, ops[..j]), n, place', d');
  }

  /** The cells of `n` hold the constant, as a constant or as an element of the type there is. */
  ghost predicate HoldsConstant(conv: Convert, e: Eager, n: nat, c: Constant) {
    && ValidEager(e) && LiveNode(e, n) && Start(e.tree, n) + e.tree[n].size <= e.tree[0].size
    && match e.store
       case Constants(cells) => forall k :: Start(e.tree, n) <= k < Start(e.tree, n) + e.tree[n].size ==> cells[k] == c
       case Elements(_, t, vals) =>
         forall k :: Start(e.tree, n) <= k < Start(e.tree, n) + e.tree[n].size ==>
           vals[k] == if c.Zero? then 0.0 else conv(FLOAT, t, c.x)
  }

  lemma SetElsewhere(conv: Convert, e: Eager, op: Op, m: nat, c': Constant, n: nat, c: Constant)
    requires HoldsConstant(conv, e, n, c) && LiveNode(e, m) && m != 0 && Disjoint(e, m, n)
    requires op == if c'.Zero? then SetZero(m) else Fill(m, c'.x)
    ensures HoldsConstant(conv, Execute(conv, e, op).0, n, c)
  {
    ExecuteValid(conv, e, op);
    Sets(conv, e, m, c', op);
    hide Execute, Start, ValidEager, WellRooted;
  }

  lemma HoldsConstantStill(conv: Convert, e: Eager, op: Op, n: nat, c: Constant)
    requires Faithful(conv) && HoldsConstant(conv, e, n, c) && Allowed(conv, e, op) && LeavesAlone(conv, e, op, n)
    ensures HoldsConstant(conv, Execute(conv, e, op).0, n, c)
  {
    ExecuteValid(conv, e, op);
    var e' := Execute(conv, e, op).0;
    match op
    case Narrow(p, size, offset) =>
      Reshapes(conv, e, op);
      if Execute(conv, e, op).1 == Done {
        StartPrefix(e.tree, [Link(p, offset, size)], n);
      }
      hide Execute, Start, ValidEager, WellRooted;
    case Get(m, place, d) =>
      Reads(conv, e, m, place, d);
      hide Execute, Start, ValidEager, WellRooted;
    case CastAndWrite(m, place, d, w, more) =>
      Writes(conv, e, m, place, d, w, more);
      hide Execute, Start, ValidEager, WellRooted;
    case SetZero(m) => SetElsewhere(conv, e, op, m, Zero, n, c);
    case Fill(m, x) => SetElsewhere(conv, e, op, m, Number(x), n, c);
    case Destroy(_) =>
      Reshapes(conv, e, op);
      hide Execute, Start, ValidEager, WellRooted;
  }

  lemma {:induction false} HoldsConstantThrough(conv: Convert, e: Eager, ops: seq<Op>, i: nat, j: nat, n: nat, c: Constant)
    requires ValidEager(e) && Faithful(conv) && AllAllowed(conv, e, ops) && i <= j <= |ops|
    requires AllAllowed(conv, e, ops[..i]) && HoldsConstant(conv, Finally(conv, e, ops[..i]), n, c)
    requires forall m :: i <= m < j ==> AllAllowed(conv, e, ops[..m]) && Undisturbed(conv, Finally(conv, e, ops[..m]), ops[m], n)
    ensures AllAllowed(conv, e, ops[..j]) && HoldsConstant(conv, Finally(conv, e, ops[..j]), n, c)
    decreases j - i
  {
    hide HoldsConstant, ValidEager, Allowed, Execute, AllAllowed, Finally, LeavesAlone;
    if i < j {
      StepOf(conv, e, ops, i);
      assert Undisturbed(conv, Finally(conv, e, ops[..i]), ops[i], n);
      HoldsConstantStill(conv, Finally(conv, e, ops[..i]), ops[i], n, c);
      HoldsConstantThrough(conv, e, ops, i + 1, j, n, c);
    }
  }

  lemma SetHolds(conv: Convert, e: Eager, n: nat, c: Constant, op: Op)
    requires ValidEager(e) && LiveNode(e, n) && op == if c.Zero? then SetZero(n) else Fill(n, c.x)
    ensures HoldsConstant(conv, Execute(conv, e, op).0, n, c)
  {
    ExecuteValid(conv, e, op);
    Sets(conv, e, n, c, op);
    Inside(e, n);
    hide Execute, Start, WellRooted;
  }

  /** In every run: a zero or fill of a node that has not been overwritten since is read as that number.  A fill
      is a float until the vector gets a type; it is read as what it became then. */
  lemma LastFillIsRead(conv: Convert, e: Eager, ops: seq<Op>, i: nat, j: nat, n: nat, place: Place, d: DType)
    requires ValidEager(e) && Faithful(conv) && AllAllowed(conv, e, ops) && i < j < |ops|
    requires (ops[i] == SetZero(n) || (ops[i].Fill? && ops[i].node == n)) && ops[j] == Get(n, place, d)
    requires forall m :: i < m < j ==> AllAllowed(conv, e, ops[..m]) && Undisturbed(conv, Finally(conv, e, ops[..m]), ops[m], n)
    ensures AllAllowed(conv, e, ops[..j])
    ensures var r, before := Outcomes(conv, e, ops)[j], Finally(conv, e, ops[..j]).store;
            r.Values? && forall k :: 0 <= k < |r.vals| ==>
              (r.vals[k]
               == if before.Constants? then (if ops[i].SetZero? then 0.0 else conv(FLOAT, d, ops[i].x))
                  else conv(before.dtype, d, if ops[i].SetZero? then 0.0 else conv(FLOAT, before.dtype, ops[i].x)))
  {
    hide ValidEager, Execute, AllAllowed, Finally, Undisturbed;
    StepOf(conv, e, ops, i);
    StepOf(conv, e, ops, j);
    var c := if ops[i].SetZero? then Zero else Number(ops[i].x);
    SetHolds(conv, Finally(conv, e, ops[..i]), n, c, ops[i]);
    HoldsConstantThrough(conv, e, ops, i + 1, j, n, c);
    Reads(conv, Finally(conv, e, ops[..j]), n, place, d);
  }
}
