/** Any run of commands on variables, NdArrays and arrays: what each does, and what users hold in the end. */
module ReferenceRuns {
  import opened Arithmetic
  import opened ArrayCounts
  import opened CountSums
  import opened ReferenceCounts
  import opened Shapes
  import opened Wrappers

  import ViewTree

  /** What a program can do; a command whose objects do not exist does nothing. */
  datatype Command =
    | NewVariable(shape: seq<nat>)
    | NewNdArray(shape: seq<nat>)
    | UpdateVariable(v: nat, diff: int)
    | UpdateDirect(k: nat, diff: int)
    | SetData(v: nat, k: nat)
    | SetGrad(v: nat, k: nat)
    | SetArray(k: nat, a: nat)
    | Reshape(v: nat, shape: seq<nat>, force: bool)
    | NdReshape(k: nat, shape: seq<nat>, force: bool)
    | View(v: nat)
    | ViewShaped(v: nat, shape: seq<nat>)
    | NdView(k: nat, shape: seq<nat>)
    | Narrow(k: nat, dim: int, start: int, length: int)
    | DestroyVariable(v: nat)
    | DestroyNdArray(k: nat)
    | DestroyArray(a: nat)

  datatype State = State(variables: seq<Variable>, ndArrays: seq<NdArray>, arrays: seq<Node>, direct: seq<int>)

  ghost function StateOf(g: Registry): State
    reads g
  {
    State(g.variables, g.ndArrays, g.arrays, g.direct)
  }

  predicate LiveVariable(variables: seq<Variable>, v: nat) { v < |variables| && variables[v].alive }

  predicate LiveArray(arrays: seq<Node>, a: nat) { a < |arrays| && arrays[a].alive }

  /** The objects exist, and what is to be destroyed is held by nothing. */
  predicate Applicable(c: Command, variables: seq<Variable>, ndArrays: seq<NdArray>, arrays: seq<Node>) {
    match c
    case NewVariable(_) => true
    case NewNdArray(_) => true
    case UpdateVariable(v, _) => LiveVariable(variables, v)
    case UpdateDirect(k, _) => Held(ndArrays, k)
    case SetData(v, k) => LiveVariable(variables, v) && Held(ndArrays, k)
    case SetGrad(v, k) => LiveVariable(variables, v) && Held(ndArrays, k)
    case SetArray(k, a) => Held(ndArrays, k) && LiveArray(arrays, a)
    case Reshape(v, _, _) => LiveVariable(variables, v)
    case NdReshape(k, _, _) => Held(ndArrays, k)
    case View(v) => LiveVariable(variables, v)
    case ViewShaped(v, _) => LiveVariable(variables, v)
    case NdView(k, _) => Held(ndArrays, k)
    case Narrow(k, _, _, _) => Held(ndArrays, k) && |ndArrays[k].shape| > 0
    case DestroyVariable(v) => LiveVariable(variables, v)
    case DestroyNdArray(k) =>
      && Held(ndArrays, k)
      && forall v :: 0 <= v < |variables| && variables[v].alive ==> variables[v].data != k && variables[v].grad != k
    case DestroyArray(a) =>
      && LiveArray(arrays, a)
      && (forall k :: 0 <= k < |ndArrays| && ndArrays[k].alive ==> ndArrays[k].store != a)
      && (forall b :: 0 <= b < |arrays| && arrays[b].alive ==> arrays[b].parent != Some(a))
  }

  predicate Applies(c: Command, s: State) { Applicable(c, s.variables, s.ndArrays, s.arrays) }

  // ---- What users hold -------------------------------------------------------------------------

  function DirectDiff(c: Command, k: nat): int {
    match c
    case UpdateDirect(x, diff) => if x == k then diff else 0
    case _ => 0
  }

  function VariableDiff(c: Command, v: nat): int {
    match c
    case UpdateVariable(x, diff) => if x == v then diff else 0
    case _ => 0
  }

  function DirectOf(s: State, k: nat): int { if k < |s.direct| then s.direct[k] else 0 }

  function CountOf(s: State, v: nat): int { if v < |s.variables| then s.variables[v].count else 0 }

  /** Users hold what they held before, and what the command takes or drops; new objects are held by no one. */
  ghost predicate Booked(c: Command, s: State, s': State) {
    && |s.direct| <= |s'.direct| && |s.variables| <= |s'.variables|
    && (forall k: nat :: DirectOf(s', k) == DirectOf(s, k) + DirectDiff(c, k))
    && (forall v: nat :: CountOf(s', v) == CountOf(s, v) + VariableDiff(c, v))
  }

  // ---- What each command does ------------------------------------------------------------------

  /** Only counts of arrays change. */
  ghost predicate Recounted(s: State, s': State) { SameButCounts(s.arrays, s'.arrays) }

  /** One NdArray is added, on the array `store`. */
  ghost predicate Added(s: State, s': State, shape: seq<nat>, store: nat) {
    && s'.ndArrays == s.ndArrays + [OnArray(shape, store)]
    && s'.variables == s.variables && s'.direct == s.direct + [0]
  }

  /** The state that a command leaves behind. */
  ghost predicate Effect(c: Command, s: State, s': State) {
    match c
    case NewVariable(shape) =>
      && s'.variables == s.variables + [Variable(true, shape, |s.ndArrays|, |s.ndArrays| + 1, 0)]
      && s'.arrays == s.arrays + [Node(true, None, Product(shape), 0, 0), Node(true, None, Product(shape), 0, 0)]
      && s'.ndArrays == s.ndArrays + [OnArray(shape, |s.arrays|), OnArray(shape, |s.arrays| + 1)]
      && s'.direct == s.direct + [0, 0]
    case NewNdArray(shape) =>
      s'.arrays == s.arrays + [Node(true, None, Product(shape), 0, 0)] && Added(s, s', shape, |s.arrays|)
    case UpdateVariable(v, diff) =>
      && v < |s.variables| && s.variables[v].data < |s.ndArrays|
      && s'.variables == s.variables[v := s.variables[v].(count := s.variables[v].count + diff)]
      && s'.ndArrays == Counted(s.ndArrays, s.variables[v].data, diff) && Recounted(s, s') && s'.direct == s.direct
    case UpdateDirect(k, diff) =>
      && k < |s.ndArrays| && k < |s.direct|
      && s'.variables == s.variables && s'.direct == s.direct[k := s.direct[k] + diff]
      && s'.ndArrays == Counted(s.ndArrays, k, diff) && Recounted(s, s')
    case SetData(v, k) =>
      && v < |s.variables| && k < |s.ndArrays| && s.variables[v].data < |s.ndArrays|
      && Recounted(s, s') && s'.direct == s.direct
      && if s.ndArrays[k].shape == s.variables[v].shape then
           && s'.variables == s.variables[v := s.variables[v].(data := k)]
           && s'.ndArrays == Handed(s.ndArrays, s.variables[v].data, k, s.variables[v].count)
         else s'.variables == s.variables && s'.ndArrays == s.ndArrays
    case SetGrad(v, k) =>
      && v < |s.variables| && k < |s.ndArrays| && s'.ndArrays == s.ndArrays && s'.arrays == s.arrays && s'.direct == s.direct
      && s'.variables == if s.ndArrays[k].shape == s.variables[v].shape then s.variables[v := s.variables[v].(grad := k)]
                         else s.variables
    case SetArray(k, a) =>
      && k < |s.ndArrays| && a < |s.arrays| && Recounted(s, s') && s'.variables == s.variables && s'.direct == s.direct
      && s'.ndArrays == if s.ndArrays[k].size == s.arrays[a].size then s.ndArrays[k := s.ndArrays[k].(store := a)] else s.ndArrays
    case Reshape(v, shape, force) =>
      && v < |s.variables| && s'.direct == s.direct
      && s'.variables == s.variables[v := s.variables[v].(
           shape := if Product(s.variables[v].shape) == Product(shape) || force then shape else s.variables[v].shape)]
      && Reached(s.variables[v], s.ndArrays, s.arrays, s'.ndArrays, s'.arrays, shape, force)
    case NdReshape(k, shape, force) =>
      && k < |s.ndArrays| && s'.variables == s.variables && s'.direct == s.direct
      && NdReshaped(s.ndArrays, s.arrays, s'.ndArrays, s'.arrays, k, shape, Reshapes(s.ndArrays, s.arrays, k, shape, force))
    case View(v) =>
      && v < |s.variables| && s'.direct == s.direct + [0, 0]
      && s'.variables == s.variables + [Viewed(s.variables[v], s.ndArrays)]
      && NewRoots(s.arrays, s'.arrays, [Product(s.variables[v].shape), Product(s.variables[v].shape)])
      && s'.ndArrays == s.ndArrays + [OnArray(s.variables[v].shape, |s.arrays|), OnArray(s.variables[v].shape, |s.arrays| + 1)]
    case ViewShaped(v, shape) =>
      && v < |s.variables|
      && if Product(shape) != Product(s.variables[v].shape) then s' == s
         else
           && s'.variables == s.variables + [ViewedAs(s.variables[v], s.ndArrays, shape)]
           && s'.ndArrays == ViewedIn(s.variables[v], s.ndArrays, |s.arrays|, shape)
           && NewRoots(s.arrays, s'.arrays, [Product(shape), Product(shape)])
           && s'.direct == s.direct + Zeros(|s'.ndArrays| - |s.ndArrays|)
    case NdView(k, shape) =>
      && k < |s.ndArrays| && s'.arrays == s.arrays
      && if s.ndArrays[k].size == Product(shape) then Added(s, s', shape, s.ndArrays[k].store) else s' == s
    case Narrow(k, dim, start, length) =>
      && k < |s.ndArrays| && |s.ndArrays[k].shape| > 0
      && if Narrows(s, k, dim, start, length) then
           && Added(s, s', NarrowedShape(s.ndArrays[k].shape, length), |s.arrays|)
           && s'.arrays == s.arrays + [Node(true, Some(s.ndArrays[k].store), Product(NarrowedShape(s.ndArrays[k].shape, length)),
                                            NarrowedOffset(s.ndArrays[k].shape, start), 0)]
         else s' == s
    case DestroyVariable(v) =>
      && v < |s.variables| && s.variables[v].data < |s.ndArrays| && Recounted(s, s') && s'.direct == s.direct
      && s'.variables == s.variables[v := s.variables[v].(alive := false)]
      && s'.ndArrays == Counted(s.ndArrays, s.variables[v].data, -s.variables[v].count)
    case DestroyNdArray(k) =>
      && k < |s.ndArrays| && Recounted(s, s') && s'.direct == s.direct && s'.variables == s.variables
      && s'.ndArrays == s.ndArrays[k := s.ndArrays[k].(alive := false)]
    case DestroyArray(a) =>
      && a < |s.arrays| && s' == s.(arrays := s.arrays[a := s.arrays[a].(alive := false)])
  }

  /** The rows exist and lie clear of the parts cut out before. */
  ghost predicate Narrows(s: State, k: nat, dim: int, start: int, length: int)
    requires k < |s.ndArrays| && |s.ndArrays[k].shape| > 0
  {
    && dim == 0 && 0 <= start && 0 <= length && start + length <= s.ndArrays[k].shape[0]
    && !exists a :: 0 <= a < |s.arrays|
         && ChildOverlaps(s.arrays[a], s.ndArrays[k].store, NarrowedOffset(s.ndArrays[k].shape, start),
                          Product(NarrowedShape(s.ndArrays[k].shape, length)))
  }

  lemma NothingHeld(x: Variable, ndArrays: seq<NdArray>, arrays: nat, shape: seq<nat>)
    ensures Viewed(x, ndArrays).count == 0 && ViewedAs(x, ndArrays, shape).count == 0
    ensures |ViewedIn(x, ndArrays, arrays, shape)| >= |ndArrays|
  {
    hide Product, Strides;
  }

  lemma EffectBooked(c: Command, s: State, s': State)
    requires Effect(c, s, s')
    ensures Booked(c, s, s')
  {
    hide Product, Strides, NarrowedShape, NarrowedOffset, SameButCounts, Counted, Handed, Reached, Takes, Reshapes, HasSize, HasShape,
         Viewed, ViewedAs, ViewedIn, NdReshaped, NewRoots, Narrows, MayReshape;
    match c {
      case View(v) => NothingHeld(s.variables[v], s.ndArrays, |s.arrays|, []);
      case ViewShaped(v, shape) => NothingHeld(s.variables[v], s.ndArrays, |s.arrays|, shape);
      case _ =>
    }
  }

  lemma DirectLength(g: Registry)
    requires g.Valid()
    ensures |g.direct| == |g.ndArrays|
  {
  }

  lemma ReshapesIfCan(g: Registry, k: nat, shape: seq<nat>, force: bool)
    requires g.Valid() && Held(g.ndArrays, k)
    ensures k < |g.ndArrays| && g.ndArrays[k].store < |g.arrays|
    ensures Reshapes(g.ndArrays, g.arrays, k, shape, force) <==> CanReshape(g.ndArrays, g.arrays, k, shape, force)
  {
    hide Balanced, Placed, CanReshape, CountsUsers;
  }

  /** Users take and drop references. */
  method Count(g: Registry, c: Command)
    requires g.Valid() && Applicable(c, g.variables, g.ndArrays, g.arrays)
    requires c.UpdateVariable? || c.UpdateDirect?
    modifies g
    ensures g.Valid() && Effect(c, old(StateOf(g)), StateOf(g))
  {
    hide Lower, Upper, AllShaped, SameButCounts, SameButNdCounts, MayReshape, CanReshape, Product, Strides, ViewTree.RangesClash,
         Registry.Valid, HasSize, Viewed, ViewedAs, ViewedIn, NdReshaped, NewRoots, Takes, Booked, Counted, Handed, Reached, HasShape;
    ValidParts(g);
    match c {
      case UpdateVariable(v, diff) => g.UpdateVariable(v, diff);
      case UpdateDirect(k, diff) =>
        DirectLength(g);
        g.UpdateDirect(k, diff);
    }
  }

  /** Objects are put on others. */
  method Rehang(g: Registry, c: Command)
    requires g.Valid() && Applicable(c, g.variables, g.ndArrays, g.arrays)
    requires c.SetData? || c.SetGrad? || c.SetArray?
    modifies g
    ensures g.Valid() && Effect(c, old(StateOf(g)), StateOf(g))
  {
    hide Lower, Upper, AllShaped, SameButCounts, SameButNdCounts, MayReshape, CanReshape, Product, Strides, ViewTree.RangesClash,
         Registry.Valid, HasSize, Viewed, ViewedAs, ViewedIn, NdReshaped, NewRoots, Takes, Booked, Counted, Handed, Reached, HasShape;
    ValidParts(g);
    match c {
      case SetData(v, k) => var _ := g.SetData(v, k);
      case SetGrad(v, k) => var _ := g.SetGrad(v, k);
      case SetArray(k, a) => var _ := g.SetArray(k, a);
    }
  }

  /** New objects. */
  method Make(g: Registry, c: Command)
    requires g.Valid() && Applicable(c, g.variables, g.ndArrays, g.arrays)
    requires c.NewVariable? || c.NewNdArray? || c.NdView? || c.Narrow?
    modifies g
    ensures g.Valid() && Effect(c, old(StateOf(g)), StateOf(g))
  {
    hide Lower, Upper, AllShaped, SameButCounts, SameButNdCounts, MayReshape, CanReshape, Product, Strides, ViewTree.RangesClash,
         Registry.Valid, HasSize, Viewed, ViewedAs, ViewedIn, NdReshaped, NewRoots, Takes, Booked, Counted, Handed, Reached, HasShape;
    ValidParts(g);
    match c {
      case NewVariable(shape) => var _ := g.NewVariable(shape);
      case NewNdArray(shape) => var _ := g.NewNdArray(shape);
      case NdView(k, shape) => var _ := g.NdView(k, shape);
      case Narrow(k, dim, start, length) => var _ := g.Narrow(k, dim, start, length);
    }
  }

  /** New variables on what others hold. */
  method MakeView(g: Registry, c: Command)
    requires g.Valid() && Applicable(c, g.variables, g.ndArrays, g.arrays)
    requires c.View? || c.ViewShaped?
    modifies g
    ensures g.Valid() && Effect(c, old(StateOf(g)), StateOf(g))
  {
    hide Lower, Upper, AllShaped, SameButCounts, SameButNdCounts, MayReshape, CanReshape, Product, Strides, ViewTree.RangesClash,
         Registry.Valid, HasSize, Viewed, ViewedAs, ViewedIn, NdReshaped, NewRoots, Takes, Booked, Counted, Handed, Reached, HasShape;
    ValidParts(g);
    match c {
      case View(v) => var _ := g.View(v);
      case ViewShaped(v, shape) => var _ := g.ViewShaped(v, shape);
    }
  }

  /** New shapes. */
  method Shape(g: Registry, c: Command)
    requires g.Valid() && Applicable(c, g.variables, g.ndArrays, g.arrays)
    requires c.Reshape? || c.NdReshape?
    modifies g
    ensures g.Valid() && Effect(c, old(StateOf(g)), StateOf(g))
  {
    hide Lower, Upper, AllShaped, SameButCounts, SameButNdCounts, MayReshape, CanReshape, Product, Strides, ViewTree.RangesClash,
         Registry.Valid, HasSize, Viewed, ViewedAs, ViewedIn, NdReshaped, NewRoots, Takes, Booked, Counted, Handed, Reached, HasShape;
    ValidParts(g);
    match c {
      case Reshape(v, shape, force) => var _ := g.Reshape(v, shape, force);
      case NdReshape(k, shape, force) =>
        ReshapesIfCan(g, k, shape, force);
        var _ := g.NdReshape(k, shape, force);
    }
  }

  /** Objects go. */
  method Destroy(g: Registry, c: Command)
    requires g.Valid() && Applicable(c, g.variables, g.ndArrays, g.arrays)
    requires c.DestroyVariable? || c.DestroyNdArray? || c.DestroyArray?
    modifies g
    ensures g.Valid() && Effect(c, old(StateOf(g)), StateOf(g))
  {
    hide Lower, Upper, AllShaped, SameButCounts, SameButNdCounts, MayReshape, CanReshape, Product, Strides, ViewTree.RangesClash,
         Registry.Valid, HasSize, Viewed, ViewedAs, ViewedIn, NdReshaped, NewRoots, Takes, Booked, Counted, Handed, Reached, HasShape;
    ValidParts(g);
    match c {
      case DestroyVariable(v) => g.DestroyVariable(v);
      case DestroyNdArray(k) => g.DestroyNdArray(k);
      case DestroyArray(a) => g.DestroyArray(a);
    }
  }

  method Perform(g: Registry, c: Command)
    requires g.Valid() && Applicable(c, g.variables, g.ndArrays, g.arrays)
    modifies g
    ensures g.Valid() && Effect(c, old(StateOf(g)), StateOf(g)) && Booked(c, old(StateOf(g)), StateOf(g))
  {
    hide Effect, Booked, Applicable, Registry.Valid;
    if c.UpdateVariable? || c.UpdateDirect? {
      Count(g, c);
    } else if c.SetData? || c.SetGrad? || c.SetArray? {
      Rehang(g, c);
    } else if c.NewVariable? || c.NewNdArray? || c.NdView? || c.Narrow? {
      Make(g, c);
    } else if c.View? || c.ViewShaped? {
      MakeView(g, c);
    } else if c.Reshape? || c.NdReshape? {
      Shape(g, c);
    } else {
      Destroy(g, c);
    }
    EffectBooked(c, old(StateOf(g)), StateOf(g));
  }

  // ---- Any run ---------------------------------------------------------------------------------

  const NOTHING := State([], [], [], [])

  /** One command: nothing happens if its objects do not exist. */
  ghost predicate Happens(c: Command, s: State, s': State) {
    if Applies(c, s) then Effect(c, s, s') && Booked(c, s, s') else s' == s
  }

  /** The states that the commands lead through, from the empty registry on. */
  ghost predicate History(commands: seq<Command>, states: seq<State>) {
    && |states| == |commands| + 1 && states[0] == NOTHING
    && forall i :: 0 <= i < |commands| ==> Happens(commands[i], states[i], states[i + 1])
  }

  /** What users have taken of NdArray `k` itself, less what they have dropped. */
  ghost function TakenDirectly(commands: seq<Command>, states: seq<State>, k: nat, m: nat): int
    requires m <= |commands| < |states|
  {
    if m == 0 then 0
    else
      TakenDirectly(commands, states, k, m - 1)
      + (if Applies(commands[m - 1], states[m - 1]) then DirectDiff(commands[m - 1], k) else 0)
  }

  /** What users have taken of variable `v`, less what they have dropped. */
  ghost function Taken(commands: seq<Command>, states: seq<State>, v: nat, m: nat): int
    requires m <= |commands| < |states|
  {
    if m == 0 then 0
    else
      Taken(commands, states, v, m - 1)
      + (if Applies(commands[m - 1], states[m - 1]) then VariableDiff(commands[m - 1], v) else 0)
  }

  /** Whatever else happened, the registry knows what users took and dropped. */
  lemma {:induction false} HistoryBooked(commands: seq<Command>, states: seq<State>, x: nat, m: nat)
    requires History(commands, states) && m <= |commands|
    ensures DirectOf(states[m], x) == TakenDirectly(commands, states, x, m)
    ensures CountOf(states[m], x) == Taken(commands, states, x, m)
  {
    hide Applicable, Effect;
    if m > 0 {
      HistoryBooked(commands, states, x, m - 1);
      assert Happens(commands[m - 1], states[m - 1], states[m - 1 + 1]);
    }
  }

  /** After any run of commands, asking any array gives the number of references users hold, directly or
      through variables, to the NdArrays anywhere in its family; and what they hold is what they took. */
  method Run(commands: seq<Command>, a: nat) returns (g: Registry, ghost states: seq<State>, count: int)
    ensures g.Valid() && History(commands, states) && StateOf(g) == states[|commands|]
    ensures forall k :: 0 <= k < |g.direct| ==> g.direct[k] == TakenDirectly(commands, states, k, |commands|)
    ensures forall v :: 0 <= v < |g.variables| ==> g.variables[v].count == Taken(commands, states, v, |commands|)
    ensures a < |g.arrays| && g.arrays[a].alive ==>
              var users := NdArraysOf(g.ndArrays, Family(g.arrays, RootOf(g.arrays, a)));
              count == DirectUsers(g.direct, users, |users|) + Into(users, DataEdges(g.variables))
  {
    hide Lower, Upper, AllShaped, Applicable, Effect, Booked, TakenDirectly, Taken;
    g := new Registry();
    states := [NOTHING];
    for i := 0 to |commands|
      invariant g.Valid() && fresh(g)
      invariant History(commands[..i], states) && StateOf(g) == states[i]
    {
      if Applicable(commands[i], g.variables, g.ndArrays, g.arrays) {
        Perform(g, commands[i]);
      }
      Longer(commands, states, i, StateOf(g));
      states := states + [StateOf(g)];
    }
    assert commands[..|commands|] == commands;
    forall k: nat ensures DirectOf(states[|commands|], k) == TakenDirectly(commands, states, k, |commands|) {
      HistoryBooked(commands, states, k, |commands|);
    }
    forall v: nat ensures CountOf(states[|commands|], v) == Taken(commands, states, v, |commands|) {
      HistoryBooked(commands, states, v, |commands|);
    }
    count := 0;
    if a < |g.arrays| && g.arrays[a].alive {
      count := g.GetCount(a);
    }
  }

  lemma Longer(commands: seq<Command>, states: seq<State>, i: nat, s: State)
    requires i < |commands| && History(commands[..i], states) && Happens(commands[i], states[i], s)
    ensures History(commands[..i + 1], states + [s])
  {
    hide Happens;
    assert commands[..i + 1] == commands[..i] + [commands[i]];
    assert forall j :: 0 <= j < i ==> commands[..i + 1][j] == commands[..i][j];
  }

  // ---- A reshape that gives up halfway ---------------------------------------------------------

  /** A variable of two elements, and a narrowed NdArray of two of four; `last` puts it under the variable. */
  function Narrowing(last: Command): seq<Command> {
    [NewVariable([2]), NewNdArray([4]), Narrow(2, 0, 0, 2), last, Reshape(0, [3], true)]
  }

  lemma Products()
    ensures Product([2]) == 2 && Product([3]) == 3 && Product([4]) == 4
    ensures NarrowedShape([4], 2) == [2]
  {
    assert forall n: nat :: [n][1..] == [];
    assert [4][0 := 2] == [2];
  }

  /** The states up to the narrowing. */
  lemma Narrowed(last: Command, states: seq<State>)
    requires History(Narrowing(last), states)
    ensures var s := states[3];
            && s.variables == [Variable(true, [2], 0, 1, 0)] && |s.ndArrays| == 4 && |s.arrays| == 4
            && s.ndArrays[0] == NdArray(true, [2], 2, Strides([2]), 0, 0)
            && s.ndArrays[1] == NdArray(true, [2], 2, Strides([2]), 1, 0)
            && s.ndArrays[3] == NdArray(true, [2], 2, Strides([2]), 3, 0)
            && s.arrays[0].parent == None && s.arrays[1].parent == None && s.arrays[3].parent == Some(2)
  {
    hide Product, Strides, NarrowedShape, NarrowedOffset, Booked, ViewTree.RangesClash;
    Products();
    var c := Narrowing(last);
    assert Happens(c[0], states[0], states[0 + 1]);
    assert Happens(c[1], states[1], states[1 + 1]);
    assert Happens(c[2], states[2], states[2 + 1]);
    assert Narrows(states[2], 2, 0, 0, 2);
  }

  /** The data is a narrowed NdArray: asked for another size, the variable says no, but has the new shape
      while its data and gradient have the old one. */
  lemma DataRefuses(states: seq<State>)
    requires History(Narrowing(SetData(0, 3)), states)
    ensures var s := states[5];
            && |s.variables| == 1 && s.variables[0].shape == [3] && s.variables[0].data == 3 && s.variables[0].grad == 1
            && HasShape(s.ndArrays, 3, [2]) && HasShape(s.ndArrays, 1, [2])
            && !MayReshape(states[4].variables[0], states[4].ndArrays, states[4].arrays, [3], true)
  {
    hide Strides, Booked, Mul, Product;
    Narrowed(SetData(0, 3), states);
    Products();
    assert [2][0] != [3][0];
    var c := Narrowing(SetData(0, 3));
    assert Happens(c[3], states[3], states[3 + 1]);
    assert Happens(c[4], states[4], states[4 + 1]);
  }

  /** The gradient is a narrowed NdArray: the variable says no when its data has been reshaped already. */
  lemma GradRefuses(states: seq<State>)
    requires History(Narrowing(SetGrad(0, 3)), states)
    ensures var s := states[5];
            && |s.variables| == 1 && s.variables[0].shape == [3] && s.variables[0].data == 0 && s.variables[0].grad == 3
            && HasShape(s.ndArrays, 0, [3]) && HasShape(s.ndArrays, 3, [2])
            && !MayReshape(states[4].variables[0], states[4].ndArrays, states[4].arrays, [3], true)
  {
    hide Strides, Booked, Mul, Product;
    Narrowed(SetGrad(0, 3), states);
    Products();
    assert [2][0] != [3][0];
    var c := Narrowing(SetGrad(0, 3));
    assert Happens(c[3], states[3], states[3 + 1]);
    assert Happens(c[4], states[4], states[4 + 1]);
  }
}
