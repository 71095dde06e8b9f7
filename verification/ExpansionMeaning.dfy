/** What the expanded and sorted network computes, in terms of the network with loops. */
module ExpansionMeaning {
  import opened Network
  import opened Unroll
  import opened Placement
  import opened LoopMeaning
  import opened LoopValues
  import opened WellFormedness
  import opened Dag
  import opened FlatRun

  ghost predicate Loops(net: Net) { DistinctIds(net.repeats) && EveryLoopRuns(net) }

  /** What an assignment of the fully expanded network says about all loops. */
  ghost function FoldAll(net: Net, a: Assignment): Assignment
    requires Loops(net)
    decreases |net.repeats|
  {
    if net.repeats == [] then a else Fold(net, FoldAll(ExpandStep(net), a))
  }

  /** The name under which `x` is found, at `idx`, when every loop has been expanded. */
  ghost function FlatName(net: Net, x: string, idx: Index): string
    requires Loops(net) && InRange(ScopesOf(net), idx)
    decreases |net.repeats|
  {
    if net.repeats == [] then x
    else
      LoopsShrink(net);
      var y := Inst(net, net.repeats[0], x, idx[net.repeats[0].id]);
      FlatName(ExpandStep(net), y, Pin(ScopesOf(ExpandStep(net)), y, idx - {net.repeats[0].id}))
  }

  /** The name under which the value that `x` has in iteration `idx` is found. */
  ghost function InstanceName(net: Net, x: string, idx: Index): string
    requires Loops(net) && InRange(ScopesOf(net), idx)
  {
    PinInRange(ScopesOf(net), x, idx);
    FlatName(net, x, Pin(ScopesOf(net), x, idx))
  }

  lemma PinInRange(g: Scopes, x: string, idx: Index)
    requires InRange(g, idx)
    ensures InRange(g, Pin(g, x, idx))
  {
  }

  /** All that is known of a well-formed network with loops left. */
  lemma OneStep(net: Net)
    requires WellFormed(net)
    ensures Loops(net)
    ensures |net.repeats| > 0 ==> Expandable(net) && HasLoop(net)
    ensures |net.repeats| > 0 ==> WellFormed(ExpandStep(net)) && Loops(ExpandStep(net))
    ensures |net.repeats| > 0 ==> |ExpandStep(net).repeats| < |net.repeats|
  {
    if |net.repeats| > 0 {
      FirstExpandable(net);
      StepWellFormed(net);
      hide Expandable, WellFormed;
    }
  }

  /** Expansion preserves meaning: an assignment solves the expanded network if and only if what it
      says about the loops solves the network with loops. */
  lemma {:induction false} ExpansionPreservesMeaning(net: Net, layers: Layers, a: Assignment)
    requires WellFormed(net)
    ensures Loops(net) && (Solves(ExpandAll(net), layers, a) <==> Solves(net, layers, FoldAll(net, a)))
    decreases |net.repeats|
  {
    hide WellFormed, Expandable, ExpandStep, Solves;
    OneStep(net);
    if net.repeats != [] {
      ExpansionPreservesMeaning(ExpandStep(net), layers, a);
      StepMeaning(net, layers, FoldAll(ExpandStep(net), a));
    }
  }

  lemma {:induction false} ExpandedWellFormed(net: Net)
    requires WellFormed(net)
    ensures Loops(net) && WellFormed(ExpandAll(net)) && ExpandAll(net).repeats == []
    decreases |net.repeats|
  {
    hide WellFormed, Expandable, ExpandStep;
    OneStep(net);
    if net.repeats != [] {
      ExpandedWellFormed(ExpandStep(net));
    }
  }

  /** An environment, read the same way in every (that is, the only) iteration. */
  ghost function Lift(env: Env): Assignment {
    (x: string, idx: Index) => env(x)
  }

  /** The values outside all loops. */
  ghost function Ground(a: Assignment): Env {
    (x: string) => a(x, map[])
  }

  /** Iteration `idx` of `x` is the value of the instance that carries its flat name. */
  lemma {:induction false} FoldReadsInstances(net: Net, a: Assignment, x: string, idx: Index)
    requires Loops(net) && InRange(ScopesOf(net), idx)
    ensures FoldAll(net, a)(x, idx) == Ground(a)(FlatName(net, x, idx))
    decreases |net.repeats|
  {
    if net.repeats == [] {
      assert idx == map[];
    } else {
      hide Inst, IdsOf, LoopsOf, ExpandVariables, ExpandFunctions;
      LoopsShrink(net);
      var r, g' := net.repeats[0], ScopesOf(ExpandStep(net));
      var y := Inst(net, r, x, idx[r.id]);
      FoldReadsInstances(ExpandStep(net), a, y, Pin(g', y, idx - {r.id}));
    }
  }

  /** A network without loops asks each layer once. */
  lemma FlatMeaning(net: Net, layers: Layers, env: Env)
    requires net.repeats == []
    ensures Solves(net, layers, Lift(env)) <==> forall f :: f in net.funcs ==> WellShaped(f) && Met(layers, env, f)
  {
    var g := ScopesOf(net);
    forall f | f in net.funcs && WellShaped(f) ensures Holds(g, layers, Lift(env), f) <==> Met(layers, env, f) {
      FlatFunction(g, layers, env, f);
    }
  }

  lemma FlatFunction(g: Scopes, layers: Layers, env: Env, f: Function)
    requires g.loops == map[] && WellShaped(f)
    ensures Holds(g, layers, Lift(env), f) <==> Met(layers, env, f)
  {
    var idx: Index := map[];
    assert Active(g, f, idx);
    assert forall i :: Active(g, f, i) ==> i == idx;
    assert ReadAll(g, Lift(env), f.inputs, idx) == Inputs(env, f);
  }

  lemma {:induction false} AllLoopsGone(net: Net)
    requires EveryLoopRuns(net)
    ensures ExpandAll(net).repeats == []
    decreases |net.repeats|
  {
    if net.repeats != [] {
      AllLoopsGone(ExpandStep(net));
    }
  }

  // ---- Schedules -------------------------------------------------------------------------------

  /** `s` is the expanded network's functions, each once, in an order in which each runs after what it reads. */
  ghost predicate Schedule(net: Net, s: seq<Function>)
    requires Loops(net)
  {
    && Ordered(s) && NoRepeats(s)
    && forall f :: f in s <==> f in ExpandAll(net).funcs
  }

  /** In a schedule every layer is in shape and no variable is written twice. */
  lemma ScheduleAssignsOnce(net: Net, s: seq<Function>)
    requires WellFormed(net) && Loops(net) && Schedule(net, s)
    ensures SingleAssignment(s) && forall f :: f in s ==> WellShaped(f)
  {
    hide ExpandAll, Placed;
    ExpandedWellFormed(net);
    forall f | f in s ensures WellShaped(f) && Distinct(f.outputs) {
      PlacedShape(ExpandAll(net), f);
    }
    forall i, j, o | 0 <= i < |s| && 0 <= j < |s| && o in s[i].outputs && o in s[j].outputs ensures i == j {
      assert s[i] in s && s[j] in s && s[i] == s[j];
    }
    forall i, h, k | 0 <= i < |s| && 0 <= h < k < |s[i].outputs| ensures s[i].outputs[h] != s[i].outputs[k] {
      assert s[i] in s;
    }
  }

  /** One pass over the sorted, expanded network computes a solution of the network with loops:
      the instance named by `FlatName` holds the value of its original in that iteration. */
  lemma RunningSolvesTheLoops(net: Net, layers: Layers, s: seq<Function>, givens: Env)
    requires WellFormed(net) && Loops(net) && Schedule(net, s)
    ensures var env := Run(layers, s, givens);
            && Solves(net, layers, FoldAll(net, Lift(env)))
            && (forall x, idx :: InRange(ScopesOf(net), idx) ==> FoldAll(net, Lift(env))(x, idx) == env(FlatName(net, x, idx)))
            && (forall x :: !Writes(s, 0, x) ==> env(x) == givens(x))
  {
    hide Solves, ExpandStep, WellFormed, InRange, ExpandAll;
    ExpandedWellFormed(net);
    ScheduleAssignsOnce(net, s);
    var env := Run(layers, s, givens);
    RunMeets(layers, s, givens);
    FlatMeaning(ExpandAll(net), layers, env);
    ExpansionPreservesMeaning(net, layers, Lift(env));
    forall x, idx | InRange(ScopesOf(net), idx) ensures FoldAll(net, Lift(env))(x, idx) == env(FlatName(net, x, idx)) {
      FoldReadsInstances(net, Lift(env), x, idx);
    }
    forall x | !Writes(s, 0, x) ensures env(x) == givens(x) {
      RunKeeps(layers, s, givens, x);
    }
  }

  /** No other environment with the same givens says anything true about the loops. */
  lemma NothingElseSolvesTheLoops(net: Net, layers: Layers, s: seq<Function>, givens: Env, other: Env)
    requires WellFormed(net) && Loops(net) && Schedule(net, s)
    requires forall x :: !Writes(s, 0, x) ==> other(x) == givens(x)
    requires Solves(net, layers, FoldAll(net, Lift(other)))
    ensures forall x :: other(x) == Run(layers, s, givens)(x)
  {
    hide Solves, ExpandStep, WellFormed, ExpandAll;
    ExpandedWellFormed(net);
    ScheduleAssignsOnce(net, s);
    ExpansionPreservesMeaning(net, layers, Lift(other));
    FlatMeaning(ExpandAll(net), layers, other);
    forall x ensures other(x) == Run(layers, s, givens)(x) {
      assert s[..|s|] == s && !Writes(s, |s|, x);
      RunUnique(layers, s, givens, other, |s|, x);
    }
  }

  // ---- The other direction ---------------------------------------------------------------------

  /** The assignment of the fully expanded network that gives every instance its original's value. */
  ghost function UnfoldAll(net: Net, b: Assignment): Assignment
    requires Loops(net)
    decreases |net.repeats|
  {
    if net.repeats == [] then b else UnfoldAll(ExpandStep(net), Unfold(net, b))
  }

  /** Every solution of the network with loops is one of the expanded network, seen through the loops. */
  lemma {:induction false} UnfoldAllSolves(net: Net, layers: Layers, b: Assignment)
    requires WellFormed(net) && Solves(net, layers, b)
    ensures Loops(net) && Solves(ExpandAll(net), layers, UnfoldAll(net, b))
    ensures AgreesAll(net, FoldAll(net, UnfoldAll(net, b)), b)
    decreases |net.repeats|
  {
    hide Solves, ExpandStep, Expandable, AgreesAll, Unfold, Fold, WellFormed;
    OneStep(net);
    if net.repeats == [] {
      AgreesSelf(net, b);
    } else {
      var b' := Unfold(net, b);
      var x := FoldAll(ExpandStep(net), UnfoldAll(ExpandStep(net), b'));
      UnfoldSolves(net, layers, b);
      UnfoldAllSolves(ExpandStep(net), layers, b');
      FoldAgrees(net, x, b');
      UnfoldThenFold(net, layers, b);
      AgreesThrough(net, Fold(net, x), Fold(net, b'), b);
    }
  }

  lemma AgreesSelf(net: Net, b: Assignment)
    ensures AgreesAll(net, b, b)
  {
  }

  /** Without loops, an assignment is its ground values. */
  lemma GroundMeaning(net: Net, layers: Layers, a: Assignment)
    requires net.repeats == [] && Solves(net, layers, a)
    ensures Solves(net, layers, Lift(Ground(a)))
  {
    var g, e := ScopesOf(net), Lift(Ground(a));
    forall f, idx | f in net.funcs && Active(g, f, idx) ensures Equation(g, layers, e, f, idx) {
      assert idx == map[];
      forall x, i | (x in f.inputs || x in f.outputs) && InRange(g, i) ensures Read(g, e, x, i) == Read(g, a, x, i) {
        assert i == map[] && Pin(g, x, i) == map[];
      }
      SameDemand(g, layers, e, a, f, idx);
    }
  }

  lemma AgreedValue(net: Net, a: Assignment, b: Assignment, x: string, idx: Index)
    requires Loops(net) && InRange(ScopesOf(net), idx)
    requires DeclaredName(net, x) && AgreesAll(net, FoldAll(net, a), b)
    ensures Read(ScopesOf(net), b, x, idx) == Ground(a)(InstanceName(net, x, idx))
  {
    hide FlatName, FoldAll, LoopsOf, IdsOf;
    assert Agrees(net, FoldAll(net, a), b, x);
    PinInRange(ScopesOf(net), x, idx);
    FoldReadsInstances(net, a, x, Pin(ScopesOf(net), x, idx));
  }

  /** Some layer reads or writes `x`. */
  ghost predicate Used(funcs: seq<Function>, x: string) {
    exists f :: f in funcs && (x in f.inputs || x in f.outputs)
  }

  /** Every name that the expanded layers use is an instance of a name that the layers use. */
  lemma UsedInstance(net: Net, y: string) returns (x: string, i: int)
    requires Expandable(net) && net.repeats[0].times >= 1 && Used(ExpandStep(net).funcs, y)
    ensures Used(net.funcs, x) && DeclaredName(net, x) && 0 <= i < net.repeats[0].times && Inst(net, net.repeats[0], x, i) == y
  {
    hide Expandable, Placed, ExpandStep, Inst, DeclaredName, Replacement, Plain;
    StepLoops(net);
    Parts(net);
    var f' :| f' in ExpandStep(net).funcs && (y in f'.inputs || y in f'.outputs);
    var f, h := Replaced(net, f');
    PlacedShape(net, f);
    if y in f'.outputs {
      var k :| 0 <= k < |f'.outputs| && f'.outputs[k] == y;
      x, i := ReplacementOutput(net, f, h, k);
    } else {
      var k :| 0 <= k < |f'.inputs| && f'.inputs[k] == y;
      x, i := ReplacementInput(net, f, h, k);
    }
  }

  lemma ReplacementInput(net: Net, f: Function, h: int, k: nat) returns (x: string, i: int)
    requires Expandable(net) && f in net.funcs && !Removed(net.repeats[0], f) && 0 <= h < net.repeats[0].times
    requires k < |Replacement(net, net.repeats[0], f, h).inputs|
    ensures x in f.inputs && 0 <= i < net.repeats[0].times
    ensures Replacement(net, net.repeats[0], f, h).inputs[k] == Inst(net, net.repeats[0], x, i)
  {
    hide Expandable, Placed, Inst, DeclaredName, Plain, Direct, Fits, PlacedMarker, Finds;
    Parts(net);
    var r := net.repeats[0];
    ReplacementCases(net, f, h);
    if IsMarkerOf(f, r.id) && f.kind == "RecurrentInput" {
      SplitNames(net, f);
      x, i := f.inputs[k], 0;
    } else if IsMarkerOf(f, r.id) {
      StackNames(net, f);
      x, i := f.inputs[0], k;
    } else {
      i := ReplacementCopy(net, f, h);
      x := f.inputs[k];
    }
  }

  /** Every name that the fully expanded layers use is the name of some variable in some iteration. */
  lemma {:induction false} UsedOriginal(net: Net, y: string) returns (x: string, idx: Index)
    requires WellFormed(net) && Loops(net) && Used(ExpandAll(net).funcs, y)
    ensures Used(net.funcs, x) && DeclaredName(net, x) && InRange(ScopesOf(net), idx) && InstanceName(net, x, idx) == y
    decreases |net.repeats|
  {
    hide WellFormed, Expandable, ExpandStep, DeclaredName, Used, Inst;
    OneStep(net);
    if net.repeats == [] {
      x, idx := y, map[];
      UsedDeclared(net, y);
    } else {
      var x', idx' := UsedOriginal(ExpandStep(net), y);
      var i;
      x, i := UsedInstance(net, x');
      idx := idx'[net.repeats[0].id := i];
      NameThroughLoop(net, x, i, idx');
    }
  }

  lemma UsedDeclared(net: Net, x: string)
    requires WellFormed(net) && Used(net.funcs, x)
    ensures DeclaredName(net, x)
  {
    hide Placed;
    var f :| f in net.funcs && (x in f.inputs || x in f.outputs);
    PlacedShape(net, f);
  }

  /** The name of `x` in an iteration is the name of its instance outside the loop. */
  lemma NameThroughLoop(net: Net, x: string, i: int, idx': Index)
    requires Expandable(net) && Loops(net) && Loops(ExpandStep(net)) && DeclaredName(net, x)
    requires 0 <= i < net.repeats[0].times && InRange(ScopesOf(ExpandStep(net)), idx')
    ensures var r := net.repeats[0];
            && InRange(ScopesOf(net), idx'[r.id := i])
            && InstanceName(net, x, idx'[r.id := i]) == InstanceName(ExpandStep(net), Inst(net, r, x, i), idx')
  {
    hide Expandable, ExpandVariables, ExpandFunctions, LoopsOf, IdsOf, DeclaredName, Inst;
    StepLoops(net);
    var r, g, g' := net.repeats[0], ScopesOf(net), ScopesOf(ExpandStep(net));
    var idx := idx'[r.id := i];
    var p := Pin(g, x, idx);
    if r.id !in Ids(net, x) {
      IdsAre(net, x);
      InstOutside(net, x, i, p[r.id]);
    }
    var y := Inst(net, r, x, i);
    assert Inst(net, r, x, p[r.id]) == y;
    InstFits(net, x, i, {});
    PinTwice(g, g', r.id, x, y, idx);
    assert idx - {r.id} == idx';
    PinInRange(g, x, idx);
    assert |net.repeats| > 0;
  }

  /** The givens hold, under the name of every instance that no layer writes, the value of its original. */
  ghost predicate Supplied(net: Net, s: seq<Function>, b: Assignment, givens: Env)
    requires Loops(net)
  {
    forall x, idx :: DeclaredName(net, x) && InRange(ScopesOf(net), idx) && !Writes(s, 0, InstanceName(net, x, idx)) ==>
      givens(InstanceName(net, x, idx)) == Read(ScopesOf(net), b, x, idx)
  }

  /** The ground values of a solution, except that names no layer uses are as given. */
  ghost function Completed(s: seq<Function>, e: Env, givens: Env): Env {
    (y: string) => if Used(s, y) then e(y) else givens(y)
  }

  lemma CompletedMeets(layers: Layers, s: seq<Function>, e: Env, givens: Env)
    requires forall f :: f in s ==> Met(layers, e, f)
    ensures forall f :: f in s ==> Met(layers, Completed(s, e, givens), f)
  {
    var c := Completed(s, e, givens);
    forall f | f in s ensures Met(layers, c, f) {
      forall j | 0 <= j < |f.inputs| ensures c(f.inputs[j]) == e(f.inputs[j]) {
        assert f.inputs[j] in f.inputs && Used(s, f.inputs[j]);
      }
      assert Inputs(c, f) == Inputs(e, f);
      forall k | 0 <= k < |f.outputs| ensures c(f.outputs[k]) == e(f.outputs[k]) {
        assert f.outputs[k] in f.outputs && Used(s, f.outputs[k]);
      }
    }
  }

  /** Whatever values solve the network with loops, one pass over the sorted, expanded network computes
      them: given the values that no layer writes, it leaves, under the name of instance `idx` of `x`, the
      value that `x` has in iteration `idx`. */
  lemma LoopValuesAreComputed(net: Net, layers: Layers, s: seq<Function>, b: Assignment, givens: Env)
    requires WellFormed(net) && Loops(net) && Schedule(net, s)
    requires Solves(net, layers, b) && Supplied(net, s, b, givens)
    ensures forall x, idx :: DeclaredName(net, x) && InRange(ScopesOf(net), idx) ==>
              Read(ScopesOf(net), b, x, idx) == Run(layers, s, givens)(InstanceName(net, x, idx))
  {
    hide Solves, ExpandStep, ExpandAll, WellFormed, UnfoldAll, InstanceName, FoldAll, DeclaredName, Met;
    UnfoldAllSolves(net, layers, b);
    var e := Ground(UnfoldAll(net, b));
    ExpandedWellFormed(net);
    GroundMeaning(ExpandAll(net), layers, UnfoldAll(net, b));
    FlatMeaning(ExpandAll(net), layers, e);
    CompletedMeets(layers, s, e, givens);
    ScheduleAssignsOnce(net, s);
    var other := Completed(s, e, givens);
    forall y | !Writes(s, 0, y) ensures other(y) == givens(y) {
      if Used(s, y) {
        UsedBySchedule(net, s, y);
        var x, idx := UsedOriginal(net, y);
        AgreedValue(net, UnfoldAll(net, b), b, x, idx);
      }
    }
    forall x, idx | DeclaredName(net, x) && InRange(ScopesOf(net), idx)
      ensures Read(ScopesOf(net), b, x, idx) == Run(layers, s, givens)(InstanceName(net, x, idx))
    {
      var y := InstanceName(net, x, idx);
      AgreedValue(net, UnfoldAll(net, b), b, x, idx);
      if Writes(s, 0, y) {
        WrittenIsUsed(s, y);
        assert s[..|s|] == s && !Writes(s, |s|, y);
        RunUnique(layers, s, givens, other, |s|, y);
      } else {
        RunKeeps(layers, s, givens, y);
      }
    }
  }

  lemma UsedBySchedule(net: Net, s: seq<Function>, y: string)
    requires Loops(net) && Schedule(net, s) && Used(s, y)
    ensures Used(ExpandAll(net).funcs, y)
  {
  }

  lemma WrittenIsUsed(s: seq<Function>, y: string)
    requires Writes(s, 0, y)
    ensures Used(s, y)
  {
    var i :| 0 <= i < |s| && y in s[i].outputs;
    assert s[i] in s;
  }
}
