/** Expanding a loop preserves what the network means. */
module LoopMeaning {
  import opened Network
  import opened Unroll
  import opened Placement

  /** There is a loop to expand. */
  ghost predicate HasLoop(net: Net) {
    |net.repeats| > 0 && DistinctIds(net.repeats) && net.repeats[0].times >= 1
  }

  /** What an assignment of the expanded network says about the loop. */
  ghost function Fold(net: Net, a: Assignment): Assignment
    requires HasLoop(net)
  {
    var r, g, g' := net.repeats[0], ScopesOf(net), ScopesOf(ExpandStep(net));
    LoopsShrink(net);
    (x: string, idx: Index) =>
      if InRangeTest(g, idx) then Read(g', a, Inst(net, r, x, idx[r.id]), idx - {r.id}) else []
  }

  predicate InRangeTest(g: Scopes, idx: Index) {
    idx.Keys == g.loops.Keys && forall b | b in idx.Keys :: 0 <= idx[b] < g.loops[b]
  }

  lemma StepLoops(net: Net)
    requires Expandable(net)
    ensures HasLoop(net) && AllFramed(net)
    ensures var r, g, g' := net.repeats[0], ScopesOf(net), ScopesOf(ExpandStep(net));
            r.id in g.loops && g.loops[r.id] == r.times && g'.loops == g.loops - {r.id}
    ensures forall f :: f in net.funcs ==> WellShaped(f)
    ensures forall idx', i {:trigger idx'[net.repeats[0].id := i]} :: InRange(ScopesOf(ExpandStep(net)), idx') && 0 <= i < net.repeats[0].times ==>
              InRange(ScopesOf(net), idx'[net.repeats[0].id := i]) && idx'[net.repeats[0].id := i] - {net.repeats[0].id} == idx'
  {
    Parts(net);
    forall f | f in net.funcs ensures WellShaped(f) {
      PlacedShape(net, f);
    }
  }

  /** Pinning `y` outside the loop after pinning `x` inside it. */
  lemma PinTwice(g: Scopes, g': Scopes, id: string, x: string, y: string, idx: Index)
    requires id in g.loops && g'.loops == g.loops - {id} && idx.Keys == g.loops.Keys
    requires IdsIn(g', y) <= IdsIn(g, x)
    ensures Pin(g', y, Pin(g, x, idx) - {id}) == Pin(g', y, idx - {id})
  {
  }

  /** Reading an original through `Fold` is reading its instance. */
  lemma ReadInstance(net: Net, a: Assignment, x: string, i: int, idx: Index)
    requires Expandable(net) && DeclaredName(net, x) && InRange(ScopesOf(net), idx) && 0 <= i < net.repeats[0].times
    requires net.repeats[0].id in Ids(net, x) ==> (net.repeats[0].id in idx && i == idx[net.repeats[0].id])
    ensures var r, g, g' := net.repeats[0], ScopesOf(net), ScopesOf(ExpandStep(net));
            && HasLoop(net) && r.id in idx && (idx - {r.id}).Keys <= g'.loops.Keys
            && Read(g, Fold(net, a), x, idx) == Read(g', a, Inst(net, r, x, i), idx - {r.id})
  {
    hide ExpandFunctions, ExpandVariables, Placed, Inst, LoopsOf, IdsOf, Expandable, DeclaredName;
    StepLoops(net);
    var r, g, g' := net.repeats[0], ScopesOf(net), ScopesOf(ExpandStep(net));
    var pinned := Pin(g, x, idx);
    if r.id !in Ids(net, x) {
      InstOutside(net, x, i, pinned[r.id]);
    }
    InstFits(net, x, i, {});
    PinTwice(g, g', r.id, x, Inst(net, r, x, i), idx);
  }

  /** The same for an index put together from an iteration and an index outside. */
  lemma BodyRead(net: Net, a: Assignment, x: string, i: int, idx': Index)
    requires Expandable(net) && DeclaredName(net, x) && 0 <= i < net.repeats[0].times
    requires InRange(ScopesOf(ExpandStep(net)), idx')
    ensures var r, g, g' := net.repeats[0], ScopesOf(net), ScopesOf(ExpandStep(net));
            && HasLoop(net) && InRange(g, idx'[r.id := i])
            && Read(g, Fold(net, a), x, idx'[r.id := i]) == Read(g', a, Inst(net, r, x, i), idx')
  {
    hide *;
    StepLoops(net);
    ReadInstance(net, a, x, i, idx'[net.repeats[0].id := i]);
  }

  // ---- One function at a time ------------------------------------------------------------------

  /** Reading all inputs of a copy. */
  lemma CopyReadAll(net: Net, a: Assignment, f: Function, f': Function, i: int, idx': Index)
    requires Expandable(net) && f in net.funcs && 0 <= i < net.repeats[0].times && Copy(net, f, f', i)
    requires InRange(ScopesOf(ExpandStep(net)), idx')
    ensures var r, g, g' := net.repeats[0], ScopesOf(net), ScopesOf(ExpandStep(net));
            && HasLoop(net) && InRange(g, idx'[r.id := i])
            && ReadAll(g, Fold(net, a), f.inputs, idx'[r.id := i]) == ReadAll(g', a, f'.inputs, idx')
  {
    hide ExpandFunctions, ExpandVariables, Placed, Inst, LoopsOf, IdsOf, Fold, Expandable, Read, DeclaredName;
    StepLoops(net);
    Parts(net);
    PlacedShape(net, f);
    var r, g, g' := net.repeats[0], ScopesOf(net), ScopesOf(ExpandStep(net));
    forall j | 0 <= j < |f.inputs|
      ensures Read(g, Fold(net, a), f.inputs[j], idx'[r.id := i]) == Read(g', a, f'.inputs[j], idx')
    {
      assert f.inputs[j] in f.inputs;
      BodyRead(net, a, f.inputs[j], i, idx');
    }
  }

  lemma CopyActive(net: Net, f: Function, f': Function, i: int, idx': Index)
    requires Expandable(net) && f in net.funcs && 0 <= i < net.repeats[0].times && Copy(net, f, f', i)
    requires InRange(ScopesOf(ExpandStep(net)), idx')
    ensures var r := net.repeats[0];
            Active(ScopesOf(ExpandStep(net)), f', idx') <==> Active(ScopesOf(net), f, idx'[r.id := i])
    ensures WellShaped(f')
  {
    hide ExpandFunctions, ExpandVariables, Placed, Inst, LoopsOf, IdsOf, Fold, Expandable;
    StepLoops(net);
    assert forall b :: b in f'.repeatIds <==> b in Own(f');
    assert forall b :: b in f.repeatIds <==> b in Own(f);
  }

  /** Two markers of one loop make the same demand when they read the same values in every iteration. */
  lemma MarkersAgree(g: Scopes, g': Scopes, layers: Layers, a: Assignment, a': Assignment,
                     f: Function, f': Function, idx: Index, idx': Index)
    requires InRange(g, idx) && InRange(g', idx') && WellShaped(f) && WellShaped(f')
    requires MarkerKind(f.kind) && f'.kind == f.kind && LoopOf(f') == LoopOf(f)
    requires LoopOf(f) in g.loops && LoopOf(f) in g'.loops && g.loops[LoopOf(f)] == g'.loops[LoopOf(f)]
    requires idx[LoopOf(f)] == idx'[LoopOf(f)] && |f.inputs| == |f'.inputs|
    requires KernelOf(f) == KernelOf(f') && f.recurrentAxis == f'.recurrentAxis
    requires Read(g, a, f.outputs[0], idx) == Read(g', a', f'.outputs[0], idx')
    requires ReadAll(g, a, f.inputs, idx) == ReadAll(g', a', f'.inputs, idx')
    requires forall v {:trigger idx[LoopOf(f) := v]} :: 0 <= v < g.loops[LoopOf(f)] ==>
      ReadAll(g, a, f.inputs, idx[LoopOf(f) := v]) == ReadAll(g', a', f'.inputs, idx'[LoopOf(f) := v])
    ensures Equation(g, layers, a, f, idx) <==> Equation(g', layers, a', f', idx')
  {
    hide Read;
    var b := LoopOf(f);
    forall v, j {:trigger idx[b := v], f.inputs[j]} | 0 <= v < g.loops[b] && 0 <= j < |f.inputs|
      ensures Read(g, a, f.inputs[j], idx[b := v]) == Read(g', a', f'.inputs[j], idx'[b := v])
    {
      assert ReadAll(g, a, f.inputs, idx[b := v])[j] == ReadAll(g', a', f'.inputs, idx'[b := v])[j];
    }
    assert ReadAll(g, a, f.inputs, idx)[0] == ReadAll(g', a', f'.inputs, idx')[0];
    if f.kind == "RecurrentOutput" {
      assert Iterations(g, a, f.inputs[0], idx, b) == Iterations(g', a', f'.inputs[0], idx', b);
    }
  }

  /** A copy demands of the values at `idx'` what the original demands in iteration `i`. */
  lemma CopyEquation(net: Net, layers: Layers, a: Assignment, f: Function, f': Function, i: int, idx': Index)
    requires Expandable(net) && f in net.funcs && 0 <= i < net.repeats[0].times && Copy(net, f, f', i)
    requires InRange(ScopesOf(ExpandStep(net)), idx')
    ensures var r, g, g' := net.repeats[0], ScopesOf(net), ScopesOf(ExpandStep(net));
            && HasLoop(net) && WellShaped(f) && WellShaped(f') && InRange(g, idx'[r.id := i])
            && (Equation(g, layers, Fold(net, a), f, idx'[r.id := i]) <==> Equation(g', layers, a, f', idx'))
  {
    hide ExpandFunctions, ExpandVariables, Placed, Inst, LoopsOf, IdsOf, Fold, Expandable, Read, DeclaredName;
    StepLoops(net);
    Parts(net);
    PlacedShape(net, f);
    CopyActive(net, f, f', i, idx');
    var r, g, g' := net.repeats[0], ScopesOf(net), ScopesOf(ExpandStep(net));
    var idx := idx'[r.id := i];
    forall k | 0 <= k < |f.outputs|
      ensures Read(g, Fold(net, a), f.outputs[k], idx) == Read(g', a, f'.outputs[k], idx')
    {
      assert f.outputs[k] in f.outputs;
      BodyRead(net, a, f.outputs[k], i, idx');
    }
    if MarkerKind(f.kind) && LoopOf(f) in g.loops {
      var b := LoopOf(f);
      forall v {:trigger idx[b := v]} | 0 <= v < g.loops[b]
        ensures idx[b := v] == idx'[b := v][r.id := i]
        ensures ReadAll(g, Fold(net, a), f.inputs, idx[b := v]) == ReadAll(g', a, f'.inputs, idx'[b := v])
      {
        assert InRange(g', idx'[b := v]);
        assert idx[b := v] == idx'[b := v][r.id := i];
        CopyReadAll(net, a, f, f', i, idx'[b := v]);
      }
      assert idx == idx[b := idx[b]] && idx' == idx'[b := idx'[b]];
      MarkersAgree(g, g', layers, Fold(net, a), a, f, f', idx, idx');
    } else {
      CopyReadAll(net, a, f, f', i, idx');
    }
  }

  // ---- The markers of the loop -----------------------------------------------------------------

  /** Start, End and Delay hold by the very way their outputs are resolved. */
  lemma MarkerHolds(net: Net, layers: Layers, a: Assignment, f: Function, idx: Index)
    requires Expandable(net) && f in net.funcs && Removed(net.repeats[0], f) && InRange(ScopesOf(net), idx)
    ensures HasLoop(net) && WellShaped(f) && Equation(ScopesOf(net), layers, Fold(net, a), f, idx)
  {
    hide ExpandFunctions, ExpandVariables, Placed, Inst, LoopsOf, IdsOf, Fold, Expandable, Read, DeclaredName;
    StepLoops(net);
    MarkerPlaced(net, f);
    PlacedShape(net, f);
    var r, g, o := net.repeats[0], ScopesOf(net), f.outputs[0];
    var i, last := idx[r.id], idx[r.id := r.times - 1];
    assert last - {r.id} == idx - {r.id};
    MarkerIs(net, f, f.kind, o);
    ReadInstance(net, a, o, i, idx);
    if f.kind == "RepeatEnd" {
      MarkerIs(net, f, "RepeatStart", o);
      EndResolves(net, o, i);
      ReadInstance(net, a, f.inputs[0], r.times - 1, last);
    } else if f.kind == "RepeatStart" {
      StartResolves(net, o, i);
      if i == 0 {
        OutsideResolves(net, f.inputs[0], r.times - 1);
        ReadInstance(net, a, f.inputs[0], r.times - 1, last);
      } else {
        assert idx[r.id := i - 1] - {r.id} == idx - {r.id};
        ReadInstance(net, a, f.inputs[1], i - 1, idx[r.id := i - 1]);
      }
    } else {
      DelayResolves(net, o, i);
      if i == 0 {
        ReadInstance(net, a, f.inputs[1], r.times - 1, last);
      } else {
        assert idx[r.id := i - 1] - {r.id} == idx - {r.id};
        ReadInstance(net, a, f.inputs[0], i - 1, idx[r.id := i - 1]);
      }
    }
  }

  /** RecurrentInput: the slices of a Split are the inputs of the iterations. */
  lemma SplitEquation(net: Net, layers: Layers, a: Assignment, f: Function, idx': Index)
    requires Expandable(net) && f in net.funcs && IsMarkerOf(f, net.repeats[0].id) && f.kind == "RecurrentInput"
    requires Active(ScopesOf(ExpandStep(net)), SplitOf(net.repeats[0], f), idx')
    ensures var r, g, g' := net.repeats[0], ScopesOf(net), ScopesOf(ExpandStep(net));
            && HasLoop(net) && WellShaped(f) && (forall i {:trigger idx'[r.id := i]} :: 0 <= i < r.times ==> Active(g, f, idx'[r.id := i]))
            && (Equation(g', layers, a, SplitOf(r, f), idx') <==>
                forall i {:trigger idx'[r.id := i]} :: 0 <= i < r.times ==> Equation(g, layers, Fold(net, a), f, idx'[r.id := i]))
  {
    hide ExpandFunctions, ExpandVariables, Placed, Inst, LoopsOf, IdsOf, Fold, Expandable, Read, DeclaredName, Direct,
         Equation;
    StepLoops(net);
    SplitNames(net, f);
    var r, g, g' := net.repeats[0], ScopesOf(net), ScopesOf(ExpandStep(net));
    var f' := SplitOf(r, f);
    var last := idx'[r.id := r.times - 1];
    forall j | 0 <= j < |f.inputs| ensures Read(g, Fold(net, a), f.inputs[j], last) == Read(g', a, f'.inputs[j], idx') {
      assert f.inputs[j] in f.inputs;
      BodyRead(net, a, f.inputs[j], r.times - 1, idx');
    }
    assert ReadAll(g, Fold(net, a), f.inputs, last) == ReadAll(g', a, f'.inputs, idx');
    assert forall b :: b in f.repeatIds <==> b in Own(f);
    assert forall b :: b in f'.repeatIds <==> b in Own(f');
    forall i {:trigger idx'[r.id := i]} | 0 <= i < r.times
      ensures Active(g, f, idx'[r.id := i])
      ensures idx'[r.id := i][r.id := r.times - 1] == last
      ensures Read(g, Fold(net, a), f.outputs[0], idx'[r.id := i]) == Read(g', a, f'.outputs[i], idx')
    {
      BodyRead(net, a, f.outputs[0], i, idx');
    }
    var values := ReadAll(g', a, f'.inputs, idx');
    var slices := layers(KernelOf(f'), values);
    forall i {:trigger idx'[r.id := i]} | 0 <= i < r.times
      ensures Equation(g, layers, Fold(net, a), f, idx'[r.id := i]) <==> Read(g', a, f'.outputs[i], idx') == Nth(slices, i)
    {
      SliceDemand(g, layers, Fold(net, a), f, idx'[r.id := i], values);
    }
    SplitDemand(g', layers, a, f', idx', values);
    forall i | 0 <= i < r.times
      ensures (Read(g', a, f'.outputs[i], idx') == Nth(slices, i)) <==> Equation(g, layers, Fold(net, a), f, idx'[r.id := i])
    {
      assert idx'[r.id := i] == idx'[r.id := i];
    }
  }

  lemma SliceDemand(g: Scopes, layers: Layers, a: Assignment, f: Function, idx: Index, values: seq<Value>)
    requires InRange(g, idx) && WellShaped(f) && f.kind == "RecurrentInput" && LoopOf(f) in g.loops
    requires values == ReadAll(g, a, f.inputs, idx[LoopOf(f) := g.loops[LoopOf(f)] - 1])
    ensures Equation(g, layers, a, f, idx) <==>
            Read(g, a, f.outputs[0], idx) == Nth(layers(Kernel("Split", f.recurrentAxis, f.stackAxis, f.payload), values), idx[LoopOf(f)])
  {
    hide Read;
  }

  lemma SplitDemand(g: Scopes, layers: Layers, a: Assignment, f: Function, idx: Index, values: seq<Value>)
    requires InRange(g, idx) && f.kind == "Split" && values == ReadAll(g, a, f.inputs, idx)
    ensures WellShaped(f)
    ensures Equation(g, layers, a, f, idx) <==>
            forall k :: 0 <= k < |f.outputs| ==> Read(g, a, f.outputs[k], idx) == Nth(layers(KernelOf(f), values), k)
  {
    hide Read;
  }

  /** RecurrentOutput: a Stack collects the outputs of the iterations. */
  lemma StackEquation(net: Net, layers: Layers, a: Assignment, f: Function, idx': Index)
    requires Expandable(net) && f in net.funcs && IsMarkerOf(f, net.repeats[0].id) && f.kind == "RecurrentOutput"
    requires InRange(ScopesOf(ExpandStep(net)), idx')
    ensures var r, g, g' := net.repeats[0], ScopesOf(net), ScopesOf(ExpandStep(net));
            var last := idx'[r.id := r.times - 1];
            && HasLoop(net) && WellShaped(f) && InRange(g, last)
            && (Equation(g', layers, a, StackOf(r, f), idx') <==> Equation(g, layers, Fold(net, a), f, last))
  {
    hide ExpandFunctions, ExpandVariables, Placed, Inst, LoopsOf, IdsOf, Fold, Expandable, Read, DeclaredName, Direct;
    StepLoops(net);
    StackNames(net, f);
    var r, g, g' := net.repeats[0], ScopesOf(net), ScopesOf(ExpandStep(net));
    var f', last := StackOf(r, f), idx'[r.id := r.times - 1];
    forall i | 0 <= i < r.times
      ensures Read(g, Fold(net, a), f.inputs[0], last[r.id := i]) == Read(g', a, f'.inputs[i], idx')
    {
      assert last[r.id := i] == idx'[r.id := i];
      BodyRead(net, a, f.inputs[0], i, idx');
    }
    assert Iterations(g, Fold(net, a), f.inputs[0], last, r.id) == ReadAll(g', a, f'.inputs, idx');
    BodyRead(net, a, f.outputs[0], r.times - 1, idx');
    StackDemand(g, g', layers, Fold(net, a), a, f, f', r.id, last, idx');
  }

  lemma StackDemand(g: Scopes, g': Scopes, layers: Layers, a: Assignment, a': Assignment, f: Function, f': Function,
                    id: string, idx: Index, idx': Index)
    requires InRange(g, idx) && InRange(g', idx') && WellShaped(f) && WellShaped(f') && id in g.loops
    requires f.kind == "RecurrentOutput" && LoopOf(f) == id && f'.kind == "Stack" && f'.outputs == f.outputs
    requires KernelOf(f') == Kernel("Stack", f.splitAxis, f.recurrentAxis, f.payload)
    requires Iterations(g, a, f.inputs[0], idx, id) == ReadAll(g', a', f'.inputs, idx')
    requires Read(g, a, f.outputs[0], idx) == Read(g', a', f.outputs[0], idx')
    ensures Equation(g', layers, a', f', idx') <==> Equation(g, layers, a, f, idx)
  {
    hide Read, Iterations;
  }

  // ---- One step --------------------------------------------------------------------------------

  lemma {:induction false} ExpandedFrom(net: Net, r: Repeat, funcs: seq<Function>)
    requires r.times >= 1
    ensures forall f, f' :: f in funcs && f' in ExpandFunction(net, r, f) ==> f' in ExpandFunctions(net, r, funcs)
    ensures forall f' :: f' in ExpandFunctions(net, r, funcs) ==> exists f :: f in funcs && f' in ExpandFunction(net, r, f)
  {
    if funcs != [] {
      var rest, f := funcs[..|funcs| - 1], funcs[|funcs| - 1];
      ExpandedFrom(net, r, rest);
      assert funcs == rest + [f];
    }
  }

  /** Splitting an index at the loop and putting it together again. */
  lemma Reindex(net: Net, f: Function, idx: Index)
    requires Expandable(net) && Active(ScopesOf(net), f, idx)
    ensures var r, g' := net.repeats[0], ScopesOf(ExpandStep(net));
            && r.id in idx && 0 <= idx[r.id] < r.times
            && InRange(g', idx - {r.id}) && (idx - {r.id})[r.id := idx[r.id]] == idx
            && (r.id !in f.repeatIds ==> idx[r.id] == r.times - 1)
  {
    hide ExpandFunctions, ExpandVariables, Placed, Inst, LoopsOf, IdsOf, Expandable;
    StepLoops(net);
  }

  /** A function means what the functions that replace it mean. */
  lemma FunctionMeaning(net: Net, layers: Layers, a: Assignment, f: Function)
    requires Expandable(net) && f in net.funcs
    ensures var r, g, g' := net.repeats[0], ScopesOf(net), ScopesOf(ExpandStep(net));
            && HasLoop(net) && WellShaped(f) && (forall f' :: f' in ExpandFunction(net, r, f) ==> WellShaped(f'))
            && (Holds(g, layers, Fold(net, a), f) <==>
                forall f' :: f' in ExpandFunction(net, r, f) ==> Holds(g', layers, a, f'))
  {
    hide ExpandFunctions, ExpandVariables, Placed, Inst, LoopsOf, IdsOf, Fold, Expandable, Read, Equation;
    StepLoops(net);
    var r := net.repeats[0];
    if Removed(r, f) {
      forall idx | Active(ScopesOf(net), f, idx) ensures Equation(ScopesOf(net), layers, Fold(net, a), f, idx) {
        MarkerHolds(net, layers, a, f, idx);
      }
    } else if IsMarkerOf(f, r.id) {
      if f.kind == "RecurrentInput" {
        SplitMeaning(net, layers, a, f);
      } else {
        StackMeaning(net, layers, a, f);
      }
    } else if r.id in f.repeatIds {
      BodyMeaning(net, layers, a, f);
    } else {
      OutsideMeaning(net, layers, a, f);
    }
  }

  lemma SplitMeaning(net: Net, layers: Layers, a: Assignment, f: Function)
    requires Expandable(net) && f in net.funcs && IsMarkerOf(f, net.repeats[0].id) && f.kind == "RecurrentInput"
    ensures var r, g, g' := net.repeats[0], ScopesOf(net), ScopesOf(ExpandStep(net));
            && HasLoop(net) && ExpandFunction(net, r, f) == [SplitOf(r, f)] && WellShaped(f)
            && (Holds(g, layers, Fold(net, a), f) <==> Holds(g', layers, a, SplitOf(r, f)))
  {
    hide ExpandFunctions, ExpandVariables, Placed, Inst, LoopsOf, IdsOf, Fold, Expandable, Read, Equation, Direct;
    StepLoops(net);
    SplitNames(net, f);
    var r, g, g' := net.repeats[0], ScopesOf(net), ScopesOf(ExpandStep(net));
    var f' := SplitOf(r, f);
    if Holds(g, layers, Fold(net, a), f) {
      forall idx' | Active(g', f', idx') ensures Equation(g', layers, a, f', idx') {
        SplitEquation(net, layers, a, f, idx');
      }
    }
    if Holds(g', layers, a, f') {
      forall idx | Active(g, f, idx) ensures Equation(g, layers, Fold(net, a), f, idx) {
        Reindex(net, f, idx);
        var idx' := idx - {r.id};
        assert forall b :: b in f.repeatIds <==> b in Own(f);
        assert forall b :: b in f'.repeatIds <==> b in Own(f');
        assert Active(g', f', idx');
        SplitEquation(net, layers, a, f, idx');
      }
    }
  }

  lemma StackActive(net: Net, f: Function, idx': Index)
    requires Expandable(net) && f in net.funcs && IsMarkerOf(f, net.repeats[0].id) && f.kind == "RecurrentOutput"
    requires InRange(ScopesOf(ExpandStep(net)), idx')
    ensures var r := net.repeats[0];
            && r.times >= 1
            && (Active(ScopesOf(ExpandStep(net)), StackOf(r, f), idx') <==> Active(ScopesOf(net), f, idx'[r.id := r.times - 1]))
  {
    hide ExpandFunctions, ExpandVariables, Placed, Inst, LoopsOf, IdsOf, Expandable, Direct;
    StepLoops(net);
    StackNames(net, f);
    assert forall b :: b in f.repeatIds <==> b in Own(f);
  }

  lemma StackMeaning(net: Net, layers: Layers, a: Assignment, f: Function)
    requires Expandable(net) && f in net.funcs && IsMarkerOf(f, net.repeats[0].id) && f.kind == "RecurrentOutput"
    ensures var r, g, g' := net.repeats[0], ScopesOf(net), ScopesOf(ExpandStep(net));
            && HasLoop(net) && ExpandFunction(net, r, f) == [StackOf(r, f)] && WellShaped(f)
            && (Holds(g, layers, Fold(net, a), f) <==> Holds(g', layers, a, StackOf(r, f)))
  {
    hide ExpandFunctions, ExpandVariables, Placed, Inst, LoopsOf, IdsOf, Fold, Expandable, Read, Equation, Active, Direct;
    StepLoops(net);
    StackNames(net, f);
    var r, g, g' := net.repeats[0], ScopesOf(net), ScopesOf(ExpandStep(net));
    ActiveInRange(g, f);
    ActiveInRange(g', StackOf(r, f));
    if Holds(g, layers, Fold(net, a), f) {
      forall idx' | Active(g', StackOf(r, f), idx') ensures Equation(g', layers, a, StackOf(r, f), idx') {
        StackActive(net, f, idx');
        StackEquation(net, layers, a, f, idx');
      }
    }
    if Holds(g', layers, a, StackOf(r, f)) {
      forall idx | Active(g, f, idx) ensures Equation(g, layers, Fold(net, a), f, idx) {
        Reindex(net, f, idx);
        StackActive(net, f, idx - {r.id});
        StackEquation(net, layers, a, f, idx - {r.id});
      }
    }
  }

  lemma ActiveInRange(g: Scopes, f: Function)
    ensures forall idx :: Active(g, f, idx) ==> InRange(g, idx)
  {
  }

  lemma OutsideMeaning(net: Net, layers: Layers, a: Assignment, f: Function)
    requires Expandable(net) && f in net.funcs && !IsMarkerOf(f, net.repeats[0].id) && net.repeats[0].id !in f.repeatIds
    ensures var r, g, g' := net.repeats[0], ScopesOf(net), ScopesOf(ExpandStep(net));
            && HasLoop(net) && WellShaped(f) && (forall f' :: f' in ExpandFunction(net, r, f) ==> WellShaped(f'))
            && (Holds(g, layers, Fold(net, a), f) <==>
                forall f' :: f' in ExpandFunction(net, r, f) ==> Holds(g', layers, a, f'))
  {
    hide ExpandFunctions, ExpandVariables, Placed, Inst, LoopsOf, IdsOf, Fold, Expandable, Read, Equation, Active, Copy;
    StepLoops(net);
    var r := net.repeats[0];
    var f' := f.(inputs := OutsideInputs(net, r, f.inputs));
    OutsideCopy(net, f);
    assert ExpandFunction(net, r, f) == [f'];
    CopyMeaning(net, layers, a, f, f', r.times - 1);
    ActiveInRange(ScopesOf(net), f);
    if Holds(ScopesOf(ExpandStep(net)), layers, a, f') {
      forall idx | Active(ScopesOf(net), f, idx) ensures Equation(ScopesOf(net), layers, Fold(net, a), f, idx) {
        Reindex(net, f, idx);
        assert HoldsIn(net, layers, a, f, r.times - 1);
      }
    }
  }

  /** `f`'s demands in iteration `i`. */
  ghost predicate HoldsIn(net: Net, layers: Layers, a: Assignment, f: Function, i: int)
    requires Expandable(net) && WellShaped(f) && 0 <= i < net.repeats[0].times
  {
    StepLoops(net);
    var r := net.repeats[0];
    forall idx' {:trigger idx'[r.id := i]} :: InRange(ScopesOf(ExpandStep(net)), idx') && Active(ScopesOf(net), f, idx'[r.id := i]) ==>
      Equation(ScopesOf(net), layers, Fold(net, a), f, idx'[r.id := i])
  }

  lemma CopyMeaning(net: Net, layers: Layers, a: Assignment, f: Function, f': Function, i: int)
    requires Expandable(net) && f in net.funcs && 0 <= i < net.repeats[0].times && Copy(net, f, f', i)
    ensures HasLoop(net) && WellShaped(f) && WellShaped(f')
    ensures Holds(ScopesOf(ExpandStep(net)), layers, a, f') <==> HoldsIn(net, layers, a, f, i)
    ensures Holds(ScopesOf(net), layers, Fold(net, a), f) ==> HoldsIn(net, layers, a, f, i)
  {
    hide ExpandFunctions, ExpandVariables, Placed, Inst, LoopsOf, IdsOf, Fold, Expandable, Read, Equation, Active, Copy;
    StepLoops(net);
    CopyShape(net, f, f', i);
    var r, g, g' := net.repeats[0], ScopesOf(net), ScopesOf(ExpandStep(net));
    ActiveInRange(g', f');
    forall idx' {:trigger idx'[r.id := i]} | InRange(g', idx')
      ensures Active(g', f', idx') <==> Active(g, f, idx'[r.id := i])
      ensures Equation(g, layers, Fold(net, a), f, idx'[r.id := i]) <==> Equation(g', layers, a, f', idx')
    {
      CopyActive(net, f, f', i, idx');
      CopyEquation(net, layers, a, f, f', i, idx');
    }
    forall idx' | Active(g', f', idx') ensures idx'[r.id := i] == idx'[r.id := i] {
    }
  }

  lemma CopyShape(net: Net, f: Function, f': Function, i: int)
    requires WellShaped(f) && |net.repeats| > 0 && 0 <= i < net.repeats[0].times && Copy(net, f, f', i)
    ensures WellShaped(f')
  {
  }

  lemma BodyMeaning(net: Net, layers: Layers, a: Assignment, f: Function)
    requires Expandable(net) && f in net.funcs && !IsMarkerOf(f, net.repeats[0].id) && net.repeats[0].id in f.repeatIds
    ensures var r, g, g' := net.repeats[0], ScopesOf(net), ScopesOf(ExpandStep(net));
            && HasLoop(net) && WellShaped(f) && (forall f' :: f' in ExpandFunction(net, r, f) ==> WellShaped(f'))
            && (Holds(g, layers, Fold(net, a), f) <==>
                forall f' :: f' in ExpandFunction(net, r, f) ==> Holds(g', layers, a, f'))
  {
    hide ExpandFunctions, ExpandVariables, Placed, Inst, LoopsOf, IdsOf, Fold, Expandable, Read, Equation, Active,
         BodyFunction, Copy;
    StepLoops(net);
    var r, g' := net.repeats[0], ScopesOf(ExpandStep(net));
    var copies := ExpandFunction(net, r, f);
    assert |copies| == r.times && forall i :: 0 <= i < r.times ==> copies[i] == BodyFunction(net, r, f, i);
    ActiveInRange(ScopesOf(net), f);
    forall i | 0 <= i < r.times
      ensures WellShaped(copies[i]) && (Holds(g', layers, a, copies[i]) <==> HoldsIn(net, layers, a, f, i))
      ensures Holds(ScopesOf(net), layers, Fold(net, a), f) ==> HoldsIn(net, layers, a, f, i)
    {
      BodyCopy(net, f, i);
      CopyMeaning(net, layers, a, f, copies[i], i);
    }
    if forall i :: 0 <= i < r.times ==> HoldsIn(net, layers, a, f, i) {
      forall idx | Active(ScopesOf(net), f, idx) ensures Equation(ScopesOf(net), layers, Fold(net, a), f, idx) {
        Reindex(net, f, idx);
        assert HoldsIn(net, layers, a, f, idx[r.id]);
      }
    }
  }

  /** One step of expansion: an assignment solves the expanded network exactly when what it says
      about the loop solves the loop. */
  lemma StepMeaning(net: Net, layers: Layers, a: Assignment)
    requires Expandable(net)
    ensures HasLoop(net) && (Solves(ExpandStep(net), layers, a) <==> Solves(net, layers, Fold(net, a)))
  {
    hide ExpandVariables, Placed, Inst, LoopsOf, IdsOf, Fold, Read, Equation, Active, ExpandFunction, Holds,
         ExpandFunctions, Expandable;
    StepLoops(net);
    var r := net.repeats[0];
    ExpandedFrom(net, r, net.funcs);
    forall f | f in net.funcs
      ensures WellShaped(f) && (forall f' :: f' in ExpandFunction(net, r, f) ==> WellShaped(f'))
      ensures Holds(ScopesOf(net), layers, Fold(net, a), f) <==>
              forall f' :: f' in ExpandFunction(net, r, f) ==> Holds(ScopesOf(ExpandStep(net)), layers, a, f')
    {
      FunctionMeaning(net, layers, a, f);
    }
  }
}
