/** The way back: every solution of a network with loops is one that the expanded network has. */
module LoopValues {
  import opened Network
  import opened Unroll
  import opened Placement
  import opened LoopMeaning

  // ---- Unfolding -------------------------------------------------------------------------------

  /** `y` is the name of iteration `i` of `x`. */
  ghost predicate IsInstance(net: Net, y: string, x: string, i: int)
    requires |net.repeats| > 0
  {
    var r := net.repeats[0];
    && DeclaredName(net, x) && Plain(net, r, x) && 0 <= i < r.times && Inst(net, r, x, i) == y
    && (r.id in Ids(net, x) || i == r.times - 1)
  }

  lemma OneInstance(net: Net, y: string, x: string, i: int, x': string, i': int)
    requires Expandable(net) && IsInstance(net, y, x, i) && IsInstance(net, y, x', i')
    ensures x == x' && i == i'
  {
    hide Expandable, Inst, DeclaredName, Plain, Ids;
    Parts(net);
    InstTells(net, x, i, x', i');
  }

  ghost function ReadAt(net: Net, b: Assignment, x: string, i: int, idx: Index): Value
    requires |net.repeats| > 0
  {
    var g, at := ScopesOf(net), idx[net.repeats[0].id := i];
    if at.Keys <= g.loops.Keys then Read(g, b, x, at) else []
  }

  ghost predicate HasOriginal(net: Net, y: string)
    requires |net.repeats| > 0
  {
    exists x, i :: IsInstance(net, y, x, i)
  }

  /** What `y` is an instance of, and which. */
  ghost function Original(net: Net, y: string): (o: (string, int))
    requires |net.repeats| > 0 && HasOriginal(net, y)
    ensures IsInstance(net, y, o.0, o.1)
  {
    var x, i :| IsInstance(net, y, x, i);
    (x, i)
  }

  /** The assignment of the expanded network that gives every instance its original's value. */
  ghost function Unfold(net: Net, b: Assignment): Assignment
    requires |net.repeats| > 0
  {
    (y: string, idx: Index) =>
      if HasOriginal(net, y) then ReadAt(net, b, Original(net, y).0, Original(net, y).1, idx) else []
  }

  lemma OriginalIs(net: Net, y: string, x: string, i: int)
    requires Expandable(net) && IsInstance(net, y, x, i)
    ensures HasOriginal(net, y) && Original(net, y) == (x, i)
  {
    assert HasOriginal(net, y);
    OneInstance(net, y, x, i, Original(net, y).0, Original(net, y).1);
    hide Expandable, IsInstance, Original;
  }

  /** Both assignments give `x` the same value in every iteration. */
  ghost predicate Agrees(net: Net, a: Assignment, b: Assignment, x: string) {
    forall idx :: InRange(ScopesOf(net), idx) ==> Read(ScopesOf(net), a, x, idx) == Read(ScopesOf(net), b, x, idx)
  }

  lemma PlainAgrees(net: Net, b: Assignment, x: string)
    requires Expandable(net) && DeclaredName(net, x) && Plain(net, net.repeats[0], x)
    ensures HasLoop(net) && Agrees(net, Fold(net, Unfold(net, b)), b, x)
  {
    hide ExpandFunctions, ExpandVariables, Placed, LoopsOf, IdsOf, Inst, Expandable, DeclaredName, Original, HasOriginal;
    StepLoops(net);
    var r, g, g', a := net.repeats[0], ScopesOf(net), ScopesOf(ExpandStep(net)), Unfold(net, b);
    forall idx | InRange(g, idx) ensures Read(g, Fold(net, a), x, idx) == Read(g, b, x, idx) {
      var p := Pin(g, x, idx);
      var i := p[r.id];
      PlainName(net, x, i);
      var y := Inst(net, r, x, i);
      assert IsInstance(net, y, x, i);
      OriginalIs(net, y, x, i);
      assert Pin(g', y, p - {r.id})[r.id := i] == p;
      assert Pin(g, x, p) == p;
    }
  }

  // ---- Where a solution's values come from -----------------------------------------------------

  lemma PinAgain(g: Scopes, id: string, x: string, y: string, idx: Index, v: int)
    requires idx.Keys == g.loops.Keys && id in g.loops && IdsIn(g, y) - {id} <= IdsIn(g, x)
    ensures Pin(g, y, Pin(g, x, idx)[id := v]) == Pin(g, y, idx[id := v])
  {
  }

  /** A marker's inputs vary with nothing but its own loops and the loop it marks. */
  lemma MarkerInputs(net: Net, f: Function, y: string)
    requires Expandable(net) && f in net.funcs && Removed(net.repeats[0], f) && y in f.inputs
    ensures Ids(net, y) - {net.repeats[0].id} <= Own(f)
  {
    hide Expandable, AllFramed, Placed, Framed, Finds, IsParam, Ids, Fits, Exactly;
    Parts(net);
    MarkerPlaced(net, f);
    var b := net.repeats[0].id;
    FitsWithin(net, f.inputs[0], Own(f));
    FitsWithin(net, f.inputs[0], Own(f) - {b});
    FitsWithin(net, f.inputs[0], Own(f) + {b});
    if f.kind != "RepeatEnd" {
      FitsWithin(net, f.inputs[1], Own(f));
      FitsWithin(net, f.inputs[1], Own(f) - {b});
    }
  }

  /** In a solution a marker's demand is met at any index, with what it does not vary with pinned. */
  lemma MarkerMet(net: Net, layers: Layers, b: Assignment, f: Function, idx: Index)
    requires Expandable(net) && Solves(net, layers, b) && f in net.funcs && Removed(net.repeats[0], f) && InRange(ScopesOf(net), idx)
    ensures WellShaped(f)
    ensures var p := Pin(ScopesOf(net), f.outputs[0], idx);
            && InRange(ScopesOf(net), p) && Equation(ScopesOf(net), layers, b, f, p)
            && Pin(ScopesOf(net), f.outputs[0], p) == p
  {
    hide Expandable, Placed, Finds, PlacedMarker, DeclaredName, IsParam, LoopsOf, IdsOf, Equation;
    StepLoops(net);
    MarkerPlaced(net, f);
    PlacedShape(net, f);
    var p := Pin(ScopesOf(net), f.outputs[0], idx);
    assert forall c :: c in f.repeatIds <==> c in Own(f);
    assert Active(ScopesOf(net), f, p);
  }

  /** Where the value of a marker's output comes from, `last` being the last iteration. */
  ghost predicate ComesFrom(g: Scopes, b: Assignment, f: Function, id: string, idx: Index)
    requires InRange(g, idx) && id in g.loops && WellShaped(f) && MarkerKind(f.kind)
  {
    var last := idx[id := g.loops[id] - 1];
    Read(g, b, f.outputs[0], idx) ==
    (if f.kind == "RepeatEnd" then Read(g, b, f.inputs[0], last)
     else if f.kind == "RepeatStart" then
       if idx[id] == 0 then Read(g, b, f.inputs[0], last) else Read(g, b, f.inputs[1], idx[id := idx[id] - 1])
     else if f.kind == "Delay" then
       if idx[id] == 0 then Read(g, b, f.inputs[1], last) else Read(g, b, f.inputs[0], idx[id := idx[id] - 1])
     else [])
  }

  lemma DemandIs(g: Scopes, layers: Layers, b: Assignment, f: Function, idx: Index)
    requires InRange(g, idx) && WellShaped(f) && MarkerKind(f.kind) && LoopOf(f) in g.loops
    requires f.kind == "RepeatStart" || f.kind == "RepeatEnd" || f.kind == "Delay"
    requires Equation(g, layers, b, f, idx)
    ensures ComesFrom(g, b, f, LoopOf(f), idx)
  {
    hide Read;
  }

  /** A marker's demand, seen from any iteration. */
  lemma MarkerDemand(net: Net, layers: Layers, b: Assignment, f: Function, idx: Index)
    requires Expandable(net) && Solves(net, layers, b) && f in net.funcs && Removed(net.repeats[0], f) && InRange(ScopesOf(net), idx)
    ensures var r, g := net.repeats[0], ScopesOf(net);
            WellShaped(f) && r.id in idx && r.id in g.loops && g.loops[r.id] == r.times && ComesFrom(g, b, f, r.id, idx)
  {
    hide Expandable, Placed, DeclaredName, IsParam, LoopsOf, IdsOf, Solves, Equation, Finds;
    StepLoops(net);
    MarkerPlaced(net, f);
    PlacedShape(net, f);
    var r, g, o := net.repeats[0], ScopesOf(net), f.outputs[0];
    MarkerMet(net, layers, b, f, idx);
    var p := Pin(g, o, idx);
    DemandIs(g, layers, b, f, p);
    forall y, v: int {:trigger Read(g, b, y, p[r.id := v])} | y in f.inputs
      ensures Read(g, b, y, p[r.id := v]) == Read(g, b, y, idx[r.id := v])
    {
      MarkerInputs(net, f, y);
      PinAgain(g, r.id, o, y, idx, v);
    }
    MarkerInside(net, f, r.id);
    assert Read(g, b, o, p) == Read(g, b, o, idx);
    assert f.kind != "RepeatEnd" ==> p[r.id] == idx[r.id];
    hide Read, Pin, PlacedMarker;
  }

  lemma MarkerInside(net: Net, f: Function, id: string)
    requires WellShaped(f) && MarkerKind(f.kind) && PlacedMarker(net, f, id)
    ensures f.kind == "RepeatStart" || f.kind == "Delay" ==> id in Own(f)
  {
  }

  lemma FitsWithin(net: Net, x: string, s: set<string>)
    ensures Fits(net, x, s) || Exactly(net, x, s) ==> Ids(net, x) <= s
  {
  }

  /** In a solution, `x` has in every iteration the value of what it is resolved to. */
  lemma SourceValue(net: Net, layers: Layers, b: Assignment, x: string, idx: Index)
    requires Expandable(net) && Solves(net, layers, b) && DeclaredName(net, x) && InRange(ScopesOf(net), idx)
    ensures var r, g := net.repeats[0], ScopesOf(net);
            && r.id in idx && 0 <= idx[r.id] < r.times
            && var s := Source(net, r, x, idx[r.id]);
               && 0 <= s.1 < r.times && InRange(g, idx[r.id := s.1])
               && Read(g, b, x, idx) == Read(g, b, s.0, idx[r.id := s.1])
  {
    hide ExpandFunctions, ExpandVariables, Placed, LoopsOf, IdsOf, Inst, Expandable, DeclaredName, IsParam, Ids,
         FindMarker, Read, Solves, PlacedMarker, Finds;
    StepLoops(net);
    var r, i := net.repeats[0], idx[net.repeats[0].id];
    Resolves(net, x, i);
    assert idx[r.id := i] == idx;
    if IsParam(net, x) {
    } else if Marker(net, r, "RepeatStart", x).Some? {
      FoundMarker(net, "RepeatStart", x);
      var m := Marker(net, r, "RepeatStart", x).value;
      MarkerDemand(net, layers, b, m, idx);
      if i == 0 {
        var last := idx[r.id := r.times - 1];
        assert last[r.id := r.times - 1] == last && Input(m, 0) == m.inputs[0];
        EndValue(net, layers, b, m.inputs[0], last);
      }
    } else if Marker(net, r, "RepeatEnd", x).Some? {
      EndValue(net, layers, b, x, idx);
    } else if Marker(net, r, "Delay", x).Some? {
      FoundMarker(net, "Delay", x);
      MarkerDemand(net, layers, b, Marker(net, r, "Delay", x).value, idx);
    }
  }

  lemma EndValue(net: Net, layers: Layers, b: Assignment, x: string, idx: Index)
    requires Expandable(net) && Solves(net, layers, b) && InRange(ScopesOf(net), idx)
    requires Marker(net, net.repeats[0], "RepeatEnd", x).Some? || idx[net.repeats[0].id := net.repeats[0].times - 1] == idx
    ensures var r, g := net.repeats[0], ScopesOf(net); var s := EndSource(net, r, x);
            && s.1 == r.times - 1 && InRange(g, idx[r.id := s.1])
            && Read(g, b, x, idx) == Read(g, b, s.0, idx[r.id := s.1])
  {
    hide ExpandFunctions, ExpandVariables, Placed, LoopsOf, IdsOf, Expandable, DeclaredName, IsParam, Ids, FindMarker,
         Read, Solves, PlacedMarker, Finds;
    StepLoops(net);
    if Marker(net, net.repeats[0], "RepeatEnd", x).Some? {
      FoundMarker(net, "RepeatEnd", x);
      MarkerDemand(net, layers, b, Marker(net, net.repeats[0], "RepeatEnd", x).value, idx);
    }
  }

  ghost predicate AgreesAll(net: Net, a: Assignment, b: Assignment) {
    forall x :: DeclaredName(net, x) ==> Agrees(net, a, b, x)
  }

  /** Unfolding and folding again gives back a solution, as far as it is read. */
  lemma UnfoldThenFold(net: Net, layers: Layers, b: Assignment)
    requires Expandable(net) && Solves(net, layers, b)
    ensures HasLoop(net) && AgreesAll(net, Fold(net, Unfold(net, b)), b)
  {
    hide ExpandFunctions, ExpandVariables, Placed, LoopsOf, IdsOf, Inst, Unfold, Fold, Solves, Expandable, Read,
         DeclaredName, Source, Plain;
    StepLoops(net);
    var r, g, a := net.repeats[0], ScopesOf(net), Unfold(net, b);
    forall x, idx | DeclaredName(net, x) && InRange(g, idx) ensures Read(g, Fold(net, a), x, idx) == Read(g, b, x, idx) {
      var i := idx[r.id];
      var s := Source(net, r, x, i);
      Resolves(net, x, i);
      SourceValue(net, layers, b, x, idx);
      ReadInstance(net, a, x, i, idx);
      var at := idx[r.id := s.1];
      assert at - {r.id} == idx - {r.id};
      ReadInstance(net, a, s.0, s.1, at);
      PlainAgrees(net, b, s.0);
      assert Read(g, Fold(net, a), s.0, at) == Read(g, b, s.0, at);
    }
  }

  /** A layer asks only about the values it reads and writes. */
  lemma SameDemand(g: Scopes, layers: Layers, a: Assignment, b: Assignment, f: Function, idx: Index)
    requires InRange(g, idx) && WellShaped(f)
    requires forall x, i :: (x in f.inputs || x in f.outputs) && InRange(g, i) ==> Read(g, a, x, i) == Read(g, b, x, i)
    ensures Equation(g, layers, a, f, idx) <==> Equation(g, layers, b, f, idx)
  {
    hide Read, Equation;
    SameInputs(g, a, b, f, idx);
    forall k | 0 <= k < |f.outputs| ensures Read(g, a, f.outputs[k], idx) == Read(g, b, f.outputs[k], idx) {
      assert f.outputs[k] in f.outputs;
    }
    if MarkerKind(f.kind) && LoopOf(f) in g.loops {
      var id := LoopOf(f);
      forall v {:trigger idx[id := v]} | 0 <= v < g.loops[id]
        ensures ReadAll(g, a, f.inputs, idx[id := v]) == ReadAll(g, b, f.inputs, idx[id := v])
      {
        SameInputs(g, a, b, f, idx[id := v]);
      }
      MarkersAgree(g, g, layers, a, b, f, f, idx, idx);
    } else {
      SameLayer(g, layers, a, b, f, idx);
    }
  }

  lemma SameLayer(g: Scopes, layers: Layers, a: Assignment, b: Assignment, f: Function, idx: Index)
    requires InRange(g, idx) && WellShaped(f) && !(MarkerKind(f.kind) && LoopOf(f) in g.loops)
    requires ReadAll(g, a, f.inputs, idx) == ReadAll(g, b, f.inputs, idx)
    requires forall k :: 0 <= k < |f.outputs| ==> Read(g, a, f.outputs[k], idx) == Read(g, b, f.outputs[k], idx)
    ensures Equation(g, layers, a, f, idx) <==> Equation(g, layers, b, f, idx)
  {
    hide Read;
  }

  lemma SameInputs(g: Scopes, a: Assignment, b: Assignment, f: Function, idx: Index)
    requires InRange(g, idx)
    requires forall x, i :: x in f.inputs && InRange(g, i) ==> Read(g, a, x, i) == Read(g, b, x, i)
    ensures ReadAll(g, a, f.inputs, idx) == ReadAll(g, b, f.inputs, idx)
  {
    hide Read;
    forall j | 0 <= j < |f.inputs| ensures Read(g, a, f.inputs[j], idx) == Read(g, b, f.inputs[j], idx) {
      assert f.inputs[j] in f.inputs;
    }
  }

  lemma AgreeingSolves(net: Net, layers: Layers, a: Assignment, b: Assignment)
    requires AgreesAll(net, a, b) && Solves(net, layers, b)
    requires forall f, x :: f in net.funcs && (x in f.inputs || x in f.outputs) ==> DeclaredName(net, x)
    ensures Solves(net, layers, a)
  {
    hide Read, Equation, LoopsOf, IdsOf;
    var g := ScopesOf(net);
    forall f, idx | f in net.funcs && Active(g, f, idx) ensures Equation(g, layers, a, f, idx) {
      forall x, i | (x in f.inputs || x in f.outputs) && InRange(g, i) ensures Read(g, a, x, i) == Read(g, b, x, i) {
        assert Agrees(net, a, b, x);
      }
      SameDemand(g, layers, a, b, f, idx);
    }
  }

  /** Every solution of the loops unfolds to a solution of the expanded network. */
  lemma UnfoldSolves(net: Net, layers: Layers, b: Assignment)
    requires Expandable(net) && Solves(net, layers, b)
    ensures |net.repeats| > 0 && net.repeats[0].times >= 1
    ensures Solves(ExpandStep(net), layers, Unfold(net, b))
  {
    hide Solves, Fold, Unfold, Expandable, AgreesAll, DeclaredName, Placed;
    StepLoops(net);
    Parts(net);
    forall f | f in net.funcs ensures forall x :: x in f.inputs || x in f.outputs ==> DeclaredName(net, x) {
      PlacedShape(net, f);
    }
    UnfoldThenFold(net, layers, b);
    AgreeingSolves(net, layers, Fold(net, Unfold(net, b)), b);
    StepMeaning(net, layers, Unfold(net, b));
  }

  /** Folding keeps agreement. */
  lemma FoldAgrees(net: Net, a: Assignment, b: Assignment)
    requires Expandable(net) && |net.repeats| > 0 && net.repeats[0].times >= 1 && AgreesAll(ExpandStep(net), a, b)
    ensures HasLoop(net) && AgreesAll(net, Fold(net, a), Fold(net, b))
  {
    hide ExpandFunctions, ExpandVariables, Placed, LoopsOf, IdsOf, Inst, Expandable, DeclaredName, Fold, Read;
    StepLoops(net);
    var r, g, g' := net.repeats[0], ScopesOf(net), ScopesOf(ExpandStep(net));
    forall x, idx | DeclaredName(net, x) && InRange(g, idx)
      ensures Read(g, Fold(net, a), x, idx) == Read(g, Fold(net, b), x, idx)
    {
      ReadInstance(net, a, x, idx[r.id], idx);
      ReadInstance(net, b, x, idx[r.id], idx);
      InstFits(net, x, idx[r.id], {});
      assert InRange(g', idx - {r.id}) && Agrees(ExpandStep(net), a, b, Inst(net, r, x, idx[r.id]));
    }
  }

  lemma AgreesThrough(net: Net, a: Assignment, b: Assignment, c: Assignment)
    requires AgreesAll(net, a, b) && AgreesAll(net, b, c)
    ensures AgreesAll(net, a, c)
  {
    hide Read, LoopsOf, IdsOf;
    forall x | DeclaredName(net, x) ensures Agrees(net, a, c, x) {
      assert Agrees(net, a, b, x) && Agrees(net, b, c, x);
    }
  }
}
