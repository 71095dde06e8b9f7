/** Networks whose loops can be expanded one after the other, told from the network itself. */
module WellFormedness {
  import opened Network
  import opened Unroll
  import opened Placement
  import opened LoopMeaning
  import opened LoopValues

  /** Expanding the variables loop by loop never gives two of them the same name. */
  ghost predicate FreshNames(vars: seq<Variable>, repeats: seq<Repeat>)
    decreases |repeats|
  {
    && NoTwice(vars)
    && (repeats != [] ==> repeats[0].times >= 1 && FreshNames(ExpandVariables(repeats[0], vars), repeats[1..]))
  }

  /** Loop `b` is expanded before loop `c`. */
  ghost predicate Before(repeats: seq<Repeat>, b: string, c: string) {
    exists i, j :: 0 <= i < j < |repeats| && repeats[i].id == b && repeats[j].id == c
  }

  /** What a value may have become by the time that a loop is expanded: a parameter, or the output of one of
      the loop's own RepeatStarts or Delays, or of one of its RepeatEnds. */
  datatype Origin = Parameter(loop: string) | Opening(loop: string) | Closing(loop: string)

  /** For every name what its value may become. */
  type Origins = string -> set<Origin>

  predicate HandsThrough(kind: string) { kind == "RepeatStart" || kind == "RepeatEnd" || kind == "Delay" }

  lemma Passing()
    ensures HandsThrough("RepeatStart") && HandsThrough("RepeatEnd") && HandsThrough("Delay")
  {
  }

  /** Once its loop is expanded, the output of a RepeatStart, RepeatEnd or Delay is one of its inputs. */
  ghost predicate HandsOn(net: Net, f: Function, origins: Origins)
    requires WellShaped(f) && MarkerKind(f.kind)
  {
    var b, o := LoopOf(f), origins(f.outputs[0]);
    && (if f.kind == "RepeatEnd" then Closing(b) in o else Opening(b) in o)
    && (forall j, q :: 0 <= j < |f.inputs| && q in origins(f.inputs[j]) && Before(net.repeats, b, q.loop) ==> q in o)
    && (forall j, c :: 0 <= j < |f.inputs| && IsParam(net, f.inputs[j]) && Before(net.repeats, b, c) ==> Parameter(c) in o)
  }

  /** When its loop is expanded, a marker finds what it asks for by name. */
  ghost predicate Clear(f: Function, origins: Origins) {
    forall j :: 0 <= j < |f.inputs| ==>
      && (Carries(f, j) ==> Parameter(LoopOf(f)) !in origins(f.inputs[j]) && Opening(LoopOf(f)) !in origins(f.inputs[j]))
      && (Overlooks(f, j) ==> Closing(LoopOf(f)) !in origins(f.inputs[j]))
  }

  ghost predicate Traced(net: Net, origins: Origins) {
    forall f :: f in net.funcs && WellShaped(f) && LoopMarker(net, f) ==>
      Clear(f, origins) && (HandsThrough(f.kind) ==> HandsOn(net, f, origins))
  }

  /** What the expander asks of a network. */
  ghost predicate WellFormed(net: Net) {
    && DistinctIds(net.repeats) && EveryLoopRuns(net)
    && FreshNames(net.vars, net.repeats)
    && (forall v :: v in net.vars ==> Distinct(v.repeatIds))
    && (forall f :: f in net.funcs ==> Placed(net, f))
    && SingleWriter(net.funcs)
    && exists origins :: Traced(net, origins)
  }

  // ---- The first loop --------------------------------------------------------------------------

  /** What the tables hold for a name is among its origins. */
  lemma TableOrigins(net: Net, origins: Origins, x: string)
    requires |net.repeats| > 0 && DistinctIds(net.repeats) && Traced(net, origins) && (forall h :: h in net.funcs ==> WellShaped(h))
    ensures var r := net.repeats[0];
            && (!Kept(net, r, x) ==> Opening(r.id) in origins(x))
            && (Marker(net, r, "RepeatEnd", x).Some? ==> Closing(r.id) in origins(x))
  {
    hide FindMarker, Before, IsParam, Clear;
    var r := net.repeats[0];
    LoopsShrink(net);
    forall kind | HandsThrough(kind) && Marker(net, r, kind, x).Some?
      ensures if kind == "RepeatEnd" then Closing(r.id) in origins(x) else Opening(r.id) in origins(x)
    {
      MarkerFound(net.funcs, kind, r.id, x);
      assert HandsOn(net, Marker(net, r, kind, x).value, origins);
    }
    Passing();
  }

  lemma NothingLost(net: Net, f: Function, origins: Origins)
    requires |net.repeats| > 0 && DistinctIds(net.repeats) && Traced(net, origins) && (forall h :: h in net.funcs ==> WellShaped(h))
    requires f in net.funcs && IsMarkerOf(f, net.repeats[0].id)
    ensures Finds(net, net.repeats[0], f)
  {
    hide FindMarker, HandsOn, Kept;
    LoopsShrink(net);
    assert Clear(f, origins);
    forall j | 0 <= j < |f.inputs|
      ensures Carries(f, j) ==> Kept(net, net.repeats[0], f.inputs[j])
      ensures Overlooks(f, j) ==> Marker(net, net.repeats[0], "RepeatEnd", f.inputs[j]).None?
    {
      TableOrigins(net, origins, f.inputs[j]);
    }
  }

  /** The first loop of a well-formed network can be expanded. */
  lemma FirstExpandable(net: Net)
    requires WellFormed(net) && |net.repeats| > 0
    ensures Expandable(net)
  {
    hide Placed, Framed, Traced, Finds, ExpandVariables, ExpandFunctions;
    assert FreshNames(ExpandStep(net).vars, net.repeats[1..]);
    var origins :| Traced(net, origins);
    forall f | f in net.funcs ensures WellShaped(f) && Framed(net, f) {
      PlacedShape(net, f);
    }
    forall f | f in net.funcs && IsMarkerOf(f, net.repeats[0].id) ensures Finds(net, net.repeats[0], f) {
      NothingLost(net, f, origins);
    }
  }

  // ---- What the functions become ---------------------------------------------------------------

  /** What `f` is replaced with, in iteration `i` if there is one for every iteration. */
  function Replacement(net: Net, r: Repeat, f: Function, i: int): Function
    requires 0 <= i < r.times
  {
    if IsMarkerOf(f, r.id) && f.kind == "RecurrentInput" then SplitOf(r, f)
    else if IsMarkerOf(f, r.id) && f.kind == "RecurrentOutput" then StackOf(r, f)
    else if r.id in f.repeatIds then BodyFunction(net, r, f, i)
    else f.(inputs := OutsideInputs(net, r, f.inputs))
  }

  lemma ReplacementIn(net: Net, r: Repeat, f: Function, f': Function) returns (i: int)
    requires r.times >= 1 && f' in ExpandFunction(net, r, f)
    ensures !Removed(r, f) && 0 <= i < r.times && f' == Replacement(net, r, f, i)
  {
    hide BodyFunction, OutsideInputs, AsSplit, AsStack;
    var all := ExpandFunction(net, r, f);
    i :| 0 <= i < |all| && all[i] == f';
  }

  lemma Replaced(net: Net, f': Function) returns (f: Function, i: int)
    requires HasLoop(net) && f' in ExpandStep(net).funcs
    ensures f in net.funcs && !Removed(net.repeats[0], f) && 0 <= i < net.repeats[0].times
    ensures f' == Replacement(net, net.repeats[0], f, i)
  {
    hide ExpandFunction, Replacement;
    ExpandedFrom(net, net.repeats[0], net.funcs);
    f :| f in net.funcs && f' in ExpandFunction(net, net.repeats[0], f);
    i := ReplacementIn(net, net.repeats[0], f, f');
  }

  /** An output of a replacement is an instance of an output of the original, of that iteration if there is
      one for every iteration. */
  lemma ReplacementOutput(net: Net, f: Function, i: int, k: nat) returns (o: string, j: int)
    requires Expandable(net) && f in net.funcs && !Removed(net.repeats[0], f) && 0 <= i < net.repeats[0].times
    requires k < |Replacement(net, net.repeats[0], f, i).outputs|
    ensures var r := net.repeats[0]; var f' := Replacement(net, r, f, i);
            && o in f.outputs && 0 <= j < r.times && DeclaredName(net, o) && Plain(net, r, o) && f'.outputs[k] == Inst(net, r, o, j)
            && (if IsMarkerOf(f, r.id) then o == f.outputs[0] && (f.kind == "RecurrentInput" ==> j == k)
                else k < |f.outputs| && o == f.outputs[k] && (r.id in Own(f) ==> j == i))
  {
    hide Expandable, Placed, Inst, DeclaredName, IsParam, Finds, PlacedMarker;
    Parts(net);
    PlacedShape(net, f);
    var r := net.repeats[0];
    if IsMarkerOf(f, r.id) && f.kind == "RecurrentInput" {
      SplitNames(net, f);
      o, j := f.outputs[0], k;
    } else if IsMarkerOf(f, r.id) {
      StackNames(net, f);
      o, j := f.outputs[0], r.times - 1;
    } else {
      o := f.outputs[k];
      KeptOutput(net, f, o);
      if r.id in f.repeatIds {
        BodyCopy(net, f, i);
        j := i;
      } else {
        OutsideCopy(net, f);
        j := r.times - 1;
      }
    }
  }

  // ---- The expanded network keeps the rules ----------------------------------------------------

  lemma StepSingleWriter(net: Net)
    requires Expandable(net)
    ensures |net.repeats| > 0 && net.repeats[0].times >= 1 && SingleWriter(ExpandStep(net).funcs)
  {
    hide Expandable, Placed, Replacement, ExpandFunctions, ExpandVariables, Inst, DeclaredName, Plain, Ids;
    StepLoops(net);
    var net', r := ExpandStep(net), net.repeats[0];
    forall f', h', y | f' in net'.funcs && h' in net'.funcs && y in f'.outputs && y in h'.outputs ensures f' == h' {
      var f, i := Replaced(net, f');
      var h, j := Replaced(net, h');
      SameWriter(net, f, i, h, j, y);
    }
  }

  lemma SameWriter(net: Net, f: Function, i: int, h: Function, j: int, y: string)
    requires Expandable(net) && f in net.funcs && h in net.funcs && !Removed(net.repeats[0], f) && !Removed(net.repeats[0], h)
    requires 0 <= i < net.repeats[0].times && 0 <= j < net.repeats[0].times
    requires y in Replacement(net, net.repeats[0], f, i).outputs && y in Replacement(net, net.repeats[0], h, j).outputs
    ensures Replacement(net, net.repeats[0], f, i) == Replacement(net, net.repeats[0], h, j)
  {
    hide Expandable, Placed, Replacement, Inst, DeclaredName, Plain, Ids;
    Parts(net);
    PlacedShape(net, f);
    var r := net.repeats[0];
    var k :| 0 <= k < |Replacement(net, r, f, i).outputs| && Replacement(net, r, f, i).outputs[k] == y;
    var l :| 0 <= l < |Replacement(net, r, h, j).outputs| && Replacement(net, r, h, j).outputs[l] == y;
    var o, p := ReplacementOutput(net, f, i, k);
    var o', p' := ReplacementOutput(net, h, j, l);
    InstTells(net, o, p, o', p');
    OneReplacement(net, r, f, i, j);
  }

  lemma OneReplacement(net: Net, r: Repeat, f: Function, i: int, j: int)
    requires 0 <= i < r.times && 0 <= j < r.times && (!IsMarkerOf(f, r.id) && r.id in Own(f) ==> i == j) && !Removed(r, f)
    ensures Replacement(net, r, f, i) == Replacement(net, r, f, j)
  {
    hide BodyFunction, OutsideInputs, SplitOf, StackOf;
  }

  lemma ReplacementKind(net: Net, r: Repeat, f: Function, i: int)
    requires 0 <= i < r.times && !Removed(r, f)
    ensures var f' := Replacement(net, r, f, i);
            if IsMarkerOf(f, r.id) then !MarkerKind(f'.kind) else f'.kind == f.kind && LoopOf(f') == LoopOf(f)
  {
    hide BodyInputs, OutsideInputs, GenNames;
  }

  /** What no parameter may stand behind stays no parameter. */
  lemma InstCarried(net: Net, origins: Origins, x: string, i: int, s: set<string>, c: string)
    requires Expandable(net) && DeclaredName(net, x) && 0 <= i < net.repeats[0].times && Exactly(net, x, s)
    requires Traced(net, origins) && Before(net.repeats, net.repeats[0].id, c) && Parameter(c) !in origins(x)
    ensures var r := net.repeats[0];
            r.times >= 1 && Exactly(ExpandStep(net), Inst(net, r, x, i), s - {r.id})
  {
    hide Expandable, ExpandStep, Inst, DeclaredName, Ids, Source, IsParam, Plain, Before, Traced;
    Parts(net);
    Resolves(net, x, i);
    var src := Source(net, net.repeats[0], x, i);
    PlainName(net, src.0, src.1);
    ParamOrigin(net, origins, x, i, c);
  }

  lemma InstExactly(net: Net, o: string, i: int)
    requires Expandable(net) && DeclaredName(net, o) && 0 <= i < net.repeats[0].times
    requires Direct(net, net.repeats[0], o)
    ensures var r := net.repeats[0];
            && r.times >= 1 && DeclaredName(ExpandStep(net), Inst(net, r, o, i))
            && Exactly(ExpandStep(net), Inst(net, r, o, i), Ids(net, o) - {r.id})
  {
    hide Expandable, Placed, ExpandStep, Inst, DeclaredName, Ids, IsParam;
    Parts(net);
    PlainName(net, o, i);
  }

  lemma DistinctInstances(net: Net, xs: seq<string>, ys: seq<string>, i: int)
    requires Expandable(net) && 0 <= i < net.repeats[0].times && Distinct(xs) && |ys| == |xs|
    requires forall x :: x in xs ==> DeclaredName(net, x) && Direct(net, net.repeats[0], x)
    requires forall k :: 0 <= k < |xs| ==> ys[k] == Inst(net, net.repeats[0], xs[k], i)
    ensures Distinct(ys)
  {
    hide Expandable, Inst, DeclaredName, Direct;
    Parts(net);
    forall h, k | 0 <= h < k < |ys| ensures ys[h] != ys[k] {
      assert xs[h] in xs && xs[k] in xs;
      if ys[h] == ys[k] {
        InstTells(net, xs[h], i, xs[k], i);
      }
    }
  }

  lemma CopyOutputs(net: Net, f: Function, f': Function, i: int)
    requires Expandable(net) && f in net.funcs && 0 <= i < net.repeats[0].times && Copy(net, f, f', i)
    ensures net.repeats[0].times >= 1 && Distinct(f'.outputs)
    ensures forall o :: o in f'.outputs ==> DeclaredName(ExpandStep(net), o) && Exactly(ExpandStep(net), o, Own(f'))
  {
    hide Expandable, Placed, ExpandStep, Inst, DeclaredName, Ids, IsParam, Direct, Finds, PlacedMarker;
    Parts(net);
    PlacedShape(net, f);
    forall x | x in f.outputs ensures DeclaredName(net, x) && Direct(net, net.repeats[0], x) {
      KeptOutput(net, f, x);
    }
    DistinctInstances(net, f.outputs, f'.outputs, i);
    forall k | 0 <= k < |f'.outputs|
      ensures DeclaredName(ExpandStep(net), f'.outputs[k]) && Exactly(ExpandStep(net), f'.outputs[k], Own(f'))
    {
      assert f.outputs[k] in f.outputs;
      InstExactly(net, f.outputs[k], i);
    }
  }

  lemma CopyInputs(net: Net, f: Function, f': Function, i: int)
    requires Expandable(net) && f in net.funcs && 0 <= i < net.repeats[0].times && Copy(net, f, f', i)
    ensures net.repeats[0].times >= 1
    ensures forall x :: x in f'.inputs ==> DeclaredName(ExpandStep(net), x)
    ensures forall j, s :: 0 <= j < |f.inputs| && Fits(net, f.inputs[j], s) ==> Fits(ExpandStep(net), f'.inputs[j], s - {net.repeats[0].id})
  {
    hide Expandable, Placed, ExpandStep, Inst, DeclaredName, Ids, IsParam, Direct, Fits;
    Parts(net);
    PlacedShape(net, f);
    forall j, s | 0 <= j < |f.inputs|
      ensures DeclaredName(ExpandStep(net), f'.inputs[j])
      ensures Fits(net, f.inputs[j], s) ==> Fits(ExpandStep(net), f'.inputs[j], s - {net.repeats[0].id})
    {
      assert f.inputs[j] in f.inputs;
      InstFits(net, f.inputs[j], i, s);
    }
    forall j | 0 <= j < |f.inputs| ensures DeclaredName(ExpandStep(net), f'.inputs[j]) {
      assert f.inputs[j] in f.inputs;
      InstFits(net, f.inputs[j], i, {});
    }
  }

  /** What a copied marker carries is no parameter. */
  lemma CopyCarries(net: Net, origins: Origins, f: Function, f': Function, i: int)
    requires Expandable(net) && Traced(net, origins) && f in net.funcs && 0 <= i < net.repeats[0].times && Copy(net, f, f', i)
    requires LoopMarker(net, f)
    ensures net.repeats[0].times >= 1
    ensures forall j, s :: 0 <= j < |f.inputs| && Carries(f, j) && Exactly(net, f.inputs[j], s) ==>
              Exactly(ExpandStep(net), f'.inputs[j], s - {net.repeats[0].id})
  {
    hide Expandable, Placed, ExpandStep, Inst, DeclaredName, Exactly, HandsOn, Before, LoopsOf, LoopOf;
    Parts(net);
    PlacedShape(net, f);
    OtherLoop(net, f);
    LaterLoops(net);
    StepVars(net);
    assert Clear(f, origins);
    forall j, s | 0 <= j < |f.inputs| && Carries(f, j) && Exactly(net, f.inputs[j], s)
      ensures Exactly(ExpandStep(net), f'.inputs[j], s - {net.repeats[0].id})
    {
      assert f.inputs[j] in f.inputs;
      InstCarried(net, origins, f.inputs[j], i, s, LoopOf(f));
    }
  }

  lemma StillMarker(net: Net, f: Function, f': Function)
    requires Expandable(net) && !IsMarkerOf(f, net.repeats[0].id) && f'.kind == f.kind && LoopOf(f') == LoopOf(f)
    ensures net.repeats[0].times >= 1 && (LoopMarker(ExpandStep(net), f') <==> LoopMarker(net, f))
  {
    hide Expandable, ExpandStep, LoopsOf;
    Parts(net);
  }

  lemma CopyPlaced(net: Net, origins: Origins, f: Function, f': Function, i: int)
    requires Expandable(net) && Traced(net, origins) && f in net.funcs && 0 <= i < net.repeats[0].times && Copy(net, f, f', i)
    ensures net.repeats[0].times >= 1 && Placed(ExpandStep(net), f')
  {
    hide Expandable, ExpandStep, Inst, DeclaredName, Ids, IsParam, Exactly, Fits, LoopMarker, LoopOf, Traced;
    Parts(net);
    assert Placed(net, f);
    var r, net' := net.repeats[0], ExpandStep(net);
    CopyShape(net, f, f', i);
    CopyOutputs(net, f, f', i);
    CopyInputs(net, f, f', i);
    StillMarker(net, f, f');
    if !LoopMarker(net, f) {
      forall j | 0 <= j < |f'.inputs| ensures Fits(net', f'.inputs[j], Own(f')) {
        assert f.inputs[j] in f.inputs;
      }
    } else {
      OtherLoop(net, f);
      CopyCarries(net, origins, f, f', i);
      assert Own(f') - {LoopOf(f)} == Own(f) - {LoopOf(f)} - {r.id};
      assert Own(f') + {LoopOf(f)} == Own(f) + {LoopOf(f)} - {r.id};
      if f.kind == "RecurrentInput" {
        forall j | 0 <= j < |f'.inputs| ensures Fits(net', f'.inputs[j], Own(f') - {LoopOf(f)}) {
          assert f.inputs[j] in f.inputs;
        }
      }
      NotItself(net', f', LoopOf(f));
      assert PlacedMarker(net', f', LoopOf(f'));
    }
  }

  /** What varies with one more loop than the outputs is none of them. */
  lemma NotItself(net: Net, f: Function, b: string)
    requires |f.inputs| > 0 && forall o :: o in f.outputs ==> Exactly(net, o, Own(f))
    ensures b !in Own(f) && Exactly(net, f.inputs[0], Own(f) + {b}) ==> f.inputs[0] !in f.outputs
  {
    hide IsParam, Ids, Own;
  }

  lemma OtherLoop(net: Net, f: Function)
    requires |net.repeats| > 0 && LoopMarker(net, f) && !IsMarkerOf(f, net.repeats[0].id)
    ensures LoopOf(f) != net.repeats[0].id && MarkerKind(f.kind)
  {
  }

  lemma SplitPlaced(net: Net, f: Function)
    requires Expandable(net) && f in net.funcs && IsMarkerOf(f, net.repeats[0].id) && f.kind == "RecurrentInput"
    ensures net.repeats[0].times >= 1 && Placed(ExpandStep(net), SplitOf(net.repeats[0], f))
  {
    hide Expandable, ExpandStep, Inst, DeclaredName, Ids, IsParam, Fits, Direct;
    Parts(net);
    SplitNames(net, f);
    var r, o, net', f' := net.repeats[0], f.outputs[0], ExpandStep(net), SplitOf(net.repeats[0], f);
    forall k | 0 <= k < |f'.outputs| ensures DeclaredName(net', f'.outputs[k]) && Exactly(net', f'.outputs[k], Own(f')) {
      InstExactly(net, o, k);
      ExactIds(net, o, Own(f));
    }
    forall h, k | 0 <= h < k < |f'.outputs| ensures f'.outputs[h] != f'.outputs[k] {
      ExactIds(net, o, Own(f));
      if f'.outputs[h] == f'.outputs[k] {
        InstTells(net, o, h, o, k);
      }
    }
    forall x | x in f'.inputs ensures DeclaredName(net', x) && Fits(net', x, Own(f')) {
      InstFits(net, x, 0, Own(f) - {r.id});
      assert Own(f) - {r.id} - {r.id} == Own(f');
    }
  }

  lemma ExactIds(net: Net, x: string, s: set<string>)
    ensures Exactly(net, x, s) ==> Ids(net, x) == s && !IsParam(net, x)
  {
  }

  lemma StackPlaced(net: Net, f: Function)
    requires Expandable(net) && f in net.funcs && IsMarkerOf(f, net.repeats[0].id) && f.kind == "RecurrentOutput"
    ensures net.repeats[0].times >= 1 && Placed(ExpandStep(net), StackOf(net.repeats[0], f))
  {
    hide Expandable, ExpandStep, Inst, DeclaredName, Ids, IsParam, Fits, Direct, PlacedMarker;
    Parts(net);
    StackNames(net, f);
    PlacedShape(net, f);
    var r, o, x, net', f' := net.repeats[0], f.outputs[0], f.inputs[0], ExpandStep(net), StackOf(net.repeats[0], f);
    InstExactly(net, o, 0);
    ExactIds(net, o, Own(f));
    assert Own(f) - {r.id} == Own(f) == Own(f');
    ExactIds(net, x, Own(f) + {r.id});
    assert Own(f) + {r.id} - {r.id} == Own(f');
    forall k | 0 <= k < |f'.inputs| ensures DeclaredName(net', f'.inputs[k]) && Fits(net', f'.inputs[k], Own(f')) {
      InstExactly(net, x, k);
      ExactlyFits(net', f'.inputs[k], Own(f'));
    }
  }

  lemma StepPlaced(net: Net, origins: Origins, f': Function)
    requires Expandable(net) && Traced(net, origins) && net.repeats[0].times >= 1 && f' in ExpandStep(net).funcs
    ensures Placed(ExpandStep(net), f')
  {
    hide Expandable, ExpandStep, Placed, Copy, BodyFunction, SplitOf, StackOf, OutsideInputs, Replacement;
    StepLoops(net);
    var f, i := Replaced(net, f');
    ReplacementCases(net, f, i);
    if IsMarkerOf(f, net.repeats[0].id) {
      if f.kind == "RecurrentInput" {
        SplitPlaced(net, f);
      } else {
        StackPlaced(net, f);
      }
    } else {
      var j := ReplacementCopy(net, f, i);
      CopyPlaced(net, origins, f, f', j);
    }
  }

  lemma ReplacementCases(net: Net, f: Function, i: int)
    requires |net.repeats| > 0 && 0 <= i < net.repeats[0].times && !Removed(net.repeats[0], f)
    ensures var r := net.repeats[0]; var f' := Replacement(net, r, f, i);
            IsMarkerOf(f, r.id) ==>
              if f.kind == "RecurrentInput" then f' == SplitOf(r, f) else f.kind == "RecurrentOutput" && f' == StackOf(r, f)
  {
    hide SplitOf, StackOf, BodyFunction, OutsideInputs;
  }

  lemma ReplacementCopy(net: Net, f: Function, i: int) returns (j: int)
    requires Expandable(net) && f in net.funcs && 0 <= i < net.repeats[0].times && !IsMarkerOf(f, net.repeats[0].id)
    ensures 0 <= j < net.repeats[0].times && Copy(net, f, Replacement(net, net.repeats[0], f, i), j)
    ensures net.repeats[0].id in Own(f) ==> j == i
  {
    hide Expandable, Copy, BodyFunction, OutsideInputs;
    Parts(net);
    if net.repeats[0].id in f.repeatIds {
      BodyCopy(net, f, i);
      j := i;
    } else {
      OutsideCopy(net, f);
      j := net.repeats[0].times - 1;
    }
  }

  // ---- Origins ---------------------------------------------------------------------------------

  /** An instance's value may become what its original's value may become. */
  ghost function OriginsAfter(net: Net, origins: Origins): Origins
    requires |net.repeats| > 0
  {
    (y: string) => if HasOriginal(net, y) then origins(Original(net, y).0) else {}
  }

  lemma OriginsOfPlain(net: Net, origins: Origins, x: string, i: int)
    requires Expandable(net) && DeclaredName(net, x) && Plain(net, net.repeats[0], x) && 0 <= i < net.repeats[0].times
    ensures |net.repeats| > 0 && OriginsAfter(net, origins)(Inst(net, net.repeats[0], x, i)) == origins(x)
  {
    hide Expandable, Inst, DeclaredName, Plain, Ids, HasOriginal, Original;
    Parts(net);
    var r := net.repeats[0];
    if r.id in Ids(net, x) {
      OriginalIs(net, Inst(net, r, x, i), x, i);
    } else {
      InstOutside(net, x, i, r.times - 1);
      OriginalIs(net, Inst(net, r, x, i), x, r.times - 1);
    }
  }

  /** `x` may become what `s` may become, and a parameter if `s` is one. */
  ghost predicate Inherits(net: Net, origins: Origins, x: string, s: string, c: string) {
    && (forall q: Origin :: q.loop == c && q in origins(s) ==> q in origins(x))
    && (IsParam(net, s) && !IsParam(net, x) ==> Parameter(c) in origins(x))
  }

  lemma MarkerInherits(net: Net, origins: Origins, m: Function, x: string, j: nat, c: string)
    requires WellShaped(m) && MarkerKind(m.kind) && HandsOn(net, m, origins) && j < |m.inputs| && m.outputs == [x]
    requires Before(net.repeats, LoopOf(m), c)
    ensures Inherits(net, origins, x, m.inputs[j], c)
  {
    hide Before, IsParam;
  }

  lemma FoundInherits(net: Net, origins: Origins, kind: string, x: string, j: nat, c: string)
    requires Expandable(net) && Traced(net, origins) && Before(net.repeats, net.repeats[0].id, c)
    requires HandsThrough(kind) && Marker(net, net.repeats[0], kind, x).Some?
    requires j < |Marker(net, net.repeats[0], kind, x).value.inputs|
    ensures Inherits(net, origins, x, Input(Marker(net, net.repeats[0], kind, x).value, j), c)
    ensures !IsParam(net, x)
  {
    hide Expandable, Ids, FindMarker, Placed, IsParam, Before, LoopMarker, PlacedMarker, Finds, HandsOn, Clear, Inherits;
    Parts(net);
    FoundMarker(net, kind, x);
    MarkerInherits(net, origins, Marker(net, net.repeats[0], kind, x).value, x, j, c);
  }

  lemma InheritsThrough(net: Net, origins: Origins, x: string, y: string, s: string, c: string)
    requires Inherits(net, origins, x, y, c) && Inherits(net, origins, y, s, c)
    ensures Inherits(net, origins, x, s, c)
  {
  }

  lemma InheritsSelf(net: Net, origins: Origins, x: string, c: string)
    ensures Inherits(net, origins, x, x, c)
  {
  }

  lemma EndInherits(net: Net, origins: Origins, x: string, c: string)
    requires Expandable(net) && Traced(net, origins) && Before(net.repeats, net.repeats[0].id, c)
    ensures Inherits(net, origins, x, EndSource(net, net.repeats[0], x).0, c)
  {
    hide *;
    Parts(net);
    Passing();
    EndSourceIs(net, net.repeats[0], x);
    if Marker(net, net.repeats[0], "RepeatEnd", x).Some? {
      FoundHasInputs(net, "RepeatEnd", x);
      FoundInherits(net, origins, "RepeatEnd", x, 0, c);
    } else {
      InheritsSelf(net, origins, x, c);
    }
  }

  lemma FoundHasInputs(net: Net, kind: string, x: string)
    requires Expandable(net) && HandsThrough(kind) && Marker(net, net.repeats[0], kind, x).Some?
    ensures var m := Marker(net, net.repeats[0], kind, x).value;
            |m.inputs| == if kind == "RepeatEnd" then 1 else 2
  {
    hide Expandable, FindMarker, Placed, Finds, IsParam, Ids;
    Parts(net);
    FoundMarker(net, kind, x);
  }

  lemma SourceInherits(net: Net, origins: Origins, x: string, i: int, c: string)
    requires Expandable(net) && Traced(net, origins) && Before(net.repeats, net.repeats[0].id, c)
    requires DeclaredName(net, x) && 0 <= i < net.repeats[0].times
    ensures Inherits(net, origins, x, Source(net, net.repeats[0], x, i).0, c)
  {
    hide Expandable, FindMarker, IsParam, Before, Inherits, Traced, EndSource, DeclaredName;
    Parts(net);
    var r := net.repeats[0];
    InheritsSelf(net, origins, x, c);
    if IsParam(net, x) {
    } else if Marker(net, r, "RepeatStart", x).Some? {
      FoundHasInputs(net, "RepeatStart", x);
      var m := Marker(net, r, "RepeatStart", x).value;
      FoundInherits(net, origins, "RepeatStart", x, if i == 0 then 0 else 1, c);
      if i == 0 {
        EndInherits(net, origins, m.inputs[0], c);
        InheritsThrough(net, origins, x, m.inputs[0], EndSource(net, r, m.inputs[0]).0, c);
      }
    } else if Marker(net, r, "RepeatEnd", x).Some? {
      EndInherits(net, origins, x, c);
    } else if Marker(net, r, "Delay", x).Some? {
      FoundHasInputs(net, "Delay", x);
      FoundInherits(net, origins, "Delay", x, if i == 0 then 1 else 0, c);
    }
  }

  lemma ParamOrigin(net: Net, origins: Origins, x: string, i: int, c: string)
    requires Expandable(net) && Traced(net, origins) && Before(net.repeats, net.repeats[0].id, c)
    requires DeclaredName(net, x) && 0 <= i < net.repeats[0].times && !IsParam(net, x)
    ensures IsParam(net, Source(net, net.repeats[0], x, i).0) ==> Parameter(c) in origins(x)
  {
    hide Expandable, Source, IsParam, Before, Traced;
    Parts(net);
    SourceInherits(net, origins, x, i, c);
  }

  /** An instance may become no more than its original. */
  lemma InstOrigins(net: Net, origins: Origins, x: string, i: int, c: string)
    requires Expandable(net) && Traced(net, origins) && DeclaredName(net, x) && 0 <= i < net.repeats[0].times
    requires Before(net.repeats, net.repeats[0].id, c)
    ensures |net.repeats| > 0 && net.repeats[0].times >= 1
    ensures forall q: Origin :: q.loop == c && q in OriginsAfter(net, origins)(Inst(net, net.repeats[0], x, i)) ==> q in origins(x)
    ensures IsParam(ExpandStep(net), Inst(net, net.repeats[0], x, i)) && !IsParam(net, x) ==> Parameter(c) in origins(x)
  {
    hide Expandable, Inst, ResolvesTo, DeclaredName, Source, IsParam, Before, Traced, OriginsAfter, ExpandStep, Plain;
    Parts(net);
    var s := Source(net, net.repeats[0], x, i);
    Resolves(net, x, i);
    ResolvedIs(net, x, i, s.0, s.1);
    OriginsOfPlain(net, origins, s.0, s.1);
    SourceInherits(net, origins, x, i, c);
    PlainName(net, s.0, s.1);
  }

  lemma ResolvedIs(net: Net, x: string, i: int, s: string, j: int)
    requires |net.repeats| > 0 && ResolvesTo(net, x, i, s, j)
    ensures var r := net.repeats[0];
            && DeclaredName(net, s) && Plain(net, r, s) && 0 <= i < r.times && 0 <= j < r.times
            && Inst(net, r, x, i) == Inst(net, r, s, j)
  {
  }

  lemma LaterLoops(net: Net)
    requires |net.repeats| > 0 && DistinctIds(net.repeats)
    ensures forall b :: b in LoopsOf(net.repeats[1..]) ==> Before(net.repeats, net.repeats[0].id, b)
    ensures forall b, c :: Before(net.repeats[1..], b, c) ==> Before(net.repeats, b, c) && Before(net.repeats, net.repeats[0].id, c)
  {
    var rest := net.repeats[1..];
    forall b | b in LoopsOf(rest) ensures Before(net.repeats, net.repeats[0].id, b) {
      var k := LoopAt(rest, b);
      assert net.repeats[k + 1].id == b;
    }
    forall b, c | Before(rest, b, c) ensures Before(net.repeats, b, c) && Before(net.repeats, net.repeats[0].id, c) {
      var i, j :| 0 <= i < j < |rest| && rest[i].id == b && rest[j].id == c;
      assert net.repeats[i + 1].id == b && net.repeats[j + 1].id == c;
    }
  }

  lemma {:induction false} LoopAt(repeats: seq<Repeat>, id: string) returns (k: nat)
    requires id in LoopsOf(repeats)
    ensures k < |repeats| && repeats[k].id == id
  {
    if repeats[0].id == id {
      k := 0;
    } else {
      k := LoopAt(repeats[1..], id);
      k := k + 1;
    }
  }

  /** A copied marker hands on no more than the original, and asks for nothing worse. */
  lemma CopyTraced(net: Net, origins: Origins, f: Function, f': Function, i: int)
    requires Expandable(net) && Traced(net, origins) && f in net.funcs && 0 <= i < net.repeats[0].times && Copy(net, f, f', i)
    requires LoopMarker(net, f)
    ensures |net.repeats| > 0 && net.repeats[0].times >= 1
    ensures WellShaped(f') && MarkerKind(f'.kind) && Clear(f', OriginsAfter(net, origins))
    ensures HandsThrough(f.kind) ==> HandsOn(ExpandStep(net), f', OriginsAfter(net, origins))
  {
    hide Expandable, Inst, DeclaredName, Ids, FindMarker, Placed, IsParam, Before, Direct, Fits, OriginsAfter,
         ExpandStep, Own, LoopOf;
    Parts(net);
    PlacedShape(net, f);
    CopyShape(net, f, f', i);
    LaterLoops(net);
    OtherLoop(net, f);
    var r, o, b, after := net.repeats[0], f.outputs[0], LoopOf(f), OriginsAfter(net, origins);
    assert Clear(f, origins) && o in f.outputs;
    KeptOutput(net, f, o);
    OriginsOfPlain(net, origins, o, i);
    assert f'.outputs[0] == Inst(net, r, o, i);
    assert Before(net.repeats, r.id, b);
    forall j, c | 0 <= j < |f.inputs| && Before(net.repeats, r.id, c)
      ensures forall q: Origin :: q.loop == c && q in after(f'.inputs[j]) ==> q in origins(f.inputs[j])
      ensures IsParam(ExpandStep(net), f'.inputs[j]) ==> IsParam(net, f.inputs[j]) || Parameter(c) in origins(f.inputs[j])
    {
      assert f.inputs[j] in f.inputs;
      InstOrigins(net, origins, f.inputs[j], i, c);
    }
    if HandsThrough(f.kind) {
      CopyHandsOn(net, f, f', origins, after);
    }
  }

  lemma CopyHandsOn(net: Net, f: Function, f': Function, origins: Origins, after: Origins)
    requires |net.repeats| > 0 && net.repeats[0].times >= 1 && DistinctIds(net.repeats)
    requires WellShaped(f) && WellShaped(f') && MarkerKind(f.kind) && f'.kind == f.kind && LoopOf(f') == LoopOf(f)
    requires HandsOn(net, f, origins) && |f'.inputs| == |f.inputs| && after(f'.outputs[0]) == origins(f.outputs[0])
    requires forall j, q: Origin :: 0 <= j < |f.inputs| && Before(net.repeats, net.repeats[0].id, q.loop) && q in after(f'.inputs[j]) ==>
               q in origins(f.inputs[j])
    requires forall j, c :: 0 <= j < |f.inputs| && Before(net.repeats, net.repeats[0].id, c) && IsParam(ExpandStep(net), f'.inputs[j]) ==>
               IsParam(net, f.inputs[j]) || Parameter(c) in origins(f.inputs[j])
    ensures HandsOn(ExpandStep(net), f', after)
  {
    LaterLoops(net);
    StepVars(net);
    hide IsParam, Before, ExpandStep, LoopOf;
  }

  lemma StepTraced(net: Net, origins: Origins)
    requires Expandable(net) && Traced(net, origins)
    ensures |net.repeats| > 0 && net.repeats[0].times >= 1 && Traced(ExpandStep(net), OriginsAfter(net, origins))
  {
    hide Expandable, Placed, Copy, ExpandStep, Replacement, OriginsAfter, HandsOn, Clear, LoopsOf;
    StepLoops(net);
    var net' := ExpandStep(net);
    forall f' | f' in net'.funcs && WellShaped(f') && LoopMarker(net', f')
      ensures Clear(f', OriginsAfter(net, origins))
      ensures HandsThrough(f'.kind) ==> HandsOn(net', f', OriginsAfter(net, origins))
    {
      var f, i := Replaced(net, f');
      ReplacementKind(net, net.repeats[0], f, i);
      var j := ReplacementCopy(net, f, i);
      StillMarker(net, f, f');
      CopyTraced(net, origins, f, f', j);
    }
  }

  lemma StepVariables(net: Net, v: Variable)
    requires Expandable(net) && net.repeats[0].times >= 1 && v in ExpandStep(net).vars
    ensures Distinct(v.repeatIds)
  {
    hide Expandable, ExpandVariables, ExpandFunctions;
    Parts(net);
    var w, i := InstanceSource(net.repeats[0], net.vars, v);
    DeletedId(w.repeatIds, net.repeats[0].id);
  }

  /** Expanding the first loop of a well-formed network leaves a well-formed network. */
  lemma StepWellFormed(net: Net)
    requires WellFormed(net) && |net.repeats| > 0
    ensures net.repeats[0].times >= 1 && WellFormed(ExpandStep(net))
  {
    hide Placed, Traced, ExpandVariables, ExpandFunctions, SingleWriter, NoTwice, Distinct;
    FirstExpandable(net);
    var origins :| Traced(net, origins);
    hide Expandable;
    StepTraced(net, origins);
    StepSingleWriter(net);
    forall f | f in ExpandStep(net).funcs ensures Placed(ExpandStep(net), f) {
      StepPlaced(net, origins, f);
    }
    forall v | v in ExpandStep(net).vars ensures Distinct(v.repeatIds) {
      StepVariables(net, v);
    }
  }
}
