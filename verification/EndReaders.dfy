/** Functions inside a loop that read what the loop's own RepeatEnd hands out.  For them the expander's tables
    give the iteration at hand, not the last one: it expands the network in which they read, like the
    RepeatEnd, what stands in front of it. */
module EndReaders {
  import opened Network
  import opened Unroll
  import opened Wrappers
  import opened Placement
  import opened LoopMeaning

  /** Inside the loop, a RepeatEnd's output is resolved to its input in the same iteration; outside, and by
      its meaning, to its input in the last.  The two agree in the last iteration and in no other. */
  lemma EndReaderExactly(net: Net, x: string, i: int)
    requires Expandable(net) && 0 <= i < net.repeats[0].times && Marker(net, net.repeats[0], "RepeatEnd", x).Some?
    ensures var r := net.repeats[0]; var m := Marker(net, r, "RepeatEnd", x).value;
            && BodyInput(net, r, x, i) == Inst(net, r, Input(m, 0), i)
            && EndOr(net, r, x, r.times - 1, x) == Inst(net, r, x, i) == Inst(net, r, Input(m, 0), r.times - 1)
            && (BodyInput(net, r, x, i) == Inst(net, r, x, i) <==> i == r.times - 1)
  {
    hide Expandable, AllFramed, FindMarker, Placed, PlacedMarker, Framed, Finds, IsParam, Ids, DeclaredName, EndSource,
         GenName, OldName;
    Parts(net);
    var r := net.repeats[0];
    FoundMarker(net, "RepeatEnd", x);
    var m := Marker(net, r, "RepeatEnd", x).value;
    EndMarkerInput(net, m);
    MarkerIs(net, m, "RepeatStart", x);
    assert m.inputs[0] in m.inputs && x in m.outputs;
    InstDirect(net, m.inputs[0], i);
    InstDirect(net, m.inputs[0], r.times - 1);
    if BodyInput(net, r, x, i) == Inst(net, r, x, i) {
      InstTells(net, m.inputs[0], i, m.inputs[0], r.times - 1);
    }
  }

  /** What a RepeatEnd of the loop reads has an instance for every iteration. */
  lemma EndMarkerInput(net: Net, m: Function)
    requires Expandable(net) && m in net.funcs && IsMarkerOf(m, net.repeats[0].id) && m.kind == "RepeatEnd"
    ensures |m.inputs| == 1 && Direct(net, net.repeats[0], m.inputs[0]) && net.repeats[0].id in Ids(net, m.inputs[0])
  {
    hide Expandable, Placed, Finds, IsParam, Ids;
    Parts(net);
    MarkerPlaced(net, m);
    CarriedKept(net, net.repeats[0], m, 0);
    KeptDirect(net, m.inputs[0], Own(m) + {net.repeats[0].id});
  }

  // ---- Reading in front of the RepeatEnd -------------------------------------------------------

  function InFront(net: Net, r: Repeat, x: string): string {
    var m := Marker(net, r, "RepeatEnd", x);
    if m.Some? then Input(m.value, 0) else x
  }

  function BodyInFront(net: Net, r: Repeat, x: string): string {
    if IsParam(net, x) || Marker(net, r, "RepeatStart", x).Some? then x else InFront(net, r, x)
  }

  function AllInFront(net: Net, r: Repeat, xs: seq<string>): (ys: seq<string>)
    ensures |ys| == |xs| && forall j :: 0 <= j < |xs| ==> ys[j] == BodyInFront(net, r, xs[j])
  {
    seq(|xs|, j requires 0 <= j < |xs| => BodyInFront(net, r, xs[j]))
  }

  /** A function of the loop's body, or the update of a RepeatStart, moved in front of the RepeatEnd. */
  function Moved(net: Net, r: Repeat, f: Function): Function {
    if IsMarkerOf(f, r.id) then
      if f.kind == "RepeatStart" && |f.inputs| == 2 then f.(inputs := [f.inputs[0], InFront(net, r, f.inputs[1])]) else f
    else if r.id in f.repeatIds then f.(inputs := AllInFront(net, r, f.inputs))
    else f
  }

  function MovedFrom(net: Net, r: Repeat, funcs: seq<Function>): (ms: seq<Function>)
    ensures |ms| == |funcs| && forall k :: 0 <= k < |funcs| ==> ms[k] == Moved(net, r, funcs[k])
  {
    seq(|funcs|, k requires 0 <= k < |funcs| => Moved(net, r, funcs[k]))
  }

  /** The network whose loop body reads in front of the RepeatEnds of its first loop. */
  function Rewired(net: Net): Net
    requires |net.repeats| > 0
  {
    net.(funcs := MovedFrom(net, net.repeats[0], net.funcs))
  }

  /** Moving a marker changes at most the second input of a RepeatStart. */
  lemma MovedMarker(net: Net, r: Repeat, f: Function)
    ensures var f' := Moved(net, r, f);
            && f'.kind == f.kind && LoopOf(f') == LoopOf(f) && f'.outputs == f.outputs && |f'.inputs| == |f.inputs|
            && (IsMarkerOf(f, r.id) && f.kind != "RepeatStart" ==> f' == f)
  {
    hide AllInFront, InFront;
  }

  lemma {:induction false} MovedTable(net: Net, r: Repeat, funcs: seq<Function>, kind: string, x: string)
    ensures var m := FindMarker(funcs, kind, r.id, x);
            FindMarker(MovedFrom(net, r, funcs), kind, r.id, x) == if m.Some? then Some(Moved(net, r, m.value)) else None
  {
    hide Moved;
    if funcs != [] {
      var rest, f := funcs[..|funcs| - 1], funcs[|funcs| - 1];
      MovedTable(net, r, rest, kind, x);
      MovedMarker(net, r, f);
      assert MovedFrom(net, r, funcs)[..|rest|] == MovedFrom(net, r, rest);
    }
  }

  /** The tables of both networks: only a RepeatStart's second input differs. */
  lemma RewiredTables(net: Net, x: string)
    requires |net.repeats| > 0
    ensures var r, net' := net.repeats[0], Rewired(net);
            && Marker(net', r, "RepeatEnd", x) == Marker(net, r, "RepeatEnd", x)
            && Marker(net', r, "Delay", x) == Marker(net, r, "Delay", x)
            && Marker(net', r, "RepeatStart", x).Some? == Marker(net, r, "RepeatStart", x).Some?
            && (Marker(net, r, "RepeatStart", x).Some? ==>
                  Marker(net', r, "RepeatStart", x).value == Moved(net, r, Marker(net, r, "RepeatStart", x).value))
            && (IsParam(net', x) <==> IsParam(net, x)) && Ids(net', x) == Ids(net, x)
  {
    hide FindMarker, Moved, LoopsOf, IdsOf;
    var r := net.repeats[0];
    forall kind | kind == "RepeatEnd" || kind == "Delay" ensures Marker(Rewired(net), r, kind, x) == Marker(net, r, kind, x) {
      MovedTable(net, r, net.funcs, kind, x);
      MarkerFound(net.funcs, kind, r.id, x);
      if Marker(net, r, kind, x).Some? {
        MovedMarker(net, r, Marker(net, r, kind, x).value);
      }
    }
    MovedTable(net, r, net.funcs, "RepeatStart", x);
  }

  /** What stands in front of a RepeatEnd is handed out by no marker. */
  lemma FrontDirect(net: Net, x: string)
    requires |net.repeats| > 0 && Expandable(Rewired(net)) && Marker(net, net.repeats[0], "RepeatEnd", x).Some?
    ensures var r := net.repeats[0]; var y := InFront(net, r, x);
            && !IsParam(net, y) && Marker(net, r, "RepeatStart", y).None? && Marker(net, r, "RepeatEnd", y).None?
            && Marker(net, r, "Delay", y).None?
  {
    hide FindMarker, Moved, LoopsOf, IdsOf, Expandable, IsParam, MovedFrom, Ids, Placed, PlacedMarker, Finds;
    var net' := Rewired(net);
    RewiredTables(net, x);
    FoundMarker(net', "RepeatEnd", x);
    var m := Marker(net', net.repeats[0], "RepeatEnd", x).value;
    EndMarkerInput(net', m);
    RewiredTables(net, m.inputs[0]);
  }

  lemma SameEndOr(net: Net, x: string, i: nat, other: string)
    requires |net.repeats| > 0
    ensures EndOr(Rewired(net), net.repeats[0], x, i, other) == EndOr(net, net.repeats[0], x, i, other)
  {
    hide Marker, Rewired;
    RewiredTables(net, x);
  }

  /** A RepeatStart's table entry does not change when its update is moved. */
  lemma SameStart(net: Net, x: string, i: int)
    requires |net.repeats| > 0 && Expandable(Rewired(net)) && Marker(net, net.repeats[0], "RepeatStart", x).Some?
    requires 0 <= i < net.repeats[0].times
    ensures var r := net.repeats[0]; var net' := Rewired(net);
            var m, m' := Marker(net, r, "RepeatStart", x).value, Moved(net, r, Marker(net, r, "RepeatStart", x).value);
            && EndOr(net, r, Input(m, 0), r.times - 1, Input(m, 0)) == EndOr(net', r, Input(m', 0), r.times - 1, Input(m', 0))
            && (i > 0 ==>
                  (EndOr(net, r, Input(m, 1), i - 1, GenName(Input(m, 1), r.id, i - 1))
                   == EndOr(net', r, Input(m', 1), i - 1, GenName(Input(m', 1), r.id, i - 1))))
  {
    hide Marker, Rewired, Expandable, GenName, LoopsOf, IdsOf, PlacedMarker, Finds, Placed, IsParam, Ids;
    var r, net' := net.repeats[0], Rewired(net);
    var m := Marker(net, r, "RepeatStart", x).value;
    var m' := Moved(net, r, m);
    RewiredTables(net, x);
    StepIsSame(net);
    FoundMarker(net', "RepeatStart", x);
    StartInputs(net', m');
    MovedMarker(net, r, m);
    assert |m.inputs| == 2;
    SameEndOr(net, m.inputs[0], r.times - 1, m.inputs[0]);
    if i > 0 {
      var y := InFront(net, r, m.inputs[1]);
      if Marker(net, r, "RepeatEnd", m.inputs[1]).Some? {
        FrontDirect(net, m.inputs[1]);
      }
      SameEndOr(net, y, i - 1, GenName(y, r.id, i - 1));
      assert m'.inputs == [m.inputs[0], y];
    }
  }

  lemma StepIsSame(net: Net)
    requires |net.repeats| > 0
    ensures Rewired(net).repeats == net.repeats && Rewired(net).vars == net.vars
  {
  }

  lemma StartInputs(net: Net, m: Function)
    requires WellShaped(m) && m.kind == "RepeatStart" && PlacedMarker(net, m, LoopOf(m))
    ensures |m.inputs| == 2
  {
  }

  /** The tables resolve a moved input to the same name. */
  lemma SameBodyInput(net: Net, x: string, i: int)
    requires |net.repeats| > 0 && Expandable(Rewired(net)) && 0 <= i < net.repeats[0].times
    ensures var r := net.repeats[0];
            BodyInput(Rewired(net), r, BodyInFront(net, r, x), i) == BodyInput(net, r, x, i)
  {
    hide Marker, Rewired, Expandable, GenName, OldName, LoopsOf, IdsOf, IsParam, Moved;
    var r := net.repeats[0];
    var y := BodyInFront(net, r, x);
    RewiredTables(net, x);
    RewiredTables(net, y);
    IdsAre(net, x);
    IdsAre(Rewired(net), x);
    if IsParam(net, x) {
    } else if Marker(net, r, "RepeatStart", x).Some? {
      SameStart(net, x, i);
    } else if Marker(net, r, "RepeatEnd", x).Some? {
      FrontDirect(net, x);
    }
  }

  lemma SameFunction(net: Net, f: Function)
    requires |net.repeats| > 0 && Expandable(Rewired(net)) && net.repeats[0].times >= 1
    ensures var r := net.repeats[0]; ExpandFunction(Rewired(net), r, Moved(net, r, f)) == ExpandFunction(net, r, f)
  {
    hide BodyInput, EndOr, Rewired, Expandable, GenName, BodyInFront, InFront;
    var r, net', f' := net.repeats[0], Rewired(net), Moved(net, net.repeats[0], f);
    MovedMarker(net, r, f);
    if IsMarkerOf(f, r.id) {
    } else if r.id in f.repeatIds {
      forall i | 0 <= i < r.times ensures BodyFunction(net', r, f', i) == BodyFunction(net, r, f, i) {
        forall j | 0 <= j < |f.inputs| ensures BodyInput(net', r, f'.inputs[j], i) == BodyInput(net, r, f.inputs[j], i) {
          SameBodyInput(net, f.inputs[j], i);
        }
        assert BodyInputs(net', r, f'.inputs, i) == BodyInputs(net, r, f.inputs, i);
      }
      assert ExpandFunction(net', r, f') == ExpandFunction(net, r, f);
    } else {
      forall j | 0 <= j < |f.inputs|
        ensures EndOr(net', r, f.inputs[j], r.times - 1, f.inputs[j]) == EndOr(net, r, f.inputs[j], r.times - 1, f.inputs[j])
      {
        SameEndOr(net, f.inputs[j], r.times - 1, f.inputs[j]);
      }
      assert OutsideInputs(net', r, f.inputs) == OutsideInputs(net, r, f.inputs);
    }
  }

  lemma {:induction false} SameFunctions(net: Net, funcs: seq<Function>)
    requires |net.repeats| > 0 && Expandable(Rewired(net)) && net.repeats[0].times >= 1
    ensures var r := net.repeats[0]; ExpandFunctions(Rewired(net), r, MovedFrom(net, r, funcs)) == ExpandFunctions(net, r, funcs)
  {
    hide ExpandFunction, Rewired, Expandable, Moved;
    if funcs != [] {
      var r, rest := net.repeats[0], funcs[..|funcs| - 1];
      SameFunctions(net, rest);
      SameFunction(net, funcs[|funcs| - 1]);
      assert MovedFrom(net, r, funcs)[..|rest|] == MovedFrom(net, r, rest);
    }
  }

  /** Whatever its loop body reads behind the RepeatEnds, a network expands like the one that reads in front
      of them, and so means the same. */
  lemma ReadersMoved(net: Net, layers: Layers, a: Assignment)
    requires |net.repeats| > 0 && Expandable(Rewired(net))
    ensures net.repeats[0].times >= 1 && HasLoop(Rewired(net)) && ExpandStep(net) == ExpandStep(Rewired(net))
    ensures Solves(ExpandStep(net), layers, a) <==> Solves(Rewired(net), layers, Fold(Rewired(net), a))
  {
    hide Expandable, Rewired, ExpandFunctions, Solves, Fold;
    Parts(Rewired(net));
    StepIsSame(net);
    SameFunctions(net, net.funcs);
    RewiredFuncs(net);
    StepMeaning(Rewired(net), layers, a);
  }

  lemma RewiredFuncs(net: Net)
    requires |net.repeats| > 0
    ensures Rewired(net).funcs == MovedFrom(net, net.repeats[0], net.funcs)
  {
  }
}
