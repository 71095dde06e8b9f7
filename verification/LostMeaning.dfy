/** Two networks that the expander accepts and whose meaning it loses: a RecurrentOutput that collects what a
    Delay of its loop hands out, and a layer inside a loop that reads a variable from outside. */
module LostMeaning {
  import opened Network
  import opened Unroll
  import opened Wrappers
  import opened Placement
  import opened LoopMeaning
  import opened WellFormedness
  import opened FreshNaming
  import opened LoopExamples
  import opened ChainedMarkers

  const TWICE := Repeat("R", 2)
  const BUFFERS := [Buffer("v", []), Buffer("h", ["R"]), Buffer("d", ["R"]), Buffer("y", [])]

  lemma BufferNames()
    ensures NoTwice(BUFFERS) && OneLetter(BUFFERS, {'v', 'h', 'd', 'y'})
    ensures forall v :: v in BUFFERS ==> v.kind != "Parameter" && Distinct(v.repeatIds)
  {
    var v := BUFFERS;
    assert v[0].name == "v" && v[1].name == "h" && v[2].name == "d" && v[3].name == "y";
    forall i, j | 0 <= i < j < 4 ensures v[i].name != v[j].name {
      assert v[i].name[0] != v[j].name[0];
    }
  }

  lemma TwiceRuns()
    ensures EveryLoopRuns(Net([TWICE], BUFFERS, [])) && LongestName(1, [TWICE]) == 5
  {
    assert |Decimal(2)| == 1 && [TWICE][1..] == [];
    assert LongestName(1, [TWICE]) == LongestName(5, []);
  }

  /** A network over these variables and this loop. */
  ghost predicate Small(net: Net) { net.repeats == [TWICE] && net.vars == BUFFERS }

  lemma SmallLoops(net: Net)
    requires Small(net)
    ensures ScopesOf(net).loops == map["R" := 2] && DistinctIds(net.repeats) && EveryLoopRuns(net)
    ensures ScopesOf(ExpandStep(net)).loops == map[]
  {
    assert [TWICE][1..] == [];
    assert LoopsOf([TWICE]) == map["R" := 2];
    StepVars(net);
  }

  lemma SmallFresh(net: Net)
    requires Small(net)
    ensures EveryLoopRuns(net) && NoTwice(net.vars) && NoTwice(ExpandStep(net).vars) && Uncut(net.vars, net.repeats[0])
  {
    BufferNames();
    TwiceRuns();
    StepVars(net);
    hide NoTwice, OneLetter, LongestName, Uncut, ExpandVariables;
    FreshLetters(BUFFERS, [TWICE], {'v', 'h', 'd', 'y'});
    assert FreshNames(ExpandVariables(TWICE, BUFFERS), [TWICE][1..]);
    assert |Decimal(2)| == 1;
    OneLetterWithin(BUFFERS);
    WithinStays(BUFFERS, TWICE, 1);
  }

  lemma OneLetterWithin(vars: seq<Variable>)
    requires OneLetter(vars, {'v', 'h', 'd', 'y'})
    ensures Within(vars, 1) && forall v :: v in vars && v.kind == "Parameter" ==> v.repeatIds == []
  {
  }

  lemma SmallVariable(net: Net, k: nat, x: string, ids: seq<string>, s: set<string>)
    requires Small(net) && k < 4 && BUFFERS[k] == Buffer(x, ids) && s == set id | id in ids
    ensures Declares(net, x, s)
  {
    BufferNames();
    hide NoTwice, OneLetter;
    IsDeclared(net, BUFFERS[k]);
    IdsFound(net.vars, BUFFERS[k]);
    Kind(net.vars, BUFFERS[k]);
  }

  lemma SmallVariables(net: Net)
    requires Small(net)
    ensures Declares(net, "v", {}) && Declares(net, "h", {"R"}) && Declares(net, "d", {"R"}) && Declares(net, "y", {})
  {
    var none: seq<string> := [];
    assert (set id | id in none) == {} && (set id | id in ["R"]) == {"R"};
    hide Declares;
    SmallVariable(net, 0, "v", [], {});
    SmallVariable(net, 1, "h", ["R"], {"R"});
    SmallVariable(net, 2, "d", ["R"], {"R"});
    SmallVariable(net, 3, "y", [], {});
  }

  // ---- A RecurrentOutput behind a Delay --------------------------------------------------------

  const CELL := Layer("c", "Tanh", ["d"], "h", ["R"])
  const DELAY := Recurring("n", "Delay", ["h", "v"], "d", ["R"], "R")
  const STACK := Recurring("g", "RecurrentOutput", ["d"], "y", [], "R")
  const CHAINED := Net([TWICE], BUFFERS, [CELL, DELAY, STACK])

  lemma Three(f: Function)
    ensures f in CHAINED.funcs <==> f == CELL || f == DELAY || f == STACK
  {
  }

  lemma ChainedShapes()
    ensures Own(CELL) == {"R"} && Own(DELAY) == {"R"} && Own(STACK) == {} && {"R"} - {"R"} == {} && {} + {"R"} == {"R"}
    ensures LoopOf(DELAY) == LoopOf(STACK) == "R" && WellShaped(DELAY) && WellShaped(STACK) && Closes(STACK.kind)
    ensures Distinct(CELL.repeatIds) && Distinct(DELAY.repeatIds) && Distinct(STACK.repeatIds)
    ensures LoopMarker(CHAINED, DELAY) && LoopMarker(CHAINED, STACK) && !MarkerKind(CELL.kind)
    ensures CELL.inputs == ["d"] && CELL.outputs == ["h"] && DELAY.inputs == ["h", "v"] && DELAY.outputs == ["d"]
    ensures STACK.inputs == ["d"] && STACK.outputs == ["y"] && DELAY.kind == "Delay" && STACK.kind == "RecurrentOutput"
    ensures CELL in CHAINED.funcs && DELAY in CHAINED.funcs && STACK in CHAINED.funcs
  {
    SmallLoops(CHAINED);
    Three(CELL);
    Three(DELAY);
    Three(STACK);
  }

  lemma ChainedPlaced(f: Function)
    requires f in CHAINED.funcs
    ensures Placed(CHAINED, f)
  {
    Three(f);
    SmallVariables(CHAINED);
    hide *;
    ChainedShapes();
    DeclaresFits(CHAINED, "d", {"R"});
    LayerPlaced(CHAINED, CELL, "h", {"R"});
    DelayPlaced(CHAINED, DELAY, "h", "v", "d", {"R"});
    ClosePlaced(CHAINED, STACK, "d", "y", {});
  }

  lemma ChainedWriters()
    ensures SingleWriter(CHAINED.funcs)
  {
    forall f, f', o | f in CHAINED.funcs && f' in CHAINED.funcs && o in f.outputs && o in f'.outputs ensures f == f' {
      Three(f);
      Three(f');
      assert f.outputs[0] == f'.outputs[0] == o;
    }
  }

  lemma Assemble(net: Net)
    requires Small(net) && SingleWriter(net.funcs) && forall f :: f in net.funcs ==> Placed(net, f)
    ensures AllFramed(net)
  {
    SmallLoops(net);
    SmallFresh(net);
    BufferNames();
    hide Placed, NoTwice, OneLetter, ExpandVariables, ExpandFunctions, SingleWriter, Framed;
    forall f | f in net.funcs ensures Framed(net, f) {
      PlacedShape(net, f);
    }
  }

  lemma ChainedAllFramed()
    ensures AllFramed(CHAINED) && forall f :: f in CHAINED.funcs ==> Placed(CHAINED, f)
  {
    assert Small(CHAINED);
    hide *;
    ChainedWriters();
    forall f | f in CHAINED.funcs ensures Placed(CHAINED, f) {
      ChainedPlaced(f);
    }
    Assemble(CHAINED);
  }

  lemma ChainedDelay()
    ensures Marker(CHAINED, TWICE, "Delay", "d") == Some(DELAY) && !Kept(CHAINED, TWICE, "d")
  {
    assert CHAINED.repeats[0] == TWICE && IsMarkerOf(DELAY, "R");
    ChainedAllFramed();
    ChainedShapes();
    hide AllFramed, FindMarker, Placed, CHAINED;
    MarkerIs(CHAINED, DELAY, "Delay", "d");
  }

  lemma ExpandableKept(net: Net, f: Function, j: nat)
    requires Expandable(net) && f in net.funcs && IsMarkerOf(f, net.repeats[0].id) && j < |f.inputs| && Carries(f, j)
    ensures Kept(net, net.repeats[0], f.inputs[j])
  {
    hide AllFramed, Placed;
  }

  lemma ChainedRefused()
    ensures !WellFormed(CHAINED)
  {
    assert CHAINED.repeats[0] == TWICE && IsMarkerOf(STACK, "R") && |CHAINED.repeats| > 0 && Carries(STACK, 0);
    hide *;
    ChainedDelay();
    ChainedShapes();
    if WellFormed(CHAINED) {
      FirstExpandable(CHAINED);
      ExpandableKept(CHAINED, STACK, 0);
    }
  }

  /** Everything in this network stands where it should, but its RecurrentOutput collects what has no instances:
      after expansion no layer writes what its Stack reads. */
  lemma ChainedUnwritten()
    ensures AllFramed(CHAINED) && (forall f :: f in CHAINED.funcs ==> Placed(CHAINED, f)) && !WellFormed(CHAINED)
    ensures StackOf(TWICE, STACK) in ExpandStep(CHAINED).funcs
    ensures forall j :: 0 <= j < 2 ==>
              StackOf(TWICE, STACK).inputs[j] == GenName("d", "R", j) && !Written(ExpandStep(CHAINED), GenName("d", "R", j))
  {
    assert CHAINED.repeats[0] == TWICE && |CHAINED.repeats| > 0 && CHAINED.repeats[0].id == "R";
    assert ExpandFunction(CHAINED, TWICE, STACK) == [StackOf(TWICE, STACK)];
    hide AllFramed, Placed, GenName, FindMarker, ExpandFunction, ExpandFunctions, ExpandVariables, IsParam,
         DeclaredName, CHAINED, WellFormed;
    ChainedRefused();
    ChainedDelay();
    ChainedAllFramed();
    ChainedShapes();
    SmallVariables(CHAINED);
    ExpandedFrom(CHAINED, TWICE, CHAINED.funcs);
    assert Written(CHAINED, "d");
    forall j | 0 <= j < 2 ensures !Written(ExpandStep(CHAINED), GenName("d", "R", j)) {
      KeptExactly(CHAINED, "d", j);
    }
  }

  // The values below solve the expanded network, but not the one with the loop.

  /** Values that do not depend on any loop. */
  function Flat(v: string -> Value): Assignment { (x: string, idx: Index) => v(x) }

  /** Seen through the loop, a variable has the value of its instance. */
  lemma FlatReads(net: Net, v: string -> Value, x: string, i: int)
    requires Small(net) && 0 <= i < 2
    ensures HasLoop(net) && "R" in ScopesOf(net).loops
    ensures Read(ScopesOf(net), Fold(net, Flat(v)), x, map["R" := i]) == v(Inst(net, TWICE, x, if "R" in Ids(net, x) then i else 1))
  {
    hide Inst, ExpandVariables, ExpandFunctions, LoopsOf;
    SmallLoops(net);
  }

  function StackFirst(): Layers {
    (k: Kernel, values: seq<Value>) => if k.kind == "Stack" && |values| > 0 then [values[0]] else []
  }

  function Unwritten(): string -> Value { (x: string) => if x == GenName("d", "R", 0) || x == "y" then [1.0] else [] }

  lemma UnwrittenValues(i: nat)
    requires i < 2
    ensures Unwritten()("y") == [1.0] && Unwritten()(GenName("d", "R", 0)) == [1.0] && Unwritten()("v") == []
    ensures Unwritten()(GenName("h", "R", i)) == []
  {
    assert GenName("h", "R", i)[0] == 'h' && GenName("d", "R", 0)[0] == 'd' && "v"[0] == 'v' && "y"[0] == 'y';
  }

  lemma CellMet(f': Function)
    requires f' in ExpandFunction(CHAINED, TWICE, CELL)
    ensures WellShaped(f') && Holds(ScopesOf(ExpandStep(CHAINED)), StackFirst(), Flat(Unwritten()), f')
  {
    var i := ReplacementIn(CHAINED, TWICE, CELL, f');
    ChainedShapes();
    UnwrittenValues(i);
    assert CELL.kind == "Tanh" && f'.kind == "Tanh" && f'.outputs == [GenName("h", "R", i)];
    hide GenName, ExpandStep, BodyFunction, Unwritten, ExpandFunction, Own, CELL, CHAINED;
  }

  lemma StackMet()
    ensures var f' := StackOf(TWICE, STACK);
            WellShaped(f') && Holds(ScopesOf(ExpandStep(CHAINED)), StackFirst(), Flat(Unwritten()), f')
  {
    ChainedShapes();
    UnwrittenValues(0);
    var f', g' := StackOf(TWICE, STACK), ScopesOf(ExpandStep(CHAINED));
    assert f'.kind == "Stack" && f'.outputs == ["y"] && |f'.inputs| == 2 && f'.inputs[0] == GenName("d", "R", 0);
    hide GenName, ExpandStep, Unwritten, STACK, CHAINED, StackOf;
    forall idx | Active(g', f', idx) ensures Equation(g', StackFirst(), Flat(Unwritten()), f', idx) {
      var values := ReadAll(g', Flat(Unwritten()), f'.inputs, idx);
      assert |values| == 2 && values[0] == [1.0];
    }
  }

  lemma ExpandedSolved()
    ensures Solves(ExpandStep(CHAINED), StackFirst(), Flat(Unwritten()))
  {
    assert ExpandFunction(CHAINED, TWICE, STACK) == [StackOf(TWICE, STACK)] && ExpandFunction(CHAINED, TWICE, DELAY) == [];
    assert CHAINED.repeats[0] == TWICE;
    hide Holds, ExpandFunction, StackOf, ExpandFunctions, ExpandVariables, StackFirst, Unwritten, Flat, WellShaped;
    StepVars(CHAINED);
    ExpandedFrom(CHAINED, TWICE, CHAINED.funcs);
    StackMet();
    forall f' | f' in ExpandStep(CHAINED).funcs
      ensures WellShaped(f') && Holds(ScopesOf(ExpandStep(CHAINED)), StackFirst(), Flat(Unwritten()), f')
    {
      var f :| f in CHAINED.funcs && f' in ExpandFunction(CHAINED, TWICE, f);
      Three(f);
      if f == CELL {
        CellMet(f');
      }
    }
  }

  lemma ChainedInstances()
    ensures Inst(CHAINED, TWICE, "d", 0) == "v" && Inst(CHAINED, TWICE, "y", 1) == "y"
    ensures "R" in Ids(CHAINED, "d") && "R" !in Ids(CHAINED, "y")
  {
    assert CHAINED.repeats[0] == TWICE && !Removed(TWICE, STACK) && IsMarkerOf(DELAY, "R");
    ChainedAllFramed();
    ChainedShapes();
    ChainedDelay();
    SmallVariables(CHAINED);
    hide AllFramed, FindMarker, Placed, GenName, CHAINED, IsParam, Ids;
    MarkerIs(CHAINED, DELAY, "RepeatStart", "d");
    MarkerIs(CHAINED, DELAY, "RepeatEnd", "d");
    KeptOutput(CHAINED, STACK, "y");
    InstDirect(CHAINED, "y", 1);
  }

  lemma OutputDemand(g: Scopes, layers: Layers, a: Assignment, f: Function, idx: Index)
    requires InRange(g, idx) && WellShaped(f) && f.kind == "RecurrentOutput" && LoopOf(f) in g.loops
    ensures Equation(g, layers, a, f, idx) <==>
            Read(g, a, f.outputs[0], idx) == Nth(layers(Kernel("Stack", f.splitAxis, f.recurrentAxis, f.payload), Iterations(g, a, f.inputs[0], idx, LoopOf(f))), 0)
  {
    hide Read, Iterations;
  }

  lemma LastActive()
    ensures STACK in CHAINED.funcs && ScopesOf(CHAINED).loops == map["R" := 2]
    ensures Active(ScopesOf(CHAINED), STACK, map["R" := 1]) && InRange(ScopesOf(CHAINED), map["R" := 0])
  {
    Three(STACK);
    SmallLoops(CHAINED);
  }

  lemma NotSolved(net: Net, layers: Layers, a: Assignment, f: Function, idx: Index)
    requires f in net.funcs && WellShaped(f) && Active(ScopesOf(net), f, idx) && !Equation(ScopesOf(net), layers, a, f, idx)
    ensures !Solves(net, layers, a)
  {
    hide Equation, ScopesOf, WellShaped;
  }

  lemma FirstMissing(g: Scopes, a: Assignment, f: Function, idx: Index)
    requires f.kind == "RecurrentOutput" && WellShaped(f) && f.inputs[0] == "d" && f.outputs[0] == "y" && LoopOf(f) == "R"
    requires g.loops == map["R" := 2] && InRange(g, idx) && InRange(g, map["R" := 0]) && idx == map["R" := 1]
    requires Read(g, a, "y", idx) == [1.0] && Read(g, a, "d", map["R" := 0]) == []
    ensures !Equation(g, StackFirst(), a, f, idx)
  {
    hide Equation, Read, LoopOf;
    var all := Iterations(g, a, "d", idx, "R");
    assert idx["R" := 0] == map["R" := 0] && |all| == 2 && all[0] == [];
    OutputDemand(g, StackFirst(), a, f, idx);
  }

  lemma LoopNotSolved()
    ensures HasLoop(CHAINED) && !Solves(CHAINED, StackFirst(), Fold(CHAINED, Flat(Unwritten())))
  {
    assert Small(CHAINED);
    hide *;
    ChainedShapes();
    ChainedInstances();
    UnwrittenValues(0);
    LastActive();
    FlatReads(CHAINED, Unwritten(), "d", 0);
    FlatReads(CHAINED, Unwritten(), "y", 1);
    FirstMissing(ScopesOf(CHAINED), Fold(CHAINED, Flat(Unwritten())), STACK, map["R" := 1]);
    NotSolved(CHAINED, StackFirst(), Fold(CHAINED, Flat(Unwritten())), STACK, map["R" := 1]);
  }

  /** Expansion loses what this network means: layers and values that solve the expanded network do not solve
      the loop. */
  lemma ChainedMeaningLost()
    ensures HasLoop(CHAINED)
    ensures exists layers, a :: Solves(ExpandStep(CHAINED), layers, a) && !Solves(CHAINED, layers, Fold(CHAINED, a))
  {
    hide *;
    ExpandedSolved();
    LoopNotSolved();
  }

  // ---- A layer that reads from outside its loop ------------------------------------------------

  const READER := Layer("c", "Tanh", ["v"], "h", ["R"])
  const OUTSIDE := Net([TWICE], BUFFERS, [READER])

  lemma ReaderShape()
    ensures Own(READER) == {"R"} && "R" in READER.repeatIds && READER.inputs == ["v"] && READER.outputs == ["h"]
    ensures READER.kind == "Tanh" && !MarkerKind(READER.kind) && LoopOf(READER) == "" && Distinct(READER.repeatIds)
    ensures OUTSIDE.funcs == [READER] && OUTSIDE.repeats == [TWICE] && TWICE.id == "R" && Small(OUTSIDE)
  {
  }

  lemma ReaderFramed()
    ensures AllFramed(OUTSIDE)
  {
    ReaderShape();
    SmallLoops(OUTSIDE);
    SmallFresh(OUTSIDE);
    SmallVariables(OUTSIDE);
    BufferNames();
    hide NoTwice, OneLetter, ExpandVariables, ExpandFunctions, OUTSIDE, READER, DeclaredName, IsParam, Ids, Own;
  }

  lemma NoMarkers(kind: string, x: string)
    requires MarkerKind(kind)
    ensures Marker(OUTSIDE, TWICE, kind, x).None?
  {
    MarkerFound(OUTSIDE.funcs, kind, TWICE.id, x);
  }

  lemma PlainReads(net: Net, r: Repeat, x: string, i: int)
    requires 0 <= i < r.times && !IsParam(net, x)
    requires forall kind :: MarkerKind(kind) ==> Marker(net, r, kind, x).None?
    ensures BodyInput(net, r, x, i) == GenName(x, r.id, i)
    ensures Inst(net, r, x, i) == if r.id in Ids(net, x) then GenName(x, r.id, i) else x
  {
    hide GenName, OldName, IsParam, FindMarker, LoopsOf, IdsOf;
    assert MarkerKind("RepeatStart") && MarkerKind("RepeatEnd") && MarkerKind("Delay");
  }

  lemma ReaderInput(i: nat)
    requires i < 2
    ensures BodyInput(OUTSIDE, TWICE, "v", i) == GenName("v", "R", i)
    ensures Inst(OUTSIDE, TWICE, "v", i) == "v" && Inst(OUTSIDE, TWICE, "h", i) == GenName("h", "R", i)
    ensures "R" !in Ids(OUTSIDE, "v") && "R" in Ids(OUTSIDE, "h")
  {
    ReaderShape();
    SmallVariables(OUTSIDE);
    forall kind, x | MarkerKind(kind) ensures Marker(OUTSIDE, TWICE, kind, x).None? {
      NoMarkers(kind, x);
    }
    hide GenName, OUTSIDE, READER, IsParam, Ids, DeclaredName, Marker, Inst, BodyInput;
    PlainReads(OUTSIDE, TWICE, "v", i);
    PlainReads(OUTSIDE, TWICE, "h", i);
  }

  /** What the layer is made to read after expansion is neither written nor declared. */
  lemma OutsideUnknown(i: nat)
    requires i < 2
    ensures AllFramed(OUTSIDE) && !WellFormed(OUTSIDE)
    ensures BodyFunction(OUTSIDE, TWICE, READER, i) in ExpandStep(OUTSIDE).funcs
    ensures BodyFunction(OUTSIDE, TWICE, READER, i).inputs == [GenName("v", "R", i)]
    ensures !DeclaredName(ExpandStep(OUTSIDE), GenName("v", "R", i))
  {
    hide GenName, WellFormed, AllFramed, ExpandVariables, BodyInput, ExpandFunctions, OUTSIDE, READER;
    ReaderShape();
    ReaderFramed();
    ReaderInput(i);
    OutsideRefused();
    StepVars(OUTSIDE);
    ExpandedFrom(OUTSIDE, TWICE, OUTSIDE.funcs);
    assert ExpandFunction(OUTSIDE, TWICE, READER)[i] == BodyFunction(OUTSIDE, TWICE, READER, i);
    if DeclaredName(ExpandStep(OUTSIDE), GenName("v", "R", i)) {
      var w := Declaration(ExpandStep(OUTSIDE), GenName("v", "R", i));
      var v, k := InstanceSource(TWICE, BUFFERS, w);
      NoSuchInstance(v, k, i);
    }
  }

  lemma NoSuchInstance(v: Variable, k: nat, i: nat)
    requires v in BUFFERS
    ensures InstanceOf(TWICE, v, k).name != GenName("v", "R", i)
  {
    assert GenName("v", "R", i)[0] == 'v' && |GenName("v", "R", i)| > 1;
    assert v.name == "v" ==> InstanceOf(TWICE, v, k) == v;
    assert v.name == "h" ==> InstanceOf(TWICE, v, k).name[0] == 'h';
    assert v.name == "d" ==> InstanceOf(TWICE, v, k).name[0] == 'd';
    assert v.name == "y" ==> InstanceOf(TWICE, v, k) == v;
  }

  lemma OutsideRefused()
    ensures !WellFormed(OUTSIDE)
  {
    ReaderShape();
    SmallVariables(OUTSIDE);
    hide FreshNames, Traced, OUTSIDE, READER, DeclaredName, IsParam, Ids, Own, Framed;
    assert {} != {"R"};
    assert !Fits(OUTSIDE, "v", {"R"});
    assert "v" in READER.inputs && READER in OUTSIDE.funcs;
    assert !LoopMarker(OUTSIDE, READER);
  }

  function Through(): Layers { (k: Kernel, values: seq<Value>) => values }

  function Unknown(): string -> Value { (x: string) => if x == GenName("v", "R", 0) || x == GenName("h", "R", 0) then [1.0] else [] }

  lemma UnknownValues(i: nat)
    requires i < 2
    ensures Unknown()("v") == [] && Unknown()(GenName("h", "R", 0)) == [1.0]
    ensures Unknown()(GenName("h", "R", i)) == Unknown()(GenName("v", "R", i))
  {
    assert |GenName("v", "R", 0)| > 1 && |GenName("h", "R", 0)| > 1 && GenName("v", "R", 0)[0] == 'v' && GenName("h", "R", 0)[0] == 'h';
    if i == 1 {
      assert GenName("v", "R", 1)[0] == 'v' && GenName("h", "R", 1)[0] == 'h';
      assert GenName("v", "R", 1)[4] == GenName("h", "R", 1)[4] == '1';
      assert GenName("v", "R", 0)[4] == GenName("h", "R", 0)[4] == '0';
    }
  }

  lemma ReaderMet(f': Function)
    requires f' in ExpandStep(OUTSIDE).funcs
    ensures WellShaped(f') && Holds(ScopesOf(ExpandStep(OUTSIDE)), Through(), Flat(Unknown()), f')
  {
    hide GenName, ExpandVariables, BodyInput, ExpandFunctions, OUTSIDE, READER, Unknown, ExpandFunction;
    ReaderShape();
    StepVars(OUTSIDE);
    ExpandedFrom(OUTSIDE, TWICE, OUTSIDE.funcs);
    var i := ReplacementIn(OUTSIDE, TWICE, READER, f');
    ReaderInput(i);
    UnknownValues(i);
    assert f'.kind == "Tanh" && f'.inputs == [GenName("v", "R", i)] && f'.outputs == [GenName("h", "R", i)];
    hide BodyFunction, Own, ExpandStep;
  }

  lemma LayerDemand(g: Scopes, layers: Layers, a: Assignment, f: Function, idx: Index)
    requires InRange(g, idx) && !MarkerKind(f.kind) && |f.outputs| > 0
    ensures WellShaped(f)
    ensures Equation(g, layers, a, f, idx) ==>
              Read(g, a, f.outputs[0], idx) == Nth(layers(KernelOf(f), ReadAll(g, a, f.inputs, idx)), 0)
  {
    hide Read;
  }

  lemma FirstActive()
    ensures Active(ScopesOf(OUTSIDE), READER, map["R" := 0])
  {
    SmallLoops(OUTSIDE);
  }

  lemma OutputMissing(g: Scopes, a: Assignment, f: Function, idx: Index)
    requires InRange(g, idx) && !MarkerKind(f.kind) && f.inputs == ["v"] && f.outputs == ["h"]
    requires Read(g, a, "h", idx) == [1.0] && Read(g, a, "v", idx) == []
    ensures WellShaped(f) && !Equation(g, Through(), a, f, idx)
  {
    hide Read, Equation;
    LayerDemand(g, Through(), a, f, idx);
    assert ReadAll(g, a, f.inputs, idx)[0] == [];
  }

  lemma ReaderNotSolved()
    ensures HasLoop(OUTSIDE) && !Solves(OUTSIDE, Through(), Fold(OUTSIDE, Flat(Unknown())))
  {
    assert READER in [READER];
    hide *;
    ReaderShape();
    ReaderInput(0);
    UnknownValues(0);
    FirstActive();
    FlatReads(OUTSIDE, Unknown(), "v", 0);
    FlatReads(OUTSIDE, Unknown(), "h", 0);
    ActiveInRange(ScopesOf(OUTSIDE), READER, map["R" := 0]);
    OutputMissing(ScopesOf(OUTSIDE), Fold(OUTSIDE, Flat(Unknown())), READER, map["R" := 0]);
    NotSolved(OUTSIDE, Through(), Fold(OUTSIDE, Flat(Unknown())), READER, map["R" := 0]);
  }

  lemma ActiveInRange(g: Scopes, f: Function, idx: Index)
    requires Active(g, f, idx)
    ensures InRange(g, idx)
  {
  }

  /** Expansion loses what this network means, too. */
  lemma OutsideMeaningLost()
    ensures HasLoop(OUTSIDE)
    ensures exists layers, a :: Solves(ExpandStep(OUTSIDE), layers, a) && !Solves(OUTSIDE, layers, Fold(OUTSIDE, a))
  {
    ReaderNotSolved();
    hide Holds, ExpandStep, Fold, Flat, OUTSIDE;
    forall f' | f' in ExpandStep(OUTSIDE).funcs
      ensures WellShaped(f') && Holds(ScopesOf(ExpandStep(OUTSIDE)), Through(), Flat(Unknown()), f')
    {
      ReaderMet(f');
    }
    assert Solves(ExpandStep(OUTSIDE), Through(), Flat(Unknown()));
  }
}
