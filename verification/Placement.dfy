/** Where names may stand in a network with loops, and under which names expansion puts them. */
module Placement {
  import opened Network
  import opened Unroll
  import opened Wrappers

  /** The loops that `x` is declared to vary with. */
  function Ids(net: Net, x: string): set<string> { IdsIn(ScopesOf(net), x) }

  ghost predicate DeclaredName(net: Net, x: string) {
    exists v :: v in net.vars && v.name == x
  }

  ghost predicate DistinctIds(repeats: seq<Repeat>) {
    forall i, j :: 0 <= i < j < |repeats| ==> repeats[i].id != repeats[j].id
  }

  ghost predicate Distinct(xs: seq<string>) {
    forall i, j :: 0 <= i < j < |xs| ==> xs[i] != xs[j]
  }

  /** A marker of one of the network's loops. */
  predicate LoopMarker(net: Net, f: Function) { MarkerKind(f.kind) && LoopOf(f) in ScopesOf(net).loops }

  /** What a function that runs in the loops `s` may read: a variable of just these loops, or a parameter
      of some of them. */
  ghost predicate Fits(net: Net, x: string, s: set<string>) {
    if IsParam(net, x) then Ids(net, x) <= s else Ids(net, x) == s
  }

  ghost predicate Exactly(net: Net, x: string, s: set<string>) { !IsParam(net, x) && Ids(net, x) == s }

  /** What a function writes varies with just the loops it runs in. */
  ghost predicate Framed(net: Net, f: Function) {
    && WellShaped(f) && Distinct(f.repeatIds) && Distinct(f.outputs)
    && (forall x :: x in f.inputs ==> DeclaredName(net, x))
    && (forall o :: o in f.outputs ==> DeclaredName(net, o) && Exactly(net, o, Own(f)))
    && (LoopMarker(net, f) ==> FramedMarker(net, f, LoopOf(f)))
  }

  /** Markers that open a loop run inside it and take their initial value from outside; markers that close it
      run outside. */
  ghost predicate FramedMarker(net: Net, f: Function, b: string)
    requires WellShaped(f) && MarkerKind(f.kind)
  {
    if f.kind == "RepeatStart" then |f.inputs| == 2 && b in Own(f) && Fits(net, f.inputs[0], Own(f) - {b})
    else if f.kind == "Delay" then |f.inputs| == 2 && b in Own(f) && Fits(net, f.inputs[1], Own(f) - {b})
    else if f.kind == "RecurrentInput" then b in Own(f)
    else |f.inputs| == 1 && b !in Own(f) && (f.kind == "RepeatEnd" ==> f.inputs[0] !in f.outputs)
  }

  /** What a function reads varies with the loops it runs in, too.  What a marker carries to the next iteration
      or behind the loop comes from inside the loop. */
  ghost predicate Placed(net: Net, f: Function) {
    && Framed(net, f)
    && if !LoopMarker(net, f) then forall x :: x in f.inputs ==> Fits(net, x, Own(f))
       else PlacedMarker(net, f, LoopOf(f))
  }

  ghost predicate PlacedMarker(net: Net, f: Function, b: string)
    requires WellShaped(f) && MarkerKind(f.kind)
  {
    && FramedMarker(net, f, b)
    && if f.kind == "RepeatStart" then Exactly(net, f.inputs[1], Own(f))
       else if f.kind == "Delay" then Exactly(net, f.inputs[0], Own(f))
       else if f.kind == "RecurrentInput" then forall x :: x in f.inputs ==> Fits(net, x, Own(f) - {b})
       else Exactly(net, f.inputs[0], Own(f) + {b})
  }

  /** Every variable has one writer. */
  ghost predicate SingleWriter(funcs: seq<Function>) {
    forall f, f', o :: f in funcs && f' in funcs && o in f.outputs && o in f'.outputs ==> f == f'
  }

  /** No RepeatStart or Delay of the loop hands out `x`. */
  ghost predicate Kept(net: Net, r: Repeat, x: string) {
    Marker(net, r, "RepeatStart", x).None? && Marker(net, r, "Delay", x).None?
  }

  /** Input `j` is carried to the next iteration or behind the loop: its instances are asked for by name. */
  predicate Carries(f: Function, j: nat) {
    if f.kind == "RepeatStart" then j == 1 else (f.kind == "Delay" || Closes(f.kind)) && j == 0
  }

  /** For input `j`, which comes from outside the loop, the expander does not look for a RepeatEnd. */
  predicate Overlooks(f: Function, j: nat) { f.kind == "RecurrentInput" || (f.kind == "Delay" && j == 1) }

  /** What the marker asks for by name is there after expansion. */
  ghost predicate Finds(net: Net, r: Repeat, f: Function) {
    forall j :: 0 <= j < |f.inputs| ==>
      && (Carries(f, j) ==> Kept(net, r, f.inputs[j]))
      && (Overlooks(f, j) ==> Marker(net, r, "RepeatEnd", f.inputs[j]).None?)
  }

  /** Expanding the first loop gives every variable's instances names of their own. */
  ghost predicate AllFramed(net: Net) {
    && |net.repeats| > 0 && DistinctIds(net.repeats) && EveryLoopRuns(net)
    && NoTwice(net.vars) && NoTwice(ExpandStep(net).vars)
    && (forall v :: v in net.vars ==> Distinct(v.repeatIds))
    && (forall f :: f in net.funcs ==> Framed(net, f))
    && SingleWriter(net.funcs)
  }

  /** What expanding the first loop relies on. */
  ghost predicate Expandable(net: Net) {
    && AllFramed(net)
    && (forall f :: f in net.funcs ==> Placed(net, f))
    && (forall f :: f in net.funcs && IsMarkerOf(f, net.repeats[0].id) ==> Finds(net, net.repeats[0], f))
  }

  // ---- Loops and markers -----------------------------------------------------------------------

  lemma LoopsShrink(net: Net)
    requires |net.repeats| > 0 && DistinctIds(net.repeats)
    ensures var g := LoopsOf(net.repeats);
            net.repeats[0].id in g && g[net.repeats[0].id] == net.repeats[0].times
            && LoopsOf(net.repeats[1..]) == g - {net.repeats[0].id}
  {
    NotALoop(net.repeats[1..], net.repeats[0].id);
  }

  lemma {:induction false} NotALoop(repeats: seq<Repeat>, id: string)
    requires forall i :: 0 <= i < |repeats| ==> repeats[i].id != id
    ensures id !in LoopsOf(repeats)
  {
    if repeats != [] {
      NotALoop(repeats[1..], id);
    }
  }

  lemma {:induction false} MarkerFound(funcs: seq<Function>, kind: string, id: string, x: string)
    ensures var m := FindMarker(funcs, kind, id, x);
            m.Some? ==> m.value in funcs && m.value.kind == kind && LoopOf(m.value) == id && |m.value.outputs| > 0 && m.value.outputs[0] == x
    ensures FindMarker(funcs, kind, id, x).None? ==>
              forall f :: f in funcs ==> !(f.kind == kind && LoopOf(f) == id && |f.outputs| > 0 && f.outputs[0] == x)
  {
    if funcs != [] {
      var rest := funcs[..|funcs| - 1];
      MarkerFound(rest, kind, id, x);
      assert funcs == rest + [funcs[|funcs| - 1]];
    }
  }

  /** RepeatStart, RepeatEnd and Delay of the loop, which expansion removes. */
  predicate Removed(r: Repeat, f: Function) {
    IsMarkerOf(f, r.id) && (f.kind == "RepeatStart" || f.kind == "RepeatEnd" || f.kind == "Delay")
  }

  /** No removed marker hands out `x`. */
  ghost predicate Direct(net: Net, r: Repeat, x: string) {
    && !IsParam(net, x) && Marker(net, r, "RepeatStart", x).None?
    && Marker(net, r, "RepeatEnd", x).None? && Marker(net, r, "Delay", x).None?
  }

  ghost predicate Plain(net: Net, r: Repeat, x: string) { IsParam(net, x) || Direct(net, r, x) }

  lemma Basics(net: Net)
    requires AllFramed(net)
    ensures |net.repeats| > 0 && DistinctIds(net.repeats) && net.repeats[0].times >= 1
    ensures net.repeats[0].id in ScopesOf(net).loops && ScopesOf(net).loops[net.repeats[0].id] == net.repeats[0].times
    ensures ScopesOf(ExpandStep(net)).loops == ScopesOf(net).loops - {net.repeats[0].id}
    ensures NoTwice(net.vars) && NoTwice(ExpandStep(net).vars)
    ensures forall v :: v in net.vars ==> Distinct(v.repeatIds)
    ensures forall f :: f in net.funcs ==> Framed(net, f)
    ensures SingleWriter(net.funcs)
    ensures MarkerKind("RepeatStart") && MarkerKind("RepeatEnd") && MarkerKind("Delay")
  {
    LoopsShrink(net);
  }

  lemma Parts(net: Net)
    requires Expandable(net)
    ensures AllFramed(net)
    ensures |net.repeats| > 0 && DistinctIds(net.repeats) && net.repeats[0].times >= 1
    ensures net.repeats[0].id in ScopesOf(net).loops && ScopesOf(net).loops[net.repeats[0].id] == net.repeats[0].times
    ensures ScopesOf(ExpandStep(net)).loops == ScopesOf(net).loops - {net.repeats[0].id}
    ensures NoTwice(net.vars) && NoTwice(ExpandStep(net).vars)
    ensures forall v :: v in net.vars ==> Distinct(v.repeatIds)
    ensures forall f :: f in net.funcs ==> Placed(net, f)
    ensures SingleWriter(net.funcs)
    ensures MarkerKind("RepeatStart") && MarkerKind("RepeatEnd") && MarkerKind("Delay")
  {
    hide AllFramed, Placed;
    Basics(net);
  }

  /** The markers that write `x` are found, and no others. */
  lemma MarkerIs(net: Net, f: Function, kind: string, x: string)
    requires AllFramed(net) && f in net.funcs && x in f.outputs && MarkerKind(kind)
    ensures var r := net.repeats[0];
            Marker(net, r, kind, x) == if IsMarkerOf(f, r.id) && f.kind == kind then Some(f) else None
  {
    hide *;
    Basics(net);
    FramedShape(net, f);
    MarkerSought(net, net.repeats[0], f, kind, x);
  }

  lemma FramedShape(net: Net, f: Function)
    requires Framed(net, f)
    ensures WellShaped(f) && Distinct(f.repeatIds) && Distinct(f.outputs)
    ensures MarkerKind(f.kind) ==> |f.outputs| == 1 && |f.inputs| >= 1
    ensures forall x :: x in f.inputs || x in f.outputs ==> DeclaredName(net, x)
    ensures forall o :: o in f.outputs ==> !IsParam(net, o) && Ids(net, o) == Own(f)
  {
  }

  lemma PlacedShape(net: Net, f: Function)
    requires Placed(net, f)
    ensures Framed(net, f)
    ensures WellShaped(f) && Distinct(f.repeatIds) && Distinct(f.outputs)
    ensures MarkerKind(f.kind) ==> |f.outputs| == 1 && |f.inputs| >= 1
    ensures forall x :: x in f.inputs || x in f.outputs ==> DeclaredName(net, x)
    ensures forall o :: o in f.outputs ==> !IsParam(net, o) && Ids(net, o) == Own(f)
  {
    hide Framed;
    FramedShape(net, f);
  }

  lemma MarkerSought(net: Net, r: Repeat, f: Function, kind: string, x: string)
    requires f in net.funcs && x in f.outputs && MarkerKind(kind) && SingleWriter(net.funcs)
    requires MarkerKind(f.kind) ==> |f.outputs| == 1
    ensures Marker(net, r, kind, x) == if IsMarkerOf(f, r.id) && f.kind == kind then Some(f) else None
  {
    MarkerFound(net.funcs, kind, r.id, x);
    var m := Marker(net, r, kind, x);
    if m.Some? {
      assert x in m.value.outputs;
    }
  }

  /** Outputs that expansion keeps. */
  lemma KeptOutput(net: Net, f: Function, o: string)
    requires AllFramed(net) && f in net.funcs && o in f.outputs && !Removed(net.repeats[0], f)
    ensures Direct(net, net.repeats[0], o)
  {
    hide AllFramed, FindMarker, Framed;
    Basics(net);
    FramedShape(net, f);
    MarkerIs(net, f, "RepeatStart", o);
    MarkerIs(net, f, "RepeatEnd", o);
    MarkerIs(net, f, "Delay", o);
  }

  /** What a removed marker's table entry says. */
  lemma FramedTable(net: Net, kind: string, x: string)
    requires AllFramed(net) && MarkerKind(kind) && Marker(net, net.repeats[0], kind, x).Some?
    ensures var r := net.repeats[0]; var m := Marker(net, r, kind, x).value;
            && m in net.funcs && m.kind == kind && LoopOf(m) == r.id && IsMarkerOf(m, r.id) && LoopMarker(net, m)
            && Framed(net, m) && WellShaped(m) && FramedMarker(net, m, r.id) && m.outputs == [x]
            && (forall y :: y in m.inputs ==> DeclaredName(net, y))
            && DeclaredName(net, x) && !IsParam(net, x) && Ids(net, x) == Own(m)
  {
    hide FindMarker, FramedMarker, Ids, IsParam, LoopsOf, IdsOf, ExpandVariables, ExpandFunctions;
    LoopsShrink(net);
    MarkerFound(net.funcs, kind, net.repeats[0].id, x);
    var m := Marker(net, net.repeats[0], kind, x).value;
    assert Framed(net, m) && m.outputs[0] in m.outputs;
  }

  lemma FoundMarker(net: Net, kind: string, x: string)
    requires Expandable(net) && MarkerKind(kind) && Marker(net, net.repeats[0], kind, x).Some?
    ensures var r := net.repeats[0]; var m := Marker(net, r, kind, x).value;
            && m in net.funcs && m.kind == kind && LoopOf(m) == r.id && IsMarkerOf(m, r.id) && LoopMarker(net, m)
            && Placed(net, m) && WellShaped(m) && PlacedMarker(net, m, r.id) && Finds(net, r, m) && m.outputs == [x]
            && (forall y :: y in m.inputs ==> DeclaredName(net, y))
            && !IsParam(net, x) && Ids(net, x) == Own(m)
  {
    hide AllFramed, FindMarker, Framed, FramedMarker, PlacedMarker, Finds, Ids, IsParam;
    FramedTable(net, kind, x);
    assert Placed(net, Marker(net, net.repeats[0], kind, x).value);
  }

  /** A variable of the loop that no RepeatStart or Delay hands out is handed out by no removed marker. */
  lemma KeptDirect(net: Net, x: string, s: set<string>)
    requires AllFramed(net) && Exactly(net, x, s) && net.repeats[0].id in s && Kept(net, net.repeats[0], x)
    ensures Direct(net, net.repeats[0], x)
  {
    hide AllFramed, FindMarker, Framed, FramedMarker, Ids, IsParam;
    Basics(net);
    var r := net.repeats[0];
    if Marker(net, r, "RepeatEnd", x).Some? {
      FramedTable(net, "RepeatEnd", x);
      ClosesOutside(net, Marker(net, r, "RepeatEnd", x).value, r.id);
    }
  }

  lemma CarriedKept(net: Net, r: Repeat, f: Function, j: nat)
    requires Finds(net, r, f) && j < |f.inputs| && Carries(f, j)
    ensures Kept(net, r, f.inputs[j])
  {
  }

  lemma ClosesOutside(net: Net, f: Function, b: string)
    requires WellShaped(f) && MarkerKind(f.kind) && Closes(f.kind) && FramedMarker(net, f, b)
    ensures b !in Own(f)
  {
  }

  lemma OpensInside(net: Net, f: Function, b: string)
    requires WellShaped(f) && MarkerKind(f.kind) && !Closes(f.kind) && FramedMarker(net, f, b)
    ensures b in Own(f)
  {
  }

  // ---- The variables of the expanded network ---------------------------------------------------

  function InstanceOf(r: Repeat, v: Variable, i: nat): Variable {
    if r.id in v.repeatIds then VariableInstance(v, r, i) else v
  }

  lemma {:induction false} InstanceDeclared(r: Repeat, vars: seq<Variable>, v: Variable, i: nat)
    requires r.times >= 1 && v in vars && i < r.times
    ensures InstanceOf(r, v, i) in ExpandVariables(r, vars)
  {
    var rest, last := vars[..|vars| - 1], vars[|vars| - 1];
    assert vars == rest + [last];
    if v == last {
      var more := ExpandVariable(r, v);
      assert r.id in v.repeatIds ==> more[i] == VariableInstance(v, r, i);
      assert r.id !in v.repeatIds ==> more[0] == v;
      assert InstanceOf(r, v, i) in more;
    } else {
      InstanceDeclared(r, rest, v, i);
    }
  }

  /** Expansion makes nothing but instances. */
  lemma {:induction false} InstanceSource(r: Repeat, vars: seq<Variable>, w: Variable) returns (v: Variable, i: nat)
    requires r.times >= 1 && w in ExpandVariables(r, vars)
    ensures v in vars && i < r.times && w == InstanceOf(r, v, i)
  {
    var rest, last := vars[..|vars| - 1], vars[|vars| - 1];
    assert vars == rest + [last];
    var more := ExpandVariable(r, last);
    if w in more {
      var k :| 0 <= k < |more| && more[k] == w;
      v, i := last, k;
    } else {
      v, i := InstanceSource(r, rest, w);
    }
  }

  lemma NoTwiceParts(a: seq<Variable>, b: seq<Variable>)
    requires NoTwice(a + b)
    ensures NoTwice(a) && NoTwice(b) && forall v, w :: v in a && w in b ==> v.name != w.name
  {
    forall v, w | v in a && w in b ensures v.name != w.name {
      var i :| 0 <= i < |a| && a[i] == v;
      var j :| 0 <= j < |b| && b[j] == w;
      assert (a + b)[i] == v && (a + b)[|a| + j] == w;
    }
    forall i, j | 0 <= i < j < |a| ensures a[i].name != a[j].name {
      assert (a + b)[i] == a[i] && (a + b)[j] == a[j];
    }
    forall i, j | 0 <= i < j < |b| ensures b[i].name != b[j].name {
      assert (a + b)[|a| + i] == b[i] && (a + b)[|a| + j] == b[j];
    }
  }

  /** If no name is given twice, an instance's name tells its original and its iteration. */
  lemma {:induction false} NameTells(r: Repeat, vars: seq<Variable>, v: Variable, i: nat, w: Variable, j: nat)
    requires r.times >= 1 && v in vars && w in vars && i < r.times && j < r.times
    requires NoTwice(ExpandVariables(r, vars)) && InstanceOf(r, v, i).name == InstanceOf(r, w, j).name
    ensures v == w && (r.id in v.repeatIds ==> i == j)
  {
    var rest, last := vars[..|vars| - 1], vars[|vars| - 1];
    assert vars == rest + [last];
    var more := ExpandVariable(r, last);
    NoTwiceParts(ExpandVariables(r, rest), more);
    assert v == last ==> InstanceOf(r, v, i) == (if r.id in v.repeatIds then more[i] else more[0]);
    assert w == last ==> InstanceOf(r, w, j) == (if r.id in w.repeatIds then more[j] else more[0]);
    if v in rest {
      InstanceDeclared(r, rest, v, i);
    }
    if w in rest {
      InstanceDeclared(r, rest, w, j);
    }
    if v in rest && w in rest {
      NameTells(r, rest, v, i, w, j);
    }
  }

  lemma {:induction false} DeletedId(ids: seq<string>, id: string)
    ensures forall b :: b != id ==> (b in DeleteId(ids, id) <==> b in ids)
    ensures Distinct(ids) ==> id !in DeleteId(ids, id) && Distinct(DeleteId(ids, id))
  {
    if ids != [] {
      DeletedId(ids[1..], id);
      var rest := DeleteId(ids[1..], id);
      if ids[0] == id {
        assert Distinct(ids) ==> forall j :: 0 < j < |ids| ==> ids[j] != id;
      } else {
        assert ids[0] in rest <==> ids[0] in ids[1..];
        assert Distinct(ids) ==> Distinct(ids[1..]) && ids[0] !in rest;
      }
    }
  }

  lemma Kind(vars: seq<Variable>, v: Variable)
    requires NoTwice(vars) && v in vars
    ensures ParamIn(vars, v.name) <==> v.kind == "Parameter"
  {
  }

  /** Names that no removed marker hands out: each is known by the names of its instances. */
  lemma PlainInstance(net: Net, v: Variable, i: nat)
    requires AllFramed(net) && v in net.vars && Plain(net, net.repeats[0], v.name) && i < net.repeats[0].times
    ensures var r := net.repeats[0];
            && Inst(net, r, v.name, i) == InstanceOf(r, v, i).name
            && InstanceOf(r, v, i) in ExpandStep(net).vars
            && (r.id in Ids(net, v.name) <==> r.id in v.repeatIds)
            && Ids(ExpandStep(net), Inst(net, r, v.name, i)) == Ids(net, v.name) - {r.id}
            && (IsParam(ExpandStep(net), Inst(net, r, v.name, i)) <==> IsParam(net, v.name))
  {
    hide ExpandFunctions, ExpandVariables, Framed, LoopsOf, IdsOf, AllFramed, FindMarker;
    Basics(net);
    var r := net.repeats[0];
    IdsFound(net.vars, v);
    Kind(net.vars, v);
    InstanceDeclared(r, net.vars, v, i);
    IdsFound(ExpandStep(net).vars, InstanceOf(r, v, i));
    Kind(ExpandStep(net).vars, InstanceOf(r, v, i));
    DeletedId(v.repeatIds, r.id);
  }

  lemma PlainName(net: Net, x: string, i: nat)
    requires AllFramed(net) && DeclaredName(net, x) && Plain(net, net.repeats[0], x) && i < net.repeats[0].times
    ensures var r, y := net.repeats[0], Inst(net, net.repeats[0], x, i);
            && DeclaredName(ExpandStep(net), y)
            && Ids(ExpandStep(net), y) == Ids(net, x) - {r.id}
            && (IsParam(ExpandStep(net), y) <==> IsParam(net, x))
  {
    hide *;
    Basics(net);
    var v := Declaration(net, x);
    PlainInstance(net, v, i);
    IsDeclared(ExpandStep(net), InstanceOf(net.repeats[0], v, i));
  }

  lemma Declaration(net: Net, x: string) returns (v: Variable)
    requires DeclaredName(net, x)
    ensures v in net.vars && v.name == x
  {
    v :| v in net.vars && v.name == x;
  }

  lemma IsDeclared(net: Net, v: Variable)
    requires v in net.vars
    ensures DeclaredName(net, v.name)
  {
  }

  /** An instance's name tells what it is an instance of, and which. */
  lemma InstTells(net: Net, x: string, i: nat, x': string, i': nat)
    requires AllFramed(net) && DeclaredName(net, x) && DeclaredName(net, x') && i < net.repeats[0].times && i' < net.repeats[0].times
    requires Plain(net, net.repeats[0], x) && Plain(net, net.repeats[0], x')
    requires Inst(net, net.repeats[0], x, i) == Inst(net, net.repeats[0], x', i')
    ensures x == x' && (net.repeats[0].id in Ids(net, x) ==> i == i')
  {
    hide *;
    Basics(net);
    var v := Declaration(net, x);
    var v' := Declaration(net, x');
    PlainInstance(net, v, i);
    PlainInstance(net, v', i');
    StepVars(net);
    NameTells(net.repeats[0], net.vars, v, i, v', i');
  }

  lemma StepVars(net: Net)
    requires |net.repeats| > 0 && net.repeats[0].times >= 1
    ensures ExpandStep(net).vars == ExpandVariables(net.repeats[0], net.vars)
    ensures ExpandStep(net).funcs == ExpandFunctions(net, net.repeats[0], net.funcs)
    ensures ExpandStep(net).repeats == net.repeats[1..]
  {
  }

  // ---- What the outputs of removed markers stand for -------------------------------------------

  /** The variable and the iteration that iteration `i` of `x` is taken from. */
  ghost function Source(net: Net, r: Repeat, x: string, i: int): (string, int) {
    if IsParam(net, x) then (x, i)
    else if Marker(net, r, "RepeatStart", x).Some? then
      var m := Marker(net, r, "RepeatStart", x).value;
      if i == 0 then EndSource(net, r, Input(m, 0)) else (Input(m, 1), i - 1)
    else if Marker(net, r, "RepeatEnd", x).Some? then EndSource(net, r, x)
    else if Marker(net, r, "Delay", x).Some? then
      var m := Marker(net, r, "Delay", x).value;
      if i == 0 then (Input(m, 1), r.times - 1) else (Input(m, 0), i - 1)
    else (x, i)
  }

  ghost function EndSource(net: Net, r: Repeat, x: string): (string, int) {
    var m := Marker(net, r, "RepeatEnd", x);
    if m.Some? then (Input(m.value, 0), r.times - 1) else (x, r.times - 1)
  }

  /** `x` in iteration `i` is resolved to the plain `s` in iteration `j`. */
  ghost predicate ResolvesTo(net: Net, x: string, i: int, s: string, j: int)
    requires |net.repeats| > 0
  {
    var r := net.repeats[0];
    && DeclaredName(net, s) && Plain(net, r, s) && 0 <= i < r.times && 0 <= j < r.times
    && Inst(net, r, x, i) == Inst(net, r, s, j)
    && Ids(net, s) - {r.id} <= Ids(net, x) - {r.id}
    && (!IsParam(net, s) ==> Ids(net, s) - {r.id} == Ids(net, x) - {r.id})
  }

  /** Behind a RepeatEnd stands the last iteration of what it reads. */
  lemma EndResolves(net: Net, x: string, i: int)
    requires Expandable(net) && 0 <= i < net.repeats[0].times && Marker(net, net.repeats[0], "RepeatEnd", x).Some?
    requires Marker(net, net.repeats[0], "RepeatStart", x).None?
    ensures var r := net.repeats[0]; var m := Marker(net, r, "RepeatEnd", x).value;
            && |m.inputs| == 1 && ResolvesTo(net, x, i, m.inputs[0], r.times - 1)
            && r.id !in Ids(net, x) && r.id in Ids(net, m.inputs[0])
  {
    hide Expandable, FindMarker, Placed, Finds, IsParam, Ids;
    Parts(net);
    var r := net.repeats[0];
    FoundMarker(net, "RepeatEnd", x);
    var m := Marker(net, r, "RepeatEnd", x).value;
    assert m.inputs[0] in m.inputs;
    CarriedKept(net, r, m, 0);
    KeptDirect(net, m.inputs[0], Own(m) + {r.id});
    InstDirect(net, m.inputs[0], r.times - 1);
  }

  lemma InstDirect(net: Net, x: string, i: int)
    requires |net.repeats| > 0 && 0 <= i < net.repeats[0].times && Direct(net, net.repeats[0], x)
    ensures var r := net.repeats[0]; Inst(net, r, x, i) == if r.id in Ids(net, x) then GenName(x, r.id, i) else x
  {
  }

  /** What does not vary with the loop has one name. */
  lemma InstOutside(net: Net, x: string, i: int, j: int)
    requires AllFramed(net) && DeclaredName(net, x) && net.repeats[0].id !in Ids(net, x)
    requires 0 <= i < net.repeats[0].times && 0 <= j < net.repeats[0].times
    ensures var r := net.repeats[0];
            && Inst(net, r, x, i) == Inst(net, r, x, j) == EndOr(net, r, x, r.times - 1, x)
            && Marker(net, r, "RepeatStart", x).None? && Marker(net, r, "Delay", x).None?
            && (Marker(net, r, "RepeatEnd", x).None? ==> Plain(net, r, x) && Inst(net, r, x, i) == x)
  {
    hide AllFramed, FindMarker, Framed, FramedMarker, LoopsOf, IdsOf, IsParam, Ids;
    Basics(net);
    var r := net.repeats[0];
    if Marker(net, r, "RepeatStart", x).Some? {
      FramedTable(net, "RepeatStart", x);
      OpensInside(net, Marker(net, r, "RepeatStart", x).value, r.id);
    }
    if Marker(net, r, "Delay", x).Some? {
      FramedTable(net, "Delay", x);
      OpensInside(net, Marker(net, r, "Delay", x).value, r.id);
    }
    if Marker(net, r, "RepeatEnd", x).Some? {
      FramedTable(net, "RepeatEnd", x);
    }
    assert Ids(net, x) == IdsIn(ScopesOf(net), x) by {
      IdsAre(net, x);
    }
  }

  lemma IdsAre(net: Net, x: string)
    ensures Ids(net, x) == IdsIn(ScopesOf(net), x)
  {
  }

  /** Seen from outside the loop, `x` is resolved to its last iteration. */
  lemma OutsideResolves(net: Net, x: string, i: int)
    requires Expandable(net) && DeclaredName(net, x) && net.repeats[0].id !in Ids(net, x) && 0 <= i < net.repeats[0].times
    ensures var r := net.repeats[0]; var s := EndSource(net, r, x);
            && ResolvesTo(net, x, i, s.0, s.1) && Inst(net, r, x, i) == EndOr(net, r, x, r.times - 1, x)
            && (IsParam(net, x) ==> s.0 == x)
            && (Marker(net, r, "RepeatEnd", x).None? ==> Plain(net, r, x) && Inst(net, r, x, i) == x)
  {
    hide *;
    Parts(net);
    var r := net.repeats[0];
    InstOutside(net, x, i, r.times - 1);
    EndSourceIs(net, r, x);
    if Marker(net, r, "RepeatEnd", x).Some? {
      EndResolves(net, x, i);
      FoundMarker(net, "RepeatEnd", x);
    } else {
      PlainResolves(net, x, i, r.times - 1);
    }
  }

  lemma EndSourceIs(net: Net, r: Repeat, x: string)
    ensures var m := Marker(net, r, "RepeatEnd", x);
            EndSource(net, r, x) == if m.Some? then (Input(m.value, 0), r.times - 1) else (x, r.times - 1)
    ensures forall m: Function, j: nat :: j < |m.inputs| ==> Input(m, j) == m.inputs[j]
  {
  }

  lemma PlainResolves(net: Net, x: string, i: int, j: int)
    requires |net.repeats| > 0 && DeclaredName(net, x) && Plain(net, net.repeats[0], x)
    requires 0 <= i < net.repeats[0].times && 0 <= j < net.repeats[0].times
    requires Inst(net, net.repeats[0], x, i) == Inst(net, net.repeats[0], x, j)
    ensures ResolvesTo(net, x, i, x, j)
  {
  }

  /** A variable that a Start or a Delay carries over from the iteration before. */
  lemma CarriedResolves(net: Net, x: string, i: int, y: string, j: int)
    requires Expandable(net) && 0 <= i < net.repeats[0].times && 0 <= j < net.repeats[0].times
    requires DeclaredName(net, y) && Exactly(net, y, Ids(net, x)) && net.repeats[0].id in Ids(net, x) && Kept(net, net.repeats[0], y)
    requires Inst(net, net.repeats[0], x, i) == GenName(y, net.repeats[0].id, j)
    ensures ResolvesTo(net, x, i, y, j)
  {
    hide Expandable, FindMarker, Inst, IsParam, Ids;
    Parts(net);
    KeptDirect(net, y, Ids(net, x));
    InstDirect(net, y, j);
  }

  lemma StartResolves(net: Net, x: string, i: int)
    requires Expandable(net) && 0 <= i < net.repeats[0].times && Marker(net, net.repeats[0], "RepeatStart", x).Some?
    ensures var r := net.repeats[0]; var m := Marker(net, r, "RepeatStart", x).value;
            && |m.inputs| == 2 && m.outputs == [x] && r.id in Ids(net, x) && !IsParam(net, x)
            && (forall y :: y in m.inputs ==> DeclaredName(net, y))
            && r.id !in Ids(net, m.inputs[0]) && r.id in Ids(net, m.inputs[1])
            && var s := if i == 0 then EndSource(net, r, m.inputs[0]) else (m.inputs[1], i - 1);
               ResolvesTo(net, x, i, s.0, s.1)
  {
    hide Expandable, FindMarker, Placed, Finds, IsParam, Ids, Marker, DeclaredName, EndSource;
    Parts(net);
    var r := net.repeats[0];
    FoundMarker(net, "RepeatStart", x);
    var m := Marker(net, r, "RepeatStart", x).value;
    assert m.inputs[0] in m.inputs && m.inputs[1] in m.inputs;
    if i == 0 {
      OutsideResolves(net, m.inputs[0], r.times - 1);
      InitialResolves(net, x, m.inputs[0], EndSource(net, r, m.inputs[0]));
    } else {
      CarriedKept(net, r, m, 1);
      CarriedResolves(net, x, i, m.inputs[1], i - 1);
    }
  }

  /** The initial value of `x` comes from where `y` comes from. */
  lemma InitialResolves(net: Net, x: string, y: string, s: (string, int))
    requires |net.repeats| > 0 && net.repeats[0].times >= 1 && Fits(net, y, Ids(net, x) - {net.repeats[0].id})
    requires ResolvesTo(net, y, net.repeats[0].times - 1, s.0, s.1) && (IsParam(net, y) ==> s.0 == y)
    requires Inst(net, net.repeats[0], x, 0) == Inst(net, net.repeats[0], y, net.repeats[0].times - 1)
    ensures ResolvesTo(net, x, 0, s.0, s.1)
  {
  }

  lemma DelayResolves(net: Net, x: string, i: int)
    requires Expandable(net) && 0 <= i < net.repeats[0].times && Marker(net, net.repeats[0], "Delay", x).Some?
    ensures var r := net.repeats[0]; var m := Marker(net, r, "Delay", x).value;
            && |m.inputs| == 2 && m.outputs == [x] && r.id in Ids(net, x) && !IsParam(net, x)
            && (forall y :: y in m.inputs ==> DeclaredName(net, y))
            && r.id in Ids(net, m.inputs[0]) && r.id !in Ids(net, m.inputs[1])
            && var s := if i == 0 then (m.inputs[1], r.times - 1) else (m.inputs[0], i - 1);
               ResolvesTo(net, x, i, s.0, s.1)
  {
    hide Expandable, FindMarker, Placed, IsParam, Ids, Marker, DeclaredName, EndSource;
    Parts(net);
    var r := net.repeats[0];
    FoundMarker(net, "Delay", x);
    var m := Marker(net, r, "Delay", x).value;
    assert m.inputs[0] in m.inputs && m.inputs[1] in m.inputs && x in m.outputs;
    MarkerIs(net, m, "RepeatStart", x);
    MarkerIs(net, m, "RepeatEnd", x);
    if i == 0 {
      OutsideResolves(net, m.inputs[1], r.times - 1);
      EndSourceIs(net, r, m.inputs[1]);
      InitialResolves(net, x, m.inputs[1], (m.inputs[1], r.times - 1));
    } else {
      CarriedResolves(net, x, i, m.inputs[0], i - 1);
    }
  }

  /** Every instance is the instance of a plain variable. */
  lemma Resolves(net: Net, x: string, i: int)
    requires Expandable(net) && DeclaredName(net, x) && 0 <= i < net.repeats[0].times
    ensures var s := Source(net, net.repeats[0], x, i); ResolvesTo(net, x, i, s.0, s.1)
  {
    hide Expandable, FindMarker, Placed, IsParam, Ids, DeclaredName, EndSource, Inst, ResolvesTo, IdsOf, LoopsOf;
    Parts(net);
    var r := net.repeats[0];
    if Plain(net, r, x) {
      PlainResolves(net, x, i, i);
    } else if Marker(net, r, "RepeatStart", x).Some? {
      StartResolves(net, x, i);
    } else if Marker(net, r, "RepeatEnd", x).Some? {
      EndResolves(net, x, i);
      EndSourceIs(net, r, x);
    } else {
      DelayResolves(net, x, i);
    }
  }

  /** What a name is turned into fits where the name did. */
  lemma InstFits(net: Net, x: string, i: int, s: set<string>)
    requires Expandable(net) && DeclaredName(net, x) && 0 <= i < net.repeats[0].times
    ensures var r, y, net' := net.repeats[0], Inst(net, net.repeats[0], x, i), ExpandStep(net);
            && DeclaredName(net', y)
            && Ids(net', y) <= Ids(net, x)
            && (Fits(net, x, s) ==> Fits(net', y, s - {r.id}))
  {
    hide Expandable, FindMarker, Placed, IsParam, Ids, DeclaredName, Source, Inst, IdsOf, LoopsOf, ExpandStep;
    Parts(net);
    var r := net.repeats[0];
    Resolves(net, x, i);
    var src := Source(net, r, x, i);
    PlainName(net, src.0, src.1);
    if IsParam(net, x) {
      SourceParam(net, r, x, i);
    }
  }

  lemma SourceParam(net: Net, r: Repeat, x: string, i: int)
    requires IsParam(net, x)
    ensures Source(net, r, x, i) == (x, i)
  {
  }

  // ---- What becomes of one function ------------------------------------------------------------

  /** An input of a function that is no marker of loop `id` comes from inside that loop exactly if the function
      runs in it, or is a parameter. */
  lemma InputFits(net: Net, f: Function, x: string, id: string) returns (s: set<string>)
    requires Placed(net, f) && x in f.inputs && !IsMarkerOf(f, id)
    ensures Fits(net, x, s) && (id in s <==> id in Own(f))
  {
    hide Fits, IsParam, Ids, DeclaredName;
    if !LoopMarker(net, f) {
      s := Own(f);
    } else if f.kind == "RepeatStart" {
      s := if x == f.inputs[0] then Own(f) - {LoopOf(f)} else Own(f);
      ExactlyFits(net, f.inputs[1], Own(f));
    } else if f.kind == "Delay" {
      s := if x == f.inputs[0] then Own(f) else Own(f) - {LoopOf(f)};
      ExactlyFits(net, f.inputs[0], Own(f));
    } else if f.kind == "RecurrentInput" {
      s := Own(f) - {LoopOf(f)};
    } else {
      s := Own(f) + {LoopOf(f)};
      ExactlyFits(net, f.inputs[0], s);
    }
  }

  lemma ExactlyFits(net: Net, x: string, s: set<string>)
    ensures Exactly(net, x, s) ==> Fits(net, x, s)
  {
  }

  /** `f'` is `f` with every name replaced by its instance in iteration `i`. */
  ghost predicate Copy(net: Net, f: Function, f': Function, i: int)
    requires |net.repeats| > 0 && 0 <= i < net.repeats[0].times
  {
    var r := net.repeats[0];
    && !IsMarkerOf(f, r.id) && (r.id in f.repeatIds || i == r.times - 1)
    && f'.kind == f.kind && LoopOf(f') == LoopOf(f) && KernelOf(f') == KernelOf(f) && f'.recurrentAxis == f.recurrentAxis
    && Own(f') == Own(f) - {r.id} && (Distinct(f.repeatIds) ==> Distinct(f'.repeatIds))
    && |f'.inputs| == |f.inputs| && |f'.outputs| == |f.outputs|
    && (forall j :: 0 <= j < |f.inputs| ==> f'.inputs[j] == Inst(net, r, f.inputs[j], i))
    && (forall j :: 0 <= j < |f.outputs| ==> f'.outputs[j] == Inst(net, r, f.outputs[j], i))
  }

  /** Inside the loop the tables resolve an input to its instance. */
  lemma BodyInputIs(net: Net, x: string, i: int)
    requires Expandable(net) && DeclaredName(net, x) && 0 <= i < net.repeats[0].times
    requires IsParam(net, x) || net.repeats[0].id in Ids(net, x)
    ensures BodyInput(net, net.repeats[0], x, i) == Inst(net, net.repeats[0], x, i)
  {
    hide Expandable, FindMarker, Placed, PlacedMarker, Finds, IsParam, LoopsOf, IdsOf, DeclaredName, Source, ResolvesTo;
    Parts(net);
    var r := net.repeats[0];
    if Marker(net, r, "RepeatEnd", x).Some? && !IsParam(net, x) && Marker(net, r, "RepeatStart", x).None? {
      EndResolves(net, x, i);
    } else if Marker(net, r, "RepeatStart", x).Some? {
      StartResolves(net, x, i);
      StartCarries(net, x);
    }
  }

  lemma StartCarries(net: Net, x: string)
    requires Expandable(net) && Marker(net, net.repeats[0], "RepeatStart", x).Some?
    ensures Marker(net, net.repeats[0], "RepeatEnd", Input(Marker(net, net.repeats[0], "RepeatStart", x).value, 1)).None?
  {
    hide Expandable, FindMarker, Placed, Finds, IsParam, DeclaredName, Ids;
    Parts(net);
    FoundMarker(net, "RepeatStart", x);
    var m := Marker(net, net.repeats[0], "RepeatStart", x).value;
    CarriedKept(net, net.repeats[0], m, 1);
    KeptDirect(net, m.inputs[1], Own(m));
  }

  lemma BodyCopy(net: Net, f: Function, i: int)
    requires Expandable(net) && f in net.funcs && !IsMarkerOf(f, net.repeats[0].id) && net.repeats[0].id in f.repeatIds
    requires 0 <= i < net.repeats[0].times
    ensures Copy(net, f, BodyFunction(net, net.repeats[0], f, i), i)
  {
    hide Expandable, Inst, BodyInput, Placed, IsParam, Ids, DeclaredName;
    Parts(net);
    var r := net.repeats[0];
    PlacedShape(net, f);
    DeletedId(f.repeatIds, r.id);
    forall j | 0 <= j < |f.inputs| ensures BodyInput(net, r, f.inputs[j], i) == Inst(net, r, f.inputs[j], i) {
      assert f.inputs[j] in f.inputs;
      var s := InputFits(net, f, f.inputs[j], r.id);
      BodyInputIs(net, f.inputs[j], i);
    }
    forall j | 0 <= j < |f.outputs| ensures GenName(f.outputs[j], r.id, i) == Inst(net, r, f.outputs[j], i) {
      assert f.outputs[j] in f.outputs;
      KeptOutput(net, f, f.outputs[j]);
      InstDirect(net, f.outputs[j], i);
    }
  }

  lemma OutsideCopy(net: Net, f: Function)
    requires Expandable(net) && f in net.funcs && !IsMarkerOf(f, net.repeats[0].id) && net.repeats[0].id !in f.repeatIds
    ensures var r := net.repeats[0];
            r.times >= 1 && Copy(net, f, f.(inputs := OutsideInputs(net, r, f.inputs)), r.times - 1)
  {
    hide Expandable, Inst, EndOr, Placed, IsParam, Ids, DeclaredName, EndSource, ResolvesTo;
    Parts(net);
    var r := net.repeats[0];
    PlacedShape(net, f);
    forall j | 0 <= j < |f.inputs|
      ensures EndOr(net, r, f.inputs[j], r.times - 1, f.inputs[j]) == Inst(net, r, f.inputs[j], r.times - 1)
    {
      assert f.inputs[j] in f.inputs;
      var s := InputFits(net, f, f.inputs[j], r.id);
      OutsideResolves(net, f.inputs[j], r.times - 1);
    }
    forall j | 0 <= j < |f.outputs| ensures f.outputs[j] == Inst(net, r, f.outputs[j], r.times - 1) {
      assert f.outputs[j] in f.outputs;
      KeptOutput(net, f, f.outputs[j]);
      InstDirect(net, f.outputs[j], r.times - 1);
    }
  }

  /** RecurrentInput becomes a Split whose slices are the instances of its output. */
  function SplitOf(r: Repeat, f: Function): Function
    requires r.times >= 0
  {
    AsSplit(f).(outputs := Instances(Output(f), r), repeatIds := DeleteId(f.repeatIds, r.id))
  }

  /** RecurrentOutput becomes a Stack of the instances of its input. */
  function StackOf(r: Repeat, f: Function): Function
    requires r.times >= 0
  {
    AsStack(f).(inputs := Instances(Input(f, 0), r))
  }

  lemma SplitNames(net: Net, f: Function)
    requires Expandable(net) && f in net.funcs && IsMarkerOf(f, net.repeats[0].id) && f.kind == "RecurrentInput"
    ensures var r := net.repeats[0];
            && WellShaped(f) && r.id in Own(f) && Own(SplitOf(r, f)) == Own(f) - {r.id} && Distinct(SplitOf(r, f).repeatIds)
            && Direct(net, r, f.outputs[0]) && DeclaredName(net, f.outputs[0]) && Exactly(net, f.outputs[0], Own(f))
            && (forall i :: 0 <= i < r.times ==> Inst(net, r, f.outputs[0], i) == SplitOf(r, f).outputs[i])
            && (forall x, i :: x in f.inputs && 0 <= i < r.times ==> Inst(net, r, x, i) == x)
            && (forall x :: x in f.inputs ==> DeclaredName(net, x) && Fits(net, x, Own(f) - {r.id}) && Plain(net, r, x))
  {
    hide Expandable, Inst, Placed, IsParam, Ids, DeclaredName, EndSource, ResolvesTo, FindMarker, Direct;
    Parts(net);
    MarkerPlaced(net, f);
    var r, o := net.repeats[0], f.outputs[0];
    PlacedShape(net, f);
    DeletedId(f.repeatIds, r.id);
    KeptOutput(net, f, o);
    forall i | 0 <= i < r.times ensures Inst(net, r, o, i) == SplitOf(r, f).outputs[i] {
      InstDirect(net, o, i);
    }
    forall x, i | x in f.inputs && 0 <= i < r.times ensures Inst(net, r, x, i) == x && Plain(net, r, x) {
      OutsideResolves(net, x, i);
    }
    assert forall x :: x in f.inputs ==> Inst(net, r, x, 0) == x && Plain(net, r, x);
  }

  lemma MarkerPlaced(net: Net, f: Function)
    requires Expandable(net) && f in net.funcs && IsMarkerOf(f, net.repeats[0].id)
    ensures Placed(net, f) && WellShaped(f) && PlacedMarker(net, f, net.repeats[0].id) && Finds(net, net.repeats[0], f)
    ensures f.outputs == [f.outputs[0]] && f.outputs[0] in f.outputs && f.inputs[0] in f.inputs
    ensures |f.inputs| > 1 ==> f.inputs[1] in f.inputs
  {
    hide FindMarker, PlacedMarker, Finds, Ids, IsParam, LoopsOf, IdsOf, ExpandVariables, ExpandFunctions;
    LoopsShrink(net);
    assert Placed(net, f);
  }

  lemma StackNames(net: Net, f: Function)
    requires Expandable(net) && f in net.funcs && IsMarkerOf(f, net.repeats[0].id) && f.kind == "RecurrentOutput"
    ensures var r := net.repeats[0];
            && WellShaped(f) && r.id !in Own(f) && |f.inputs| == 1 && DeclaredName(net, f.inputs[0])
            && Direct(net, r, f.outputs[0]) && DeclaredName(net, f.outputs[0]) && Exactly(net, f.outputs[0], Own(f))
            && Direct(net, r, f.inputs[0]) && Exactly(net, f.inputs[0], Own(f) + {r.id})
            && (forall i :: 0 <= i < r.times ==> Inst(net, r, f.inputs[0], i) == StackOf(r, f).inputs[i])
            && (forall i :: 0 <= i < r.times ==> Inst(net, r, f.outputs[0], i) == f.outputs[0])
  {
    hide Expandable, Inst, Placed, IsParam, Ids, DeclaredName, FindMarker, Direct;
    Parts(net);
    MarkerPlaced(net, f);
    var r, o := net.repeats[0], f.outputs[0];
    PlacedShape(net, f);
    KeptOutput(net, f, o);
    KeptDirect(net, f.inputs[0], Own(f) + {r.id});
    forall i | 0 <= i < r.times
      ensures Inst(net, r, f.inputs[0], i) == StackOf(r, f).inputs[i] && Inst(net, r, o, i) == o
    {
      InstDirect(net, f.inputs[0], i);
      InstDirect(net, o, i);
    }
  }
}
