/** What else the expander itself relies on: names of functions, and its record of parameter names. */
module ExpansionNames {
  import opened Network
  import opened Unroll
  import opened Placement
  import opened LoopMeaning
  import opened WellFormedness
  import opened ExpansionMeaning
  import opened Dag

  // ---- Names of functions ----------------------------------------------------------------------

  /** `f` seen as a variable: its name, and the loops for which there will be an instance per iteration. */
  function Stub(f: Function): Variable {
    Variable(f.name, "", if f.kind == "RecurrentInput" then DeleteId(f.repeatIds, LoopOf(f)) else f.repeatIds)
  }

  /** Expansion never gives two functions the same name. */
  ghost predicate NamedApart(net: Net) {
    UniqueNames(net.funcs) && exists pool :: Pooled(net, pool)
  }

  ghost predicate Pooled(net: Net, pool: seq<Variable>) {
    FreshNames(pool, net.repeats) && forall f :: f in net.funcs ==> Stub(f) in pool
  }

  lemma {:induction false} DeletedTwice(ids: seq<string>, b: string, c: string)
    ensures DeleteId(DeleteId(ids, b), c) == DeleteId(DeleteId(ids, c), b)
  {
    if ids != [] && ids[0] != b && ids[0] != c {
      DeletedTwice(ids[1..], b, c);
      assert DeleteId(DeleteId(ids, b), c) == [ids[0]] + DeleteId(DeleteId(ids[1..], b), c);
      assert DeleteId(DeleteId(ids, c), b) == [ids[0]] + DeleteId(DeleteId(ids[1..], c), b);
    }
  }

  /** A function is named as an instance of its stub. */
  lemma StubInstance(net: Net, f: Function, i: int)
    requires Expandable(net) && f in net.funcs && !Removed(net.repeats[0], f) && 0 <= i < net.repeats[0].times
    ensures var r := net.repeats[0]; Stub(Replacement(net, r, f, i)) == InstanceOf(r, Stub(f), i)
    ensures !IsMarkerOf(f, net.repeats[0].id) ==> (net.repeats[0].id in Own(f) <==> net.repeats[0].id in Stub(f).repeatIds)
  {
    hide Expandable, Placed, BodyInputs, GenNames, OutsideInputs, Instances, GenName, PlacedMarker, Finds;
    Parts(net);
    PlacedShape(net, f);
    var r := net.repeats[0];
    DeletedId(f.repeatIds, r.id);
    DeletedId(f.repeatIds, LoopOf(f));
    if IsMarkerOf(f, r.id) {
      if f.kind == "RecurrentOutput" {
        StackNames(net, f);
        assert r.id !in f.repeatIds;
      }
    } else {
      DeletedTwice(f.repeatIds, LoopOf(f), r.id);
    }
  }

  lemma SameName(net: Net, pool: seq<Variable>, f: Function, i: int, h: Function, j: int)
    requires Expandable(net) && Pooled(net, pool) && UniqueNames(net.funcs)
    requires f in net.funcs && h in net.funcs && !Removed(net.repeats[0], f) && !Removed(net.repeats[0], h)
    requires 0 <= i < net.repeats[0].times && 0 <= j < net.repeats[0].times
    requires Replacement(net, net.repeats[0], f, i).name == Replacement(net, net.repeats[0], h, j).name
    ensures Replacement(net, net.repeats[0], f, i) == Replacement(net, net.repeats[0], h, j)
  {
    hide Expandable, Replacement, ExpandVariables, InstanceOf;
    Parts(net);
    var r := net.repeats[0];
    StubInstance(net, f, i);
    StubInstance(net, h, j);
    assert FreshNames(ExpandVariables(r, pool), net.repeats[1..]);
    assert NoTwice(ExpandVariables(r, pool));
    NameTells(r, pool, Stub(f), i, Stub(h), j);
    OneReplacement(net, r, f, i, j);
  }

  lemma StepNamedApart(net: Net)
    requires Expandable(net) && NamedApart(net)
    ensures HasLoop(net) && NamedApart(ExpandStep(net))
  {
    hide Expandable, Replacement, ExpandVariables, ExpandFunctions, InstanceOf, Stub, NoTwice;
    StepLoops(net);
    var r, net' := net.repeats[0], ExpandStep(net);
    var pool :| Pooled(net, pool);
    assert FreshNames(ExpandVariables(r, pool), net'.repeats);
    forall f' | f' in net'.funcs ensures Stub(f') in ExpandVariables(r, pool) {
      var f, i := Replaced(net, f');
      StubInstance(net, f, i);
      InstanceDeclared(r, pool, Stub(f), i);
    }
    assert Pooled(net', ExpandVariables(r, pool));
    forall f', h' | f' in net'.funcs && h' in net'.funcs && f'.name == h'.name ensures f' == h' {
      var f, i := Replaced(net, f');
      var h, j := Replaced(net, h');
      SameName(net, pool, f, i, h, j);
    }
  }

  /** In the expanded network every function can be told by its name. */
  lemma {:induction false} ExpandedNames(net: Net)
    requires WellFormed(net) && NamedApart(net)
    ensures Loops(net) && UniqueNames(ExpandAll(net).funcs)
    decreases |net.repeats|
  {
    hide WellFormed, Expandable, ExpandStep;
    OneStep(net);
    if net.repeats != [] {
      StepNamedApart(net);
      ExpandedNames(ExpandStep(net));
    }
  }

  // ---- The record of parameter names -----------------------------------------------------------

  /** The parameters that expanding loop `r` renames. */
  function Renamed(vars: seq<Variable>, r: Repeat): set<string> {
    set v | v in vars && v.kind == "Parameter" && r.id in v.repeatIds :: v.name
  }

  /** No variable takes a name that a parameter has lost to expansion: the record is never cleared. */
  ghost predicate NoNameReused(vars: seq<Variable>, repeats: seq<Repeat>, gone: set<string>)
    decreases |repeats|
  {
    && (forall v :: v in vars ==> v.name !in gone)
    && (repeats != [] ==>
          repeats[0].times >= 1 && NoNameReused(ExpandVariables(repeats[0], vars), repeats[1..], gone + Renamed(vars, repeats[0])))
  }

  /** Of the parameters still there the record knows nothing, or that they never had another name. */
  ghost predicate Remembers(vars: seq<Variable>, record: Names, gone: set<string>) {
    forall x :: x in record ==> x in gone || exists v :: v in vars && KnownAs(v, record, x)
  }

  predicate KnownAs(v: Variable, record: Names, x: string) {
    v.kind == "Parameter" && v.name == x && x in record && (record[x] == [] || (record[x] == [x] && v.repeatIds == []))
  }

  lemma RecordIsFit(net: Net, record: Names, gone: set<string>)
    requires NoTwice(net.vars) && (forall f, x :: f in net.funcs && x in f.inputs ==> DeclaredName(net, x))
    requires NoNameReused(net.vars, net.repeats, gone) && Remembers(net.vars, record, gone)
    ensures RecordFits(net, record)
  {
    hide ExpandVariables;
    forall v | v in net.vars && v.name in record ensures KnownAs(v, record, v.name) {
      var w :| w in net.vars && KnownAs(w, record, v.name);
      assert w == v;
    }
    forall f, x | f in net.funcs && x in f.inputs && x in record ensures IsParam(net, x) {
      var v := Declaration(net, x);
      assert KnownAs(v, record, x);
    }
  }

  lemma StepRemembers(vars: seq<Variable>, record: Names, r: Repeat, gone: set<string>)
    requires r.times >= 1 && NoTwice(vars) && Remembers(vars, record, gone) && forall v :: v in vars ==> v.name !in gone
    ensures Remembers(ExpandVariables(r, vars), RecordVariables(record, vars, r), gone + Renamed(vars, r))
  {
    hide ExpandVariables, RecordVariables;
    var after := RecordVariables(record, vars, r);
    forall x | x in after && x !in gone && x !in Renamed(vars, r)
      ensures exists v :: v in ExpandVariables(r, vars) && KnownAs(v, after, x)
    {
      RecordedNames(record, vars, r, x);
      var k :| 0 <= k < |vars| && vars[k].kind == "Parameter" && vars[k].name == x;
      RecordedParam(record, vars, r, k);
      if x in record {
        var w :| w in vars && KnownAs(w, record, x);
        assert w == vars[k];
      }
      InstanceDeclared(r, vars, vars[k], 0);
      assert KnownAs(vars[k], after, x);
    }
  }

  /** Before every round the record can be trusted. */
  lemma {:induction false} RecordsFit(net: Net, record: Names, gone: set<string>)
    requires WellFormed(net) && Loops(net) && NoNameReused(net.vars, net.repeats, gone) && Remembers(net.vars, record, gone)
    ensures AllRecordsFit(net, record)
    decreases |net.repeats|
  {
    hide WellFormed, Expandable, ExpandVariables, ExpandFunctions, RecordVariables, RecordFits, Remembers;
    OneStep(net);
    if net.repeats != [] {
      Parts(net);
      forall f, x | f in net.funcs && x in f.inputs ensures DeclaredName(net, x) {
        PlacedShape(net, f);
      }
      RecordIsFit(net, record, gone);
      StepRemembers(net.vars, record, net.repeats[0], gone);
      RecordsFit(ExpandStep(net), RecordVariables(record, net.vars, net.repeats[0]), gone + Renamed(net.vars, net.repeats[0]));
    }
  }

  lemma NothingRecorded(vars: seq<Variable>)
    ensures Remembers(vars, map[], {})
  {
  }
}
