/** The expander itself: tables, loops over them, and the depth-first sort. */
module NetworkExpander {
  import opened Network
  import opened Unroll
  import opened Wrappers
  import opened Dag
  import opened Placement
  import opened WellFormedness
  import opened ExpansionMeaning
  import opened ExpansionNames

  datatype VisitState = VISITING | VISITED

  ghost predicate Done(state: map<string, VisitState>, f: Function) {
    f.name in state && state[f.name] == VISITED
  }

  /** The depth-first search so far: `stack` is being visited, `sorted` is done and closed. */
  ghost predicate Search(funcs: seq<Function>, state: map<string, VisitState>, sorted: seq<Function>, stack: seq<Function>) {
    && UniqueNames(funcs) && Chain(stack)
    && (forall f :: f in stack ==> f in funcs)
    && (forall f :: f in funcs ==> (f.name in state && state[f.name] == VISITING <==> f in stack))
    && (forall f :: f in sorted <==> f in funcs && Done(state, f))
    && NoRepeats(sorted)
    && Ordered(sorted)
    && (forall f, g :: f in sorted && g in funcs && Edge(f, g) ==> g in sorted)
  }

  /** An edge back into the stack closes a cycle. */
  lemma BackEdge(funcs: seq<Function>, stack: seq<Function>, func: Function)
    requires Chain(stack) && (forall f :: f in stack ==> f in funcs) && func in stack && Edge(stack[|stack| - 1], func)
    ensures Cyclic(funcs)
  {
    var k :| 0 <= k < |stack| && stack[k] == func;
    var p := stack[k..];
    forall i | 0 <= i < |p| - 1 ensures Edge(p[i], p[i + 1]) {
      assert p[i] == stack[k + i] && p[i + 1] == stack[k + i + 1];
    }
    assert Cycle(funcs, p);
  }

  lemma SearchDeeper(funcs: seq<Function>, state: map<string, VisitState>, sorted: seq<Function>, stack: seq<Function>, func: Function)
    requires Search(funcs, state, sorted, stack) && func in funcs && func.name !in state
    requires stack != [] ==> Edge(stack[|stack| - 1], func)
    ensures Search(funcs, state[func.name := VISITING], sorted, stack + [func])
    ensures forall f :: Done(state, f) ==> Done(state[func.name := VISITING], f)
  {
  }

  /** With all its readers done, a function may be put in front. */
  lemma SearchBack(funcs: seq<Function>, state: map<string, VisitState>, sorted: seq<Function>, stack: seq<Function>, func: Function)
    requires func !in stack && Search(funcs, state, sorted, stack + [func]) && forall g :: g in funcs && Edge(func, g) ==> Done(state, g)
    ensures Search(funcs, state[func.name := VISITED], [func] + sorted, stack)
    ensures forall f :: Done(state, f) ==> Done(state[func.name := VISITED], f)
  {
    var state', path := state[func.name := VISITED], stack + [func];
    assert func in path;
    forall i | 0 <= i < |stack| - 1 ensures Edge(stack[i], stack[i + 1]) {
      assert path[i] == stack[i] && path[i + 1] == stack[i + 1];
    }
    forall f | f in funcs ensures f.name in state' && state'[f.name] == VISITING <==> f in stack {
      assert f in path <==> f in stack || f == func;
    }
    forall f ensures f in [func] + sorted <==> f in funcs && Done(state', f) {
    }
    forall i, j | 0 <= i <= |sorted| && 0 <= j <= |sorted| && Edge(([func] + sorted)[i], ([func] + sorted)[j]) ensures i < j {
      if i == 0 {
        assert ([func] + sorted)[j] in [func] + sorted;
      }
    }
  }

  /** The table of one kind of marker: what each output stands for in every iteration. */
  ghost predicate DelayTable(table: Names, funcs: seq<Function>, r: Repeat) {
    forall x :: var m := FindMarker(funcs, "Delay", r.id, x);
      (x in table <==> m.Some?) && (m.Some? && r.times >= 0 ==> table[x] == DelayNames(r, m.value))
  }

  ghost predicate EndTable(table: Names, funcs: seq<Function>, r: Repeat) {
    forall x :: var m := FindMarker(funcs, "RepeatEnd", r.id, x);
      (x in table <==> m.Some?) && (m.Some? && r.times >= 0 ==> table[x] == Instances(Input(m.value, 0), r))
  }

  ghost predicate StartTable(table: Names, net: Net, funcs: seq<Function>, r: Repeat) {
    forall x :: var m := FindMarker(funcs, "RepeatStart", r.id, x);
      (x in table <==> m.Some?) && (m.Some? && r.times >= 0 ==> table[x] == StartNames(net, r, m.value))
  }

  function DelayName(r: Repeat, m: Function, i: nat): string {
    if i == 0 then Input(m, 1) else GenName(Input(m, 0), r.id, i - 1)
  }

  function DelayNames(r: Repeat, m: Function): (ys: seq<string>)
    requires r.times >= 0
    ensures |ys| == r.times && forall i :: 0 <= i < r.times ==> ys[i] == DelayName(r, m, i)
  {
    seq(r.times, i requires 0 <= i < r.times => DelayName(r, m, i))
  }

  function StartName(net: Net, r: Repeat, m: Function, i: nat): string
    requires i < r.times
  {
    if i == 0 then EndOr(net, r, Input(m, 0), r.times - 1, Input(m, 0))
    else EndOr(net, r, Input(m, 1), i - 1, GenName(Input(m, 1), r.id, i - 1))
  }

  function StartNames(net: Net, r: Repeat, m: Function): (ys: seq<string>)
    requires r.times >= 0
    ensures |ys| == r.times && forall i :: 0 <= i < r.times ==> ys[i] == StartName(net, r, m, i)
  {
    seq(r.times, i requires 0 <= i < r.times => StartName(net, r, m, i))
  }

  /** Expansion keeps every function in shape. */
  lemma {:induction false} ShapesKept(net: Net, r: Repeat, funcs: seq<Function>)
    requires r.times >= 1 && forall f :: f in funcs ==> WellShaped(f)
    ensures forall f :: f in ExpandFunctions(net, r, funcs) ==> WellShaped(f)
  {
    if funcs != [] {
      var rest, f := funcs[..|funcs| - 1], funcs[|funcs| - 1];
      assert f in funcs;
      ShapesKept(net, r, rest);
    }
  }

  class NetworkExpander {
    const network: Net
    var expand: Net
    var sorted: seq<Function>
    var visitorState: map<string, VisitState>
    var paramOriginalNames: map<string, seq<string>>
    var delayVar: map<string, seq<string>>
    var repeatEndVar: map<string, seq<string>>
    var repeatStartVar: map<string, seq<string>>

    constructor (network: Net)
      ensures this.network == network && expand == Net([], [], []) && sorted == [] && visitorState == map[]
      ensures paramOriginalNames == delayVar == repeatEndVar == repeatStartVar == map[]
    {
      this.network := network;
      expand, sorted, visitorState := Net([], [], []), [], map[];
      paramOriginalNames, delayVar, repeatEndVar, repeatStartVar := map[], map[], map[], map[];
    }

    ghost predicate Visited(f: Function)
      reads `visitorState
    {
      Done(visitorState, f)
    }

    ghost predicate Searching(stack: seq<Function>)
      reads `expand, `sorted, `visitorState
    {
      Search(expand.funcs, visitorState, sorted, stack)
    }

    ghost function Unvisited(): set<string>
      reads `expand, `visitorState
    {
      (set f | f in expand.funcs :: f.name) - visitorState.Keys
    }

    /** `visit`; a true result stands for the exit on "network is not DAG". */
    method Visit(func: Function, ghost stack: seq<Function>) returns (fatal: bool)
      requires Searching(stack) && func in expand.funcs
      requires stack != [] ==> Edge(stack[|stack| - 1], func)
      modifies `sorted, `visitorState
      ensures fatal ==> Cyclic(expand.funcs)
      ensures !fatal ==> Searching(stack) && Visited(func)
      ensures !fatal ==> forall f :: old(Visited(f)) ==> Visited(f)
      ensures !fatal ==> old(visitorState.Keys) <= visitorState.Keys
      decreases Unvisited(), 0
    {
      ghost var state := visitorState;
      if func.name in visitorState {
        fatal := visitorState[func.name] == VISITING;
        if fatal {
          BackEdge(expand.funcs, stack, func);
        }
        return;
      }
      SearchDeeper(expand.funcs, visitorState, sorted, stack, func);
      visitorState := visitorState[func.name := VISITING];
      ghost var deeper := visitorState;
      fatal := VisitSuccessors(func, stack + [func]);
      if fatal {
        return;
      }
      assert forall f :: Done(deeper, f) ==> Visited(f);
      SearchBack(expand.funcs, visitorState, sorted, stack, func);
      visitorState := visitorState[func.name := VISITED];
      sorted := [func] + sorted;
      assert forall f :: Done(state, f) ==> Visited(f);
    }

    /** The loops of `visit` over outputs and functions. */
    method VisitSuccessors(func: Function, ghost path: seq<Function>) returns (fatal: bool)
      requires Searching(path) && path != [] && path[|path| - 1] == func
      modifies `sorted, `visitorState
      ensures fatal ==> Cyclic(expand.funcs)
      ensures !fatal ==> Searching(path) && forall g :: g in expand.funcs && Edge(func, g) ==> Visited(g)
      ensures !fatal ==> forall f :: old(Visited(f)) ==> Visited(f)
      ensures !fatal ==> old(visitorState.Keys) <= visitorState.Keys
      decreases Unvisited(), 2
    {
      var funcs := expand.funcs;
      for k := 0 to |func.outputs|
        invariant Searching(path)
        invariant old(visitorState.Keys) <= visitorState.Keys
        invariant forall f :: old(Visited(f)) ==> Visited(f)
        invariant forall h, g :: 0 <= h < k && g in funcs && func.outputs[h] in g.inputs ==> Visited(g)
      {
        for t := 0 to |funcs|
          invariant Searching(path)
          invariant old(visitorState.Keys) <= visitorState.Keys
          invariant forall f :: old(Visited(f)) ==> Visited(f)
          invariant forall h, g :: 0 <= h < k && g in funcs && func.outputs[h] in g.inputs ==> Visited(g)
          invariant forall s :: 0 <= s < t && func.outputs[k] in funcs[s].inputs ==> Visited(funcs[s])
        {
          fatal := VisitReaders(func, func.outputs[k], funcs[t], path);
          if fatal {
            return;
          }
        }
      }
      fatal := false;
    }

    /** Visit `next` once for each time it reads `output`. */
    method VisitReaders(func: Function, output: string, next: Function, ghost path: seq<Function>) returns (fatal: bool)
      requires Searching(path) && path != [] && path[|path| - 1] == func && next in expand.funcs && output in func.outputs
      modifies `sorted, `visitorState
      ensures fatal ==> Cyclic(expand.funcs)
      ensures !fatal ==> Searching(path) && (output in next.inputs ==> Visited(next))
      ensures !fatal ==> forall f :: old(Visited(f)) ==> Visited(f)
      ensures !fatal ==> old(visitorState.Keys) <= visitorState.Keys
      decreases Unvisited(), 1
    {
      for u := 0 to |next.inputs|
        invariant Searching(path)
        invariant old(visitorState.Keys) <= visitorState.Keys
        invariant forall f :: old(Visited(f)) ==> Visited(f)
        invariant output in next.inputs[..u] ==> Visited(next)
      {
        if next.inputs[u] == output {
          assert Edge(func, next);
          fatal := Visit(next, path);
          if fatal {
            return;
          }
        }
        assert next.inputs[..u + 1] == next.inputs[..u] + [next.inputs[u]];
      }
      assert next.inputs[..|next.inputs|] == next.inputs;
      fatal := false;
    }

    /** `sort_functions`: an order of all functions, or the fatal exit exactly on a cycle. */
    method SortFunctions() returns (fatal: bool)
      requires UniqueNames(expand.funcs) && visitorState == map[] && sorted == []
      modifies `sorted, `visitorState
      ensures fatal <==> Cyclic(expand.funcs)
      ensures !fatal ==> Ordered(sorted) && NoRepeats(sorted) && forall f :: f in sorted <==> f in expand.funcs
      ensures !fatal && NoRepeats(expand.funcs) ==> multiset(sorted) == multiset(expand.funcs)
    {
      var funcs := expand.funcs;
      for t := 0 to |funcs|
        invariant Searching([])
        invariant forall s :: 0 <= s < t ==> Visited(funcs[s])
      {
        if funcs[t].name !in visitorState {
          fatal := Visit(funcs[t], []);
          if fatal {
            return;
          }
        }
      }
      fatal := false;
      assert forall f :: f in funcs ==> Visited(f);
      OrderedIsAcyclic(sorted, funcs);
      if NoRepeats(funcs) {
        SameMembers(sorted, funcs);
      }
    }

    /** The loop over variables: one instance per iteration, and the record of parameter names. */
    method ExpandVariablesOf(net: Net, r: Repeat) returns (vars: seq<Variable>)
      requires r.times >= 1
      modifies `paramOriginalNames
      ensures vars == ExpandVariables(r, net.vars)
      ensures paramOriginalNames == RecordVariables(old(paramOriginalNames), net.vars, r)
    {
      vars := [];
      for k := 0 to |net.vars|
        invariant vars == ExpandVariables(r, net.vars[..k])
        invariant paramOriginalNames == RecordVariables(old(paramOriginalNames), net.vars[..k], r)
      {
        var more := ExpandOneVariable(net.vars[k], r);
        vars := vars + more;
        assert net.vars[..k + 1][..k] == net.vars[..k];
      }
      assert net.vars[..|net.vars|] == net.vars;
    }

    method ExpandOneVariable(v: Variable, r: Repeat) returns (vars: seq<Variable>)
      requires r.times >= 1
      modifies `paramOriginalNames
      ensures vars == ExpandVariable(r, v)
      ensures paramOriginalNames == RecordVariable(old(paramOriginalNames), v, r)
      // in fields
      ensures r.id !in v.repeatIds ==> vars == [v]
      ensures r.id in v.repeatIds ==>
                && |vars| == r.times
                && forall i :: 0 <= i < r.times ==>
                     && vars[i].kind == v.kind && multiset(vars[i].repeatIds) == multiset(v.repeatIds) - multiset{r.id}
                     && vars[i].name == if v.kind == "Parameter" then OldName(v.name, r.id, i) else GenName(v.name, r.id, i)
    {
      VariableInFields(r, v);
      hide GenName, OldName, DeleteId, VariableInstance;
      if v.kind == "Parameter" && v.name !in paramOriginalNames {
        paramOriginalNames := paramOriginalNames[v.name := []];
      }
      if r.id in v.repeatIds {
        vars := InstancesOf(v, r);
      } else {
        if v.kind == "Parameter" && v.repeatIds == [] && paramOriginalNames[v.name] == [] {
          paramOriginalNames := paramOriginalNames[v.name := [v.name]];
        }
        vars := [v];
      }
    }

    method InstancesOf(v: Variable, r: Repeat) returns (vars: seq<Variable>)
      requires r.times >= 1 && r.id in v.repeatIds && (v.kind == "Parameter" ==> v.name in paramOriginalNames)
      modifies `paramOriginalNames
      ensures vars == ExpandVariable(r, v)
      ensures v.kind != "Parameter" ==> paramOriginalNames == old(paramOriginalNames)
      ensures v.kind == "Parameter" ==>
                paramOriginalNames == old(paramOriginalNames)[v.name := old(paramOriginalNames)[v.name] + OldNames(v.name, r)]
    {
      hide GenName, OldName, DeleteId;
      ghost var record := paramOriginalNames;
      ghost var known, names := if v.kind == "Parameter" then record[v.name] else [], OldNames(v.name, r);
      vars := [];
      assert known + names[..0] == known;
      for i := 0 to r.times
        invariant vars == ExpandVariable(r, v)[..i]
        invariant v.kind != "Parameter" ==> paramOriginalNames == record
        invariant v.kind == "Parameter" ==> paramOriginalNames == record[v.name := known + names[..i]]
      {
        var name := GenName(v.name, r.id, i);
        if v.kind == "Parameter" {
          name := OldName(v.name, r.id, i);
          paramOriginalNames := paramOriginalNames[v.name := paramOriginalNames[v.name] + [name]];
          assert known + names[..i + 1] == known + names[..i] + [name];
        }
        vars := vars + [v.(name := name, repeatIds := DeleteId(v.repeatIds, r.id))];
      }
      assert names[..r.times] == names;
    }

    /** What a Delay hands out: its initial value, then what it read in the iteration before. */
    method DelayInstances(f: Function, r: Repeat) returns (names: seq<string>)
      requires r.times >= 1 && |f.inputs| >= 2
      ensures names == DelayNames(r, f)
      ensures |names| == r.times && names[0] == f.inputs[1]
      ensures forall i :: 0 < i < r.times ==> names[i] == GenName(f.inputs[0], r.id, i - 1)
    {
      names := [];
      for i := 0 to r.times
        invariant names == DelayNames(r, f)[..i]
      {
        names := names + [if i == 0 then f.inputs[1] else GenName(f.inputs[0], r.id, i - 1)];
      }
    }

    method FillDelays(net: Net, r: Repeat)
      requires r.times >= 1 && forall f :: f in net.funcs ==> WellShaped(f)
      modifies `delayVar
      ensures DelayTable(delayVar, net.funcs, r)
    {
      delayVar := map[];
      for k := 0 to |net.funcs|
        invariant DelayTable(delayVar, net.funcs[..k], r)
      {
        var f := net.funcs[k];
        assert f in net.funcs && net.funcs[..k + 1][k] == f;
        if f.kind == "Delay" && f.recurrentParam == r.id {
          var output := f.outputs[0];
          var names := DelayInstances(f, r);
          delayVar := delayVar[output := names];
        }
        assert net.funcs[..k + 1][..k] == net.funcs[..k];
      }
      assert net.funcs[..|net.funcs|] == net.funcs;
    }

    method FillEnds(net: Net, r: Repeat)
      requires r.times >= 1 && forall f :: f in net.funcs ==> WellShaped(f)
      modifies `repeatEndVar
      ensures EndTable(repeatEndVar, net.funcs, r)
    {
      repeatEndVar := map[];
      for k := 0 to |net.funcs|
        invariant EndTable(repeatEndVar, net.funcs[..k], r)
      {
        var f := net.funcs[k];
        assert f in net.funcs && net.funcs[..k + 1][k] == f;
        if f.kind == "RepeatEnd" && f.repeatParam == r.id {
          var output := f.outputs[0];
          var names := InstanceNames(f.inputs[0], r);
          repeatEndVar := repeatEndVar[output := names];
        }
        assert net.funcs[..k + 1][..k] == net.funcs[..k];
      }
      assert net.funcs[..|net.funcs|] == net.funcs;
    }

    /** What a RepeatStart hands out, looked up behind the RepeatEnds. */
    method StartInstances(net: Net, f: Function, r: Repeat) returns (names: seq<string>)
      requires r.times >= 1 && |f.inputs| >= 2 && EndTable(repeatEndVar, net.funcs, r)
      ensures names == StartNames(net, r, f) && |names| == r.times
      ensures names[0] == if f.inputs[0] in repeatEndVar && |repeatEndVar[f.inputs[0]]| == r.times
                          then repeatEndVar[f.inputs[0]][r.times - 1] else f.inputs[0]
      ensures forall i :: 0 < i < r.times ==>
                (names[i]
                 == if f.inputs[1] in repeatEndVar && |repeatEndVar[f.inputs[1]]| == r.times
                    then repeatEndVar[f.inputs[1]][i - 1] else GenName(f.inputs[1], r.id, i - 1))
    {
      hide FindMarker, GenName;
      names := [];
      for i := 0 to r.times
        invariant names == StartNames(net, r, f)[..i]
      {
        var v: string;
        if i == 0 {
          v := f.inputs[0];
          if v in repeatEndVar {
            v := repeatEndVar[v][r.times - 1];
          }
        } else {
          v := f.inputs[1];
          if v in repeatEndVar {
            v := repeatEndVar[v][i - 1];
          } else {
            v := GenName(v, r.id, i - 1);
          }
        }
        names := names + [v];
      }
    }

    method FillStarts(net: Net, r: Repeat)
      requires r.times >= 1 && (forall f :: f in net.funcs ==> WellShaped(f)) && EndTable(repeatEndVar, net.funcs, r)
      modifies `repeatStartVar
      ensures StartTable(repeatStartVar, net, net.funcs, r)
    {
      repeatStartVar := map[];
      for k := 0 to |net.funcs|
        invariant StartTable(repeatStartVar, net, net.funcs[..k], r)
      {
        var f := net.funcs[k];
        assert f in net.funcs && net.funcs[..k + 1][k] == f;
        if f.kind == "RepeatStart" && f.repeatParam == r.id {
          var output := f.outputs[0];
          var names := StartInstances(net, f, r);
          repeatStartVar := repeatStartVar[output := names];
        }
        assert net.funcs[..k + 1][..k] == net.funcs[..k];
      }
      assert net.funcs[..|net.funcs|] == net.funcs;
    }

    /** The tables of this step are filled in. */
    ghost predicate TablesFilled(net: Net, r: Repeat)
      reads `delayVar, `repeatEndVar, `repeatStartVar
    {
      DelayTable(delayVar, net.funcs, r) && EndTable(repeatEndVar, net.funcs, r) && StartTable(repeatStartVar, net, net.funcs, r)
    }

    /** What an input of a body function is renamed to. */
    method LookUp(net: Net, ghost record: Names, x: string, i: nat) returns (name: string)
      requires |net.repeats| > 0 && i < net.repeats[0].times && RecordFits(net, record) && TablesFilled(net, net.repeats[0])
      requires exists f :: f in net.funcs && x in f.inputs
      requires paramOriginalNames == RecordVariables(record, net.vars, net.repeats[0])
      ensures name == BodyInput(net, net.repeats[0], x, i)
    {
      RecordLookup(net, record, x, i);
      if x in paramOriginalNames {
        var names := paramOriginalNames[x];
        name := if |names| == net.repeats[0].times then names[i] else x;
      } else if x in repeatStartVar {
        name := repeatStartVar[x][i];
      } else if x in repeatEndVar {
        name := repeatEndVar[x][i];
      } else if x in delayVar {
        name := delayVar[x][i];
      } else {
        name := GenName(x, net.repeats[0].id, i);
      }
    }

    method ExpandBodyFunction(net: Net, ghost record: Names, f: Function) returns (funcs: seq<Function>)
      requires |net.repeats| > 0 && net.repeats[0].times >= 1 && RecordFits(net, record) && TablesFilled(net, net.repeats[0])
      requires f in net.funcs && paramOriginalNames == RecordVariables(record, net.vars, net.repeats[0])
      ensures var r := net.repeats[0]; |funcs| == r.times && forall i :: 0 <= i < r.times ==> funcs[i] == BodyFunction(net, r, f, i)
    {
      var r := net.repeats[0];
      funcs := [];
      for i := 0 to r.times
        invariant |funcs| == i && forall h :: 0 <= h < i ==> funcs[h] == BodyFunction(net, r, f, h)
      {
        var inputs, outputs := [], [];
        for j := 0 to |f.inputs|
          invariant inputs == BodyInputs(net, r, f.inputs, i)[..j]
        {
          assert f.inputs[j] in f.inputs;
          var name := LookUp(net, record, f.inputs[j], i);
          inputs := inputs + [name];
        }
        for j := 0 to |f.outputs|
          invariant outputs == GenNames(f.outputs, r.id, i)[..j]
        {
          outputs := outputs + [GenName(f.outputs[j], r.id, i)];
        }
        funcs := funcs + [f.(name := GenName(f.name, r.id, i), repeatIds := DeleteId(f.repeatIds, r.id), inputs := inputs, outputs := outputs)];
      }
    }

    method InstanceNames(x: string, r: Repeat) returns (names: seq<string>)
      requires r.times >= 1
      ensures names == Instances(x, r) && |names| == r.times && forall i :: 0 <= i < r.times ==> names[i] == GenName(x, r.id, i)
    {
      names := [];
      for i := 0 to r.times
        invariant names == Instances(x, r)[..i]
      {
        names := names + [GenName(x, r.id, i)];
      }
    }

    /** The body of the loop over functions. */
    method ExpandOneFunction(net: Net, ghost record: Names, f: Function) returns (funcs: seq<Function>)
      requires |net.repeats| > 0 && net.repeats[0].times >= 1 && RecordFits(net, record) && TablesFilled(net, net.repeats[0])
      requires f in net.funcs && WellShaped(f) && paramOriginalNames == RecordVariables(record, net.vars, net.repeats[0])
      ensures funcs == ExpandFunction(net, net.repeats[0], f)
      // in fields
      ensures (f.kind == "RepeatStart" || f.kind == "RepeatEnd") && f.repeatParam == net.repeats[0].id ==> funcs == []
      ensures f.kind == "Delay" && f.recurrentParam == net.repeats[0].id ==> funcs == []
      ensures f.kind == "RecurrentInput" && f.recurrentParam == net.repeats[0].id ==>
                && |funcs| == 1 && funcs[0].kind == "Split" && funcs[0].splitAxis == f.recurrentAxis
                && funcs[0].stackAxis == f.stackAxis && funcs[0].payload == f.payload
                && funcs[0].name == f.name && funcs[0].inputs == f.inputs && |funcs[0].outputs| == net.repeats[0].times
                && (forall i :: 0 <= i < net.repeats[0].times ==> funcs[0].outputs[i] == GenName(f.outputs[0], net.repeats[0].id, i))
                && multiset(funcs[0].repeatIds) == multiset(f.repeatIds) - multiset{net.repeats[0].id}
      ensures f.kind == "RecurrentOutput" && f.recurrentParam == net.repeats[0].id ==>
                && |funcs| == 1 && funcs[0].kind == "Stack" && funcs[0].stackAxis == f.recurrentAxis
                && funcs[0].splitAxis == f.splitAxis && funcs[0].payload == f.payload
                && funcs[0].name == f.name && funcs[0].outputs == f.outputs && |funcs[0].inputs| == net.repeats[0].times
                && (forall i :: 0 <= i < net.repeats[0].times ==> funcs[0].inputs[i] == GenName(f.inputs[0], net.repeats[0].id, i))
                && funcs[0].repeatIds == f.repeatIds
      ensures !IsMarkerOf(f, net.repeats[0].id) && net.repeats[0].id in f.repeatIds ==>
                && |funcs| == net.repeats[0].times
                && forall i :: 0 <= i < |funcs| ==>
                     && funcs[i].kind == f.kind && funcs[i].splitAxis == f.splitAxis && funcs[i].stackAxis == f.stackAxis
                     && funcs[i].payload == f.payload && funcs[i].recurrentAxis == f.recurrentAxis
                     && funcs[i].repeatParam == f.repeatParam && funcs[i].recurrentParam == f.recurrentParam
                     && funcs[i].name == GenName(f.name, net.repeats[0].id, i)
                     && multiset(funcs[i].repeatIds) == multiset(f.repeatIds) - multiset{net.repeats[0].id}
                     && |funcs[i].inputs| == |f.inputs| && |funcs[i].outputs| == |f.outputs|
                     && forall j :: 0 <= j < |f.outputs| ==> funcs[i].outputs[j] == GenName(f.outputs[j], net.repeats[0].id, i)
      ensures !IsMarkerOf(f, net.repeats[0].id) && net.repeats[0].id !in f.repeatIds ==>
                && |funcs| == 1 && funcs[0] == f.(inputs := funcs[0].inputs) && |funcs[0].inputs| == |f.inputs|
                && forall j :: 0 <= j < |f.inputs| ==>
                     (funcs[0].inputs[j]
                      == if f.inputs[j] in repeatEndVar && |repeatEndVar[f.inputs[j]]| == net.repeats[0].times
                         then repeatEndVar[f.inputs[j]][net.repeats[0].times - 1] else f.inputs[j])
    {
      hide FindMarker, GenName, OldName, RecordVariables, RecordFits;
      var r := net.repeats[0];
      OneIdLess(f.repeatIds, r.id);
      if (f.kind == "RepeatStart" || f.kind == "RepeatEnd") && f.repeatParam == r.id {
        return [];
      }
      if f.kind == "Delay" && f.recurrentParam == r.id {
        return [];
      }
      if f.kind == "RecurrentInput" && f.recurrentParam == r.id {
        var names := InstanceNames(f.outputs[0], r);
        return [f.(kind := "Split", splitAxis := f.recurrentAxis, outputs := names, repeatIds := DeleteId(f.repeatIds, r.id),
                   recurrentParam := "", recurrentAxis := 0)];
      }
      if f.kind == "RecurrentOutput" && f.recurrentParam == r.id {
        var names := InstanceNames(f.inputs[0], r);
        return [f.(kind := "Stack", stackAxis := f.recurrentAxis, inputs := names, recurrentParam := "", recurrentAxis := 0)];
      }
      if r.id in f.repeatIds {
        funcs := ExpandBodyFunction(net, record, f);
        assert funcs == ExpandFunction(net, r, f);
      } else {
        var inputs := [];
        for j := 0 to |f.inputs|
          invariant inputs == OutsideInputs(net, r, f.inputs)[..j]
        {
          var name := f.inputs[j];
          if name in repeatEndVar {
            name := repeatEndVar[name][r.times - 1];
          }
          inputs := inputs + [name];
        }
        assert inputs == OutsideInputs(net, r, f.inputs);
        funcs := [f.(inputs := inputs)];
      }
    }

    /** One pass of `expand_repeat`, up to its recursive call. */
    method ExpandFirst(net: Net) returns (result: Net)
      requires |net.repeats| > 0 && net.repeats[0].times >= 1 && RecordFits(net, paramOriginalNames)
      requires forall f :: f in net.funcs ==> WellShaped(f)
      modifies `paramOriginalNames, `delayVar, `repeatEndVar, `repeatStartVar
      ensures result == ExpandStep(net) && forall f :: f in result.funcs ==> WellShaped(f)
      ensures paramOriginalNames == RecordVariables(old(paramOriginalNames), net.vars, net.repeats[0])
    {
      hide RecordFits, TablesFilled, DelayTable, EndTable, StartTable, WellShaped, RecordVariables, ExpandFunction;
      ghost var record := paramOriginalNames;
      var r := net.repeats[0];
      var vars := ExpandVariablesOf(net, r);
      FillDelays(net, r);
      FillEnds(net, r);
      FillStarts(net, r);
      var funcs := ExpandFunctionsOf(net, record);
      ShapesKept(net, r, net.funcs);
      result := Net(net.repeats[1..], vars, funcs);
    }

    method ExpandFunctionsOf(net: Net, ghost record: Names) returns (funcs: seq<Function>)
      requires |net.repeats| > 0 && net.repeats[0].times >= 1 && RecordFits(net, record)
      requires DelayTable(delayVar, net.funcs, net.repeats[0]) && EndTable(repeatEndVar, net.funcs, net.repeats[0])
      requires StartTable(repeatStartVar, net, net.funcs, net.repeats[0])
      requires paramOriginalNames == RecordVariables(record, net.vars, net.repeats[0])
      requires forall f :: f in net.funcs ==> WellShaped(f)
      ensures funcs == ExpandFunctions(net, net.repeats[0], net.funcs)
    {
      hide RecordFits, DelayTable, EndTable, StartTable, WellShaped, RecordVariables, ExpandFunction;
      var r := net.repeats[0];
      funcs := [];
      for k := 0 to |net.funcs|
        invariant funcs == ExpandFunctions(net, r, net.funcs[..k])
      {
        assert net.funcs[k] in net.funcs && net.funcs[..k + 1][..k] == net.funcs[..k];
        var more := ExpandOneFunction(net, record, net.funcs[k]);
        funcs := funcs + more;
      }
      assert net.funcs[..|net.funcs|] == net.funcs;
    }

    /** `expand_repeat`: every loop of the network expanded, first to last. */
    method ExpandRepeat(net: Net) returns (result: Net)
      requires EveryLoopRuns(net) && AllRecordsFit(net, paramOriginalNames)
      requires forall f :: f in net.funcs ==> WellShaped(f)
      modifies `paramOriginalNames, `delayVar, `repeatEndVar, `repeatStartVar
      ensures result == ExpandAll(net)
      decreases |net.repeats|
    {
      if |net.repeats| == 0 {
        return net;
      }
      var next := ExpandFirst(net);
      result := ExpandRepeat(next);
    }

    /** `execute`: expand, then sort.  A true flag stands for the fatal exit. */
    method Execute() returns (fatal: bool, result: Net)
      requires WellFormed(network) && Loops(network) && NamedApart(network) && NoNameReused(network.vars, network.repeats, {})
      requires paramOriginalNames == map[] && visitorState == map[] && sorted == []
      modifies this
      ensures fatal <==> Cyclic(ExpandAll(network).funcs)
      ensures !fatal ==> result == ExpandAll(network).(funcs := result.funcs) && Schedule(network, result.funcs)
      ensures !fatal && NoRepeats(ExpandAll(network).funcs) ==> multiset(result.funcs) == multiset(ExpandAll(network).funcs)
    {
      hide WellFormed, NamedApart, NoNameReused, Placed;
      ExpandedNames(network);
      NothingRecorded(network.vars);
      RecordsFit(network, paramOriginalNames, {});
      AllShaped(network);
      expand := ExpandRepeat(network);
      result := expand;
      fatal := SortFunctions();
      if !fatal {
        result := expand.(funcs := sorted);
      }
    }
  }

  lemma AllShaped(net: Net)
    requires WellFormed(net)
    ensures forall f :: f in net.funcs ==> WellShaped(f)
  {
    hide Placed;
    forall f | f in net.funcs ensures WellShaped(f) {
      PlacedShape(net, f);
    }
  }
}
