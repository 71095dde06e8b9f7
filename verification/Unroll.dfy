/** One step of loop expansion, and what it preserves. */
module Unroll {
  import opened Network
  import opened Wrappers

  const MAX_NAME_LEN := 512

  function Decimal(n: nat): string {
    if n < 10 then ["0123456789"[n]] else Decimal(n / 10) + ["0123456789"[n % 10]]
  }

  /** The name of instance `i`, cut off where the buffer ends. */
  function GenName(name: string, id: string, i: nat): string {
    var s := name + "_" + id + "_" + Decimal(i);
    if |s| < MAX_NAME_LEN then s else s[..MAX_NAME_LEN - 1]
  }

  /** Parameters keep their name and have the loop's place holder filled in. */
  function OldName(name: string, id: string, i: nat): string {
    ReplaceAll(name, "{" + id + "}", "_" + Decimal(i))
  }

  function ReplaceAll(s: string, pattern: string, text: string): string
    requires |pattern| > 0
  {
    if |s| < |pattern| then s
    else if s[..|pattern|] == pattern then text + ReplaceAll(s[|pattern|..], pattern, text)
    else [s[0]] + ReplaceAll(s[1..], pattern, text)
  }

  /** The list without the first occurrence of `id`. */
  function DeleteId(ids: seq<string>, id: string): seq<string> {
    if ids == [] then [] else if ids[0] == id then ids[1..] else [ids[0]] + DeleteId(ids[1..], id)
  }

  predicate ParamIn(vars: seq<Variable>, x: string) {
    exists v :: v in vars && v.kind == "Parameter" && v.name == x
  }

  predicate IsParam(net: Net, x: string) { ParamIn(net.vars, x) }

  /** The last function of a kind that closes loop `id` over `x`: later entries of a table win. */
  function FindMarker(funcs: seq<Function>, kind: string, id: string, x: string): Option<Function> {
    if funcs == [] then None
    else
      var f := funcs[|funcs| - 1];
      if f.kind == kind && LoopOf(f) == id && |f.outputs| > 0 && f.outputs[0] == x then Some(f)
      else FindMarker(funcs[..|funcs| - 1], kind, id, x)
  }

  function Marker(net: Net, r: Repeat, kind: string, x: string): Option<Function> {
    FindMarker(net.funcs, kind, r.id, x)
  }

  function Input(f: Function, j: nat): string { if j < |f.inputs| then f.inputs[j] else "" }

  /** The name under which the value of `x` in iteration `i` is found after expansion.  What a RepeatEnd
      hands out does not vary with the loop: it is what its input was in the last iteration. */
  function Inst(net: Net, r: Repeat, x: string, i: int): string
    requires 0 <= i < r.times
  {
    if IsParam(net, x) then if r.id in IdsIn(ScopesOf(net), x) then OldName(x, r.id, i) else x
    else if Marker(net, r, "RepeatStart", x).Some? then
      var m := Marker(net, r, "RepeatStart", x).value;
      if i == 0 then EndOr(net, r, Input(m, 0), r.times - 1, Input(m, 0)) else GenName(Input(m, 1), r.id, i - 1)
    else if Marker(net, r, "RepeatEnd", x).Some? then
      GenName(Input(Marker(net, r, "RepeatEnd", x).value, 0), r.id, r.times - 1)
    else if Marker(net, r, "Delay", x).Some? then
      var m := Marker(net, r, "Delay", x).value;
      if i == 0 then Input(m, 1) else GenName(Input(m, 0), r.id, i - 1)
    else if r.id in IdsIn(ScopesOf(net), x) then GenName(x, r.id, i)
    else x
  }

  /** Iteration `i` of what a RepeatEnd hands out, or `other`. */
  function EndOr(net: Net, r: Repeat, x: string, i: nat, other: string): string {
    var m := Marker(net, r, "RepeatEnd", x);
    if m.Some? then GenName(Input(m.value, 0), r.id, i) else other
  }

  /** An input of a function inside the loop, as the tables of the expander resolve it. */
  function BodyInput(net: Net, r: Repeat, x: string, i: int): string
    requires 0 <= i < r.times
  {
    if IsParam(net, x) then if r.id in IdsIn(ScopesOf(net), x) then OldName(x, r.id, i) else x
    else if Marker(net, r, "RepeatStart", x).Some? then
      var m := Marker(net, r, "RepeatStart", x).value;
      if i == 0 then EndOr(net, r, Input(m, 0), r.times - 1, Input(m, 0))
      else EndOr(net, r, Input(m, 1), i - 1, GenName(Input(m, 1), r.id, i - 1))
    else if Marker(net, r, "RepeatEnd", x).Some? then
      GenName(Input(Marker(net, r, "RepeatEnd", x).value, 0), r.id, i)
    else if Marker(net, r, "Delay", x).Some? then
      var m := Marker(net, r, "Delay", x).value;
      if i == 0 then Input(m, 1) else GenName(Input(m, 0), r.id, i - 1)
    else GenName(x, r.id, i)
  }

  function GenNames(xs: seq<string>, id: string, i: nat): (ys: seq<string>)
    ensures |ys| == |xs| && forall j :: 0 <= j < |xs| ==> ys[j] == GenName(xs[j], id, i)
  {
    seq(|xs|, j requires 0 <= j < |xs| => GenName(xs[j], id, i))
  }

  /** All instances of `x`. */
  function Instances(x: string, r: Repeat): (ys: seq<string>)
    requires r.times >= 0
    ensures |ys| == r.times && forall i :: 0 <= i < r.times ==> ys[i] == GenName(x, r.id, i)
  {
    seq(r.times, i requires 0 <= i < r.times => GenName(x, r.id, i))
  }

  function BodyInputs(net: Net, r: Repeat, xs: seq<string>, i: int): (ys: seq<string>)
    requires 0 <= i < r.times
    ensures |ys| == |xs| && forall j :: 0 <= j < |xs| ==> ys[j] == BodyInput(net, r, xs[j], i)
  {
    seq(|xs|, j requires 0 <= j < |xs| => BodyInput(net, r, xs[j], i))
  }

  function OutsideInputs(net: Net, r: Repeat, xs: seq<string>): (ys: seq<string>)
    requires r.times >= 1
    ensures |ys| == |xs| && forall j :: 0 <= j < |xs| ==> ys[j] == EndOr(net, r, xs[j], r.times - 1, xs[j])
  {
    seq(|xs|, j requires 0 <= j < |xs| => EndOr(net, r, xs[j], r.times - 1, xs[j]))
  }

  /** Instance `i` of a function inside the loop. */
  function BodyFunction(net: Net, r: Repeat, f: Function, i: int): Function
    requires 0 <= i < r.times
  {
    f.(name := GenName(f.name, r.id, i), repeatIds := DeleteId(f.repeatIds, r.id),
       inputs := BodyInputs(net, r, f.inputs, i), outputs := GenNames(f.outputs, r.id, i))
  }

  function AsSplit(f: Function): Function {
    f.(kind := "Split", splitAxis := f.recurrentAxis, recurrentParam := "", recurrentAxis := 0)
  }

  function AsStack(f: Function): Function {
    f.(kind := "Stack", stackAxis := f.recurrentAxis, recurrentParam := "", recurrentAxis := 0)
  }

  /** What becomes of one function. */
  function ExpandFunction(net: Net, r: Repeat, f: Function): seq<Function>
    requires r.times >= 1
  {
    if (f.kind == "RepeatStart" || f.kind == "RepeatEnd") && f.repeatParam == r.id then []
    else if f.kind == "Delay" && f.recurrentParam == r.id then []
    else if f.kind == "RecurrentInput" && f.recurrentParam == r.id then
      [AsSplit(f).(outputs := Instances(Output(f), r), repeatIds := DeleteId(f.repeatIds, r.id))]
    else if f.kind == "RecurrentOutput" && f.recurrentParam == r.id then
      [AsStack(f).(inputs := Instances(Input(f, 0), r))]
    else if r.id in f.repeatIds then
      seq(r.times, i requires 0 <= i < r.times => BodyFunction(net, r, f, i))
    else [f.(inputs := OutsideInputs(net, r, f.inputs))]
  }

  function Output(f: Function): string { if |f.outputs| > 0 then f.outputs[0] else "" }

  lemma {:induction false} OneIdLess(ids: seq<string>, id: string)
    ensures multiset(DeleteId(ids, id)) == multiset(ids) - multiset{id}
  {
    if ids != [] {
      assert ids == [ids[0]] + ids[1..];
      OneIdLess(ids[1..], id);
    }
  }

  function ExpandFunctions(net: Net, r: Repeat, funcs: seq<Function>): seq<Function>
    requires r.times >= 1
  {
    if funcs == [] then [] else ExpandFunctions(net, r, funcs[..|funcs| - 1]) + ExpandFunction(net, r, funcs[|funcs| - 1])
  }

  function VariableInstance(v: Variable, r: Repeat, i: nat): Variable {
    v.(name := if v.kind == "Parameter" then OldName(v.name, r.id, i) else GenName(v.name, r.id, i),
       repeatIds := DeleteId(v.repeatIds, r.id))
  }

  function ExpandVariable(r: Repeat, v: Variable): seq<Variable>
    requires r.times >= 1
  {
    if r.id in v.repeatIds then seq(r.times, i requires 0 <= i < r.times => VariableInstance(v, r, i)) else [v]
  }

  lemma VariableInFields(r: Repeat, v: Variable)
    requires r.times >= 1
    ensures r.id !in v.repeatIds ==> ExpandVariable(r, v) == [v]
    ensures r.id in v.repeatIds ==>
              && |ExpandVariable(r, v)| == r.times
              && forall i :: 0 <= i < r.times ==>
                   var w := ExpandVariable(r, v)[i];
                   && w.kind == v.kind && multiset(w.repeatIds) == multiset(v.repeatIds) - multiset{r.id}
                   && w.name == if v.kind == "Parameter" then OldName(v.name, r.id, i) else GenName(v.name, r.id, i)
  {
    hide GenName, OldName;
    OneIdLess(v.repeatIds, r.id);
  }

  function ExpandVariables(r: Repeat, vars: seq<Variable>): seq<Variable>
    requires r.times >= 1
  {
    if vars == [] then [] else ExpandVariables(r, vars[..|vars| - 1]) + ExpandVariable(r, vars[|vars| - 1])
  }

  /** The network with its first loop expanded. */
  function ExpandStep(net: Net): Net
    requires |net.repeats| > 0 && net.repeats[0].times >= 1
  {
    var r := net.repeats[0];
    Net(net.repeats[1..], ExpandVariables(r, net.vars), ExpandFunctions(net, r, net.funcs))
  }

  predicate EveryLoopRuns(net: Net) {
    forall i :: 0 <= i < |net.repeats| ==> net.repeats[i].times >= 1
  }

  /** All loops expanded, first to last. */
  function ExpandAll(net: Net): Net
    requires EveryLoopRuns(net)
    decreases |net.repeats|
  {
    if net.repeats == [] then net else ExpandAll(ExpandStep(net))
  }

  // ---- The record of parameter names -----------------------------------------------------------

  type Names = map<string, seq<string>>

  /** The expander's record of parameter names after one variable. */
  function RecordVariable(record: Names, v: Variable, r: Repeat): Names
    requires r.times >= 1
  {
    if v.kind != "Parameter" then record
    else
      var known := if v.name in record then record[v.name] else [];
      record[v.name :=
        if r.id in v.repeatIds then known + OldNames(v.name, r)
        else if v.repeatIds == [] && known == [] then [v.name]
        else known]
  }

  function OldNames(name: string, r: Repeat): (ys: seq<string>)
    requires r.times >= 0
    ensures |ys| == r.times && forall i :: 0 <= i < r.times ==> ys[i] == OldName(name, r.id, i)
  {
    seq(r.times, i requires 0 <= i < r.times => OldName(name, r.id, i))
  }

  function RecordVariables(record: Names, vars: seq<Variable>, r: Repeat): Names
    requires r.times >= 1
  {
    if vars == [] then record else RecordVariable(RecordVariables(record, vars[..|vars| - 1], r), vars[|vars| - 1], r)
  }

  ghost predicate NoTwice(vars: seq<Variable>) {
    forall i, j :: 0 <= i < j < |vars| ==> vars[i].name != vars[j].name
  }

  /** The record can be trusted: it knows nothing wrong about the names in use. */
  ghost predicate RecordFits(net: Net, record: Names) {
    && NoTwice(net.vars)
    && (forall v :: v in net.vars && v.kind == "Parameter" && v.name in record ==>
          record[v.name] == [] || (record[v.name] == [v.name] && v.repeatIds == []))
    && (forall f, x :: f in net.funcs && x in f.inputs && x in record ==> IsParam(net, x))
  }

  ghost predicate AllRecordsFit(net: Net, record: Names)
    requires EveryLoopRuns(net)
    decreases |net.repeats|
  {
    net.repeats == [] || (RecordFits(net, record) && AllRecordsFit(ExpandStep(net), RecordVariables(record, net.vars, net.repeats[0])))
  }

  lemma {:induction false} RecordedNames(record: Names, vars: seq<Variable>, r: Repeat, x: string)
    requires r.times >= 1
    ensures var after := RecordVariables(record, vars, r);
            && (x in after <==> x in record || ParamIn(vars, x))
            && (x in record && !ParamIn(vars, x) ==> after[x] == record[x])
  {
    if vars != [] {
      var rest := vars[..|vars| - 1];
      assert vars == rest + [vars[|vars| - 1]];
      RecordedNames(record, rest, r, x);
    }
  }

  lemma {:induction false} RecordedParam(record: Names, vars: seq<Variable>, r: Repeat, k: nat)
    requires r.times >= 1 && NoTwice(vars) && k < |vars| && vars[k].kind == "Parameter"
    ensures var x := vars[k].name;
            && x in RecordVariables(record, vars, r)
            && RecordVariables(record, vars, r)[x] == RecordVariable(record, vars[k], r)[x]
  {
    var rest, v := vars[..|vars| - 1], vars[k];
    if k == |rest| {
      RecordedNames(record, rest, r, v.name);
      assert !ParamIn(rest, v.name);
    } else {
      assert rest[k] == v;
      RecordedParam(record, rest, r, k);
    }
  }

  lemma {:induction false} IdsFound(vars: seq<Variable>, v: Variable)
    requires NoTwice(vars) && v in vars
    ensures v.name in IdsOf(vars) && IdsOf(vars)[v.name] == set id | id in v.repeatIds
  {
    if vars[0] != v {
      IdsFound(vars[1..], v);
      var i :| 1 <= i < |vars| && vars[i] == v;
      assert vars[0].name != vars[i].name;
    }
  }

  /** Looking a body input up in the record gives what `BodyInput` says. */
  lemma RecordLookup(net: Net, record: Names, x: string, i: int)
    requires |net.repeats| > 0 && net.repeats[0].times >= 1 && 0 <= i < net.repeats[0].times && RecordFits(net, record)
    requires exists f :: f in net.funcs && x in f.inputs
    ensures var r, after := net.repeats[0], RecordVariables(record, net.vars, net.repeats[0]);
            && (x in after <==> IsParam(net, x))
            && (x in after ==> BodyInput(net, r, x, i) == if |after[x]| == r.times then after[x][i] else x)
  {
    hide RecordVariables, FindMarker, EndOr, GenName, OldName, LoopsOf, IdsOf;
    RecordedNames(record, net.vars, net.repeats[0], x);
    if IsParam(net, x) {
      var v :| v in net.vars && v.kind == "Parameter" && v.name == x;
      var k :| 0 <= k < |net.vars| && net.vars[k] == v;
      RecordedParam(record, net.vars, net.repeats[0], k);
      IdsFound(net.vars, v);
    }
  }
}
