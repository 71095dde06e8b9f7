/** Networks with loops, and what they mean as equations between named values. */
module Network {

  datatype Variable = Variable(name: string, kind: string, repeatIds: seq<string>)

  /** One layer.  `payload` stands for every parameter message that expansion only copies. */
  datatype Function = Function(name: string, kind: string, inputs: seq<string>, outputs: seq<string>,
                               repeatIds: seq<string>, repeatParam: string, recurrentParam: string,
                               recurrentAxis: int, splitAxis: int, stackAxis: int, payload: string)

  datatype Repeat = Repeat(id: string, times: int)

  datatype Net = Net(repeats: seq<Repeat>, vars: seq<Variable>, funcs: seq<Function>)

  // ---- Meaning ---------------------------------------------------------------------------------

  /** The contents of one variable; nothing is assumed about them. */
  type Value = seq<real>

  /** What a layer computes depends on this much of it. */
  datatype Kernel = Kernel(kind: string, splitAxis: int, stackAxis: int, payload: string)

  function KernelOf(f: Function): Kernel { Kernel(f.kind, f.splitAxis, f.stackAxis, f.payload) }

  type Layers = (Kernel, seq<Value>) -> seq<Value>

  /** The iteration that each loop is in. */
  type Index = map<string, int>

  /** A value for every variable in every iteration. */
  type Assignment = (string, Index) -> Value

  /** The loops of a network with their lengths, and the loops each variable varies with. */
  datatype Scopes = Scopes(loops: map<string, int>, ids: map<string, set<string>>)

  function LoopsOf(repeats: seq<Repeat>): map<string, int> {
    if repeats == [] then map[] else LoopsOf(repeats[1..])[repeats[0].id := repeats[0].times]
  }

  function IdsOf(vars: seq<Variable>): map<string, set<string>> {
    if vars == [] then map[] else IdsOf(vars[1..])[vars[0].name := set id | id in vars[0].repeatIds]
  }

  function ScopesOf(net: Net): Scopes { Scopes(LoopsOf(net.repeats), IdsOf(net.vars)) }

  ghost predicate InRange(g: Scopes, idx: Index) {
    idx.Keys == g.loops.Keys && forall b :: b in idx ==> 0 <= idx[b] < g.loops[b]
  }

  function IdsIn(g: Scopes, x: string): set<string> { if x in g.ids then g.ids[x] else {} }

  /** A loop that `x` does not vary with is seen in its last iteration. */
  function Pin(g: Scopes, x: string, idx: Index): (r: Index)
    requires idx.Keys <= g.loops.Keys
    ensures r.Keys == idx.Keys
  {
    map b | b in idx :: if b in IdsIn(g, x) then idx[b] else g.loops[b] - 1
  }

  function Read(g: Scopes, a: Assignment, x: string, idx: Index): Value
    requires idx.Keys <= g.loops.Keys
  {
    a(x, Pin(g, x, idx))
  }

  function ReadAll(g: Scopes, a: Assignment, xs: seq<string>, idx: Index): (r: seq<Value>)
    requires idx.Keys <= g.loops.Keys
    ensures |r| == |xs| && forall j :: 0 <= j < |xs| ==> r[j] == Read(g, a, xs[j], idx)
  {
    seq(|xs|, j requires 0 <= j < |xs| => Read(g, a, xs[j], idx))
  }

  /** Output `k` of a layer; a layer that has fewer outputs leaves it empty. */
  function Nth(r: seq<Value>, k: int): Value { if 0 <= k < |r| then r[k] else [] }

  /** The loop that a marker belongs to. */
  function LoopOf(f: Function): string {
    if f.kind == "RepeatStart" || f.kind == "RepeatEnd" then f.repeatParam else f.recurrentParam
  }

  predicate MarkerKind(kind: string) {
    kind == "RepeatStart" || kind == "RepeatEnd" || kind == "Delay" || kind == "RecurrentInput" || kind == "RecurrentOutput"
  }

  predicate IsMarkerOf(f: Function, id: string) { MarkerKind(f.kind) && LoopOf(f) == id }

  /** The loops in whose iterations `f` runs. */
  function Own(f: Function): set<string> { set id | id in f.repeatIds }

  /** RepeatEnd and RecurrentOutput stand behind the loop that they belong to. */
  predicate Closes(kind: string) { kind == "RepeatEnd" || kind == "RecurrentOutput" }

  /** `f` runs once per iteration of its own loops; the others are over by then. */
  ghost predicate Active(g: Scopes, f: Function, idx: Index) {
    InRange(g, idx) && forall b :: b in idx && b !in f.repeatIds ==> idx[b] == g.loops[b] - 1
  }

  ghost predicate WellShaped(f: Function) {
    && (MarkerKind(f.kind) ==> |f.outputs| == 1 && |f.inputs| >= 1)
    && (f.kind == "RepeatStart" || f.kind == "Delay" ==> |f.inputs| >= 2)
  }

  /** What `f` demands of the values at `idx`.  A RecurrentInput hands out the slices of its input along its
      axis, one per iteration; a RecurrentOutput stacks what it reads in all iterations along its axis. */
  ghost predicate Equation(g: Scopes, layers: Layers, a: Assignment, f: Function, idx: Index)
    requires InRange(g, idx) && WellShaped(f)
  {
    if MarkerKind(f.kind) && LoopOf(f) in g.loops then
      var r := LoopOf(f);
      var last := idx[r := g.loops[r] - 1];
      var out := Read(g, a, f.outputs[0], idx);
      if f.kind == "RepeatStart" then
        out == if idx[r] == 0 then Read(g, a, f.inputs[0], last) else Read(g, a, f.inputs[1], idx[r := idx[r] - 1])
      else if f.kind == "RepeatEnd" then
        out == Read(g, a, f.inputs[0], last)
      else if f.kind == "Delay" then
        out == if idx[r] == 0 then Read(g, a, f.inputs[1], last) else Read(g, a, f.inputs[0], idx[r := idx[r] - 1])
      else if f.kind == "RecurrentInput" then
        out == Nth(layers(Kernel("Split", f.recurrentAxis, f.stackAxis, f.payload), ReadAll(g, a, f.inputs, last)), idx[r])
      else
        out == Nth(layers(Kernel("Stack", f.splitAxis, f.recurrentAxis, f.payload), Iterations(g, a, f.inputs[0], idx, r)), 0)
    else
      forall k :: 0 <= k < |f.outputs| ==>
        Read(g, a, f.outputs[k], idx) == Nth(layers(Kernel(f.kind, f.splitAxis, f.stackAxis, f.payload), ReadAll(g, a, f.inputs, idx)), k)
  }

  /** The values of `x` in all iterations of loop `r`. */
  ghost function Iterations(g: Scopes, a: Assignment, x: string, idx: Index, r: string): (v: seq<Value>)
    requires idx.Keys <= g.loops.Keys && r in g.loops
    ensures |v| == (if g.loops[r] < 0 then 0 else g.loops[r])
    ensures forall i :: 0 <= i < |v| ==> v[i] == Read(g, a, x, idx[r := i])
  {
    seq(if g.loops[r] < 0 then 0 else g.loops[r], i => Read(g, a, x, idx[r := i]))
  }

  /** `f`'s demands are met in every iteration it takes part in. */
  ghost predicate Holds(g: Scopes, layers: Layers, a: Assignment, f: Function)
    requires WellShaped(f)
  {
    forall idx :: Active(g, f, idx) ==> Equation(g, layers, a, f, idx)
  }

  /** The assignment makes every layer's equation true. */
  ghost predicate Solves(net: Net, layers: Layers, a: Assignment) {
    forall f :: f in net.funcs ==> WellShaped(f) && Holds(ScopesOf(net), layers, a, f)
  }
}
