/** A network that meets what is asked of networks: one loop inside another, each fed back through its body and
    read through its RepeatEnd, with a parameter per iteration of both. */
module LoopExamples {
  import opened Network
  import opened Unroll
  import opened Placement
  import opened WellFormedness
  import opened ExpansionNames
  import opened FreshNaming
  import opened Dag

  function Layer(name: string, kind: string, inputs: seq<string>, output: string, ids: seq<string>): Function {
    Function(name, kind, inputs, [output], ids, "", "", 0, 0, 0, "")
  }

  function Repeating(name: string, kind: string, inputs: seq<string>, output: string, ids: seq<string>, loop: string): Function {
    Layer(name, kind, inputs, output, ids).(repeatParam := loop)
  }

  function Recurring(name: string, kind: string, inputs: seq<string>, output: string, ids: seq<string>, loop: string): Function {
    Layer(name, kind, inputs, output, ids).(recurrentParam := loop)
  }

  function Buffer(name: string, ids: seq<string>): Variable { Variable(name, "Buffer", ids) }

  // ---- One loop inside another -----------------------------------------------------------------

  const OUTER := Repeat("A", 2)
  const INNER := Repeat("B", 2)
  const WEIGHT := Variable("w{A}{B}", "Parameter", ["A", "B"])
  const NESTED_BUFFERS := [Buffer("a", []), Buffer("s", ["A"]), Buffer("t", ["A", "B"]), Buffer("h", ["A", "B"]),
                           Buffer("e", ["A"]), Buffer("f", []), Buffer("z", [])]
  const NESTED_VARS := [WEIGHT] + NESTED_BUFFERS
  const OUTER_START := Repeating("p", "RepeatStart", ["a", "e"], "s", ["A"], "A")
  const INNER_START := Repeating("q", "RepeatStart", ["s", "h"], "t", ["A", "B"], "B")
  const BODY := Layer("b", "Convolution", ["t", "w{A}{B}"], "h", ["A", "B"])
  const INNER_END := Repeating("k", "RepeatEnd", ["h"], "e", ["A"], "B")
  const OUTER_END := Repeating("l", "RepeatEnd", ["e"], "f", [], "A")
  const READER := Layer("o", "MaxPooling", ["f"], "z", [])
  const NESTED := Net([OUTER, INNER], NESTED_VARS, [OUTER_START, INNER_START, BODY, INNER_END, OUTER_END, READER])

  /** A character that does not open a place holder is kept. */
  lemma KeepOne(c: char, s: string, pattern: string, text: string)
    requires |pattern| > 0 && c != pattern[0]
    ensures ReplaceAll([c] + s, pattern, text) == [c] + ReplaceAll(s, pattern, text)
  {
    var all := [c] + s;
    assert all[1..] == s;
    if |all| >= |pattern| {
      assert all[..|pattern|][0] == c;
    }
  }

  lemma OneDigit(i: nat)
    requires i < 10
    ensures Decimal(i) == ["0123456789"[i]] && "0123456789"[i] != '{'
  {
    assert forall k :: 0 <= k < 10 ==> "0123456789"[k] != '{';
  }

  lemma FillOne(s: string, pattern: string, text: string)
    requires |pattern| > 0
    ensures ReplaceAll(pattern + s, pattern, text) == text + ReplaceAll(s, pattern, text)
  {
    var all := pattern + s;
    assert all[..|pattern|] == pattern && all[|pattern|..] == s;
  }

  /** The other loop's place holder is left alone. */
  lemma LeaveOther(text: string)
    ensures ReplaceAll("{B}", "{A}", text) == "{B}" && ReplaceAll("", "{B}", text) == ""
  {
    var s: string := "{B}";
    assert s[..3] == s && s[1] == 'B' && "{A}"[1] == 'A';
    assert |s[1..]| == 2 && ReplaceAll(s[1..], "{A}", text) == s[1..];
    assert s == [s[0]] + s[1..];
  }

  lemma PlaceHolders()
    ensures "{" + "A" + "}" == "{A}" && "{" + "B" + "}" == "{B}" && |"{A}"| == |"{B}"| == 3 && "{A}"[0] == "{B}"[0] == '{'
    ensures "w{A}{B}" == ['w'] + ("{A}" + "{B}")
  {
  }

  lemma OuterName(i: nat)
    requires i < 10
    ensures OldName("w{A}{B}", "A", i) == ['w'] + (("_" + ["0123456789"[i]]) + "{B}")
  {
    hide ReplaceAll, Decimal;
    PlaceHolders();
    OneDigit(i);
    var u: string := "_" + ["0123456789"[i]];
    KeepOne('w', "{A}" + "{B}", "{A}", u);
    FillOne("{B}", "{A}", u);
    LeaveOther(u);
  }

  lemma InnerName(d: char, j: nat)
    requires j < 10 && d != '{'
    ensures OldName(['w'] + (['_'] + ([d] + ("{B}" + ""))), "B", j) == ['w'] + (['_'] + ([d] + ("_" + ["0123456789"[j]])))
  {
    hide ReplaceAll, Decimal;
    PlaceHolders();
    OneDigit(j);
    var v: string := "_" + ["0123456789"[j]];
    KeepOne('w', ['_'] + ([d] + ("{B}" + "")), "{B}", v);
    KeepOne('_', [d] + ("{B}" + ""), "{B}", v);
    KeepOne(d, "{B}" + "", "{B}", v);
    FillOne("", "{B}", v);
    LeaveOther(v);
    assert v + "" == v;
  }

  /** The name of a parameter of both loops, round by round. */
  lemma WeightNames(i: nat, j: nat)
    requires i < 10 && j < 10
    ensures OldName("w{A}{B}", "A", i) == "w_" + ["0123456789"[i]] + "{B}"
    ensures OldName("w_" + ["0123456789"[i]] + "{B}", "B", j) == "w_" + ["0123456789"[i]] + "_" + ["0123456789"[j]]
  {
    var d, e := "0123456789"[i], "0123456789"[j];
    OneDigit(i);
    OuterName(i);
    InnerName(d, j);
    assert "w_" + [d] + "{B}" == ['w'] + (("_" + [d]) + "{B}") == ['w'] + (['_'] + ([d] + ("{B}" + "")));
    assert ['w'] + (['_'] + ([d] + ("_" + [e]))) == "w_" + [d] + "_" + [e];
    hide OldName;
  }

  function Weight(i: nat): Variable
    requires i < 10
  {
    Variable("w_" + ["0123456789"[i]] + "{B}", "Parameter", ["B"])
  }

  function WeightAt(i: nat, j: nat): Variable
    requires i < 10 && j < 10
  {
    Variable("w_" + ["0123456789"[i]] + "_" + ["0123456789"[j]], "Parameter", [])
  }

  lemma OneVariable(r: Repeat, v: Variable)
    requires r.times == 2 && r.id in v.repeatIds
    ensures ExpandVariables(r, [v]) == [VariableInstance(v, r, 0), VariableInstance(v, r, 1)]
  {
    hide VariableInstance;
    assert [v][..0] == [] && ExpandVariables(r, [v][..0]) == [];
    assert ExpandVariable(r, v) == [VariableInstance(v, r, 0), VariableInstance(v, r, 1)];
  }

  lemma WeightInstances(i: nat, j: nat)
    requires i < 10 && j < 10
    ensures VariableInstance(WEIGHT, OUTER, i) == Weight(i) && VariableInstance(Weight(i), INNER, j) == WeightAt(i, j)
  {
    WeightNames(i, j);
    assert DeleteId(["A", "B"], "A") == ["A", "B"][1..] == ["B"];
    assert DeleteId(["B"], "B") == ["B"][1..] == [];
    hide OldName;
  }

  lemma WeightsExpanded()
    ensures ExpandVariables(OUTER, [WEIGHT]) == [Weight(0), Weight(1)]
    ensures ExpandVariables(INNER, [Weight(0), Weight(1)]) == [WeightAt(0, 0), WeightAt(0, 1)] + [WeightAt(1, 0), WeightAt(1, 1)]
  {
    assert WEIGHT.repeatIds[0] == OUTER.id && Weight(0).repeatIds[0] == INNER.id && Weight(1).repeatIds[0] == INNER.id;
    hide *;
    WeightInstances(0, 0);
    WeightInstances(0, 1);
    WeightInstances(1, 0);
    WeightInstances(1, 1);
    OneVariable(OUTER, WEIGHT);
    OneVariable(INNER, Weight(0));
    OneVariable(INNER, Weight(1));
    ExpandedTogether(INNER, [Weight(0)], [Weight(1)]);
    assert [Weight(0)] + [Weight(1)] == [Weight(0), Weight(1)];
  }

  lemma WeightsDiffer()
    ensures forall i, j, i', j' :: 0 <= i < 2 && 0 <= j < 2 && 0 <= i' < 2 && 0 <= j' < 2 && WeightAt(i, j).name == WeightAt(i', j').name ==>
              i == i' && j == j'
    ensures Weight(0).name != Weight(1).name && WEIGHT.name != Weight(0).name && WEIGHT.name != Weight(1).name
    ensures forall i, j, k :: 0 <= i < 2 && 0 <= j < 2 && 0 <= k < 2 ==> WeightAt(i, j).name != WEIGHT.name && WeightAt(i, j).name != Weight(k).name
  {
    forall i, j | 0 <= i < 2 && 0 <= j < 2
      ensures |WeightAt(i, j).name| == 5 && WeightAt(i, j).name[2] == "0123456789"[i] && WeightAt(i, j).name[4] == "0123456789"[j]
    {
    }
    assert |WEIGHT.name| == 7 && |Weight(0).name| == 6 && |Weight(1).name| == 6;
    assert Weight(0).name[2] == '0' && Weight(1).name[2] == '1';
    hide Weight, WeightAt;
  }

  lemma WeightsNoTwice()
    ensures NoTwice([Weight(0), Weight(1)])
    ensures NoTwice([WeightAt(0, 0), WeightAt(0, 1)] + [WeightAt(1, 0), WeightAt(1, 1)])
  {
    WeightsDiffer();
    hide Weight, WeightAt;
  }

  lemma WeightsFresh()
    ensures FreshNames([WEIGHT], [OUTER, INNER]) && Lettered([WEIGHT], {'w'})
  {
    WeightsExpanded();
    WeightsNoTwice();
    hide ExpandVariables, Weight, WeightAt, NoTwice;
    var one, two := [Weight(0), Weight(1)], [WeightAt(0, 0), WeightAt(0, 1)] + [WeightAt(1, 0), WeightAt(1, 1)];
    assert [OUTER, INNER][1..] == [INNER] && [INNER][1..] == [];
    assert FreshNames(two, []);
    assert FreshNames(one, [INNER]);
    assert NoTwice([WEIGHT]) by {
      OneAlone(WEIGHT);
    }
  }

  lemma OneAlone(v: Variable)
    ensures NoTwice([v])
  {
  }

  lemma WeightsNotReused()
    ensures NoNameReused([WEIGHT], [OUTER, INNER], {})
  {
    WeightsExpanded();
    WeightsDiffer();
    hide ExpandVariables, Weight, WeightAt;
    var one, two := [Weight(0), Weight(1)], [WeightAt(0, 0), WeightAt(0, 1)] + [WeightAt(1, 0), WeightAt(1, 1)];
    assert [OUTER, INNER][1..] == [INNER] && [INNER][1..] == [];
    var gone := {} + Renamed([WEIGHT], OUTER);
    assert forall x :: x in gone ==> x == WEIGHT.name;
    assert forall x :: x in Renamed(one, INNER) ==> x == Weight(0).name || x == Weight(1).name;
    assert NoNameReused(two, [], gone + Renamed(one, INNER));
    assert NoNameReused(one, [INNER], gone);
  }

  lemma NestedRuns()
    ensures forall i :: 0 <= i < |[OUTER, INNER]| ==> [OUTER, INNER][i].times >= 1
    ensures LongestName(1, [OUTER, INNER]) < MAX_NAME_LEN
  {
    assert |Decimal(2)| == 1;
    assert [OUTER, INNER][1..] == [INNER] && [INNER][1..] == [];
    assert LongestName(1, [OUTER, INNER]) == LongestName(5, [INNER]) == LongestName(9, []);
  }

  const LETTERS := {'a', 's', 't', 'h', 'e', 'f', 'z'}

  lemma BufferNames()
    ensures NoTwice(NESTED_BUFFERS) && OneLetter(NESTED_BUFFERS, LETTERS) && Lettered(NESTED_BUFFERS, LETTERS)
  {
    var v := NESTED_BUFFERS;
    assert v[0].name == "a" && v[1].name == "s" && v[2].name == "t" && v[3].name == "h" && v[4].name == "e" && v[5].name == "f"
        && v[6].name == "z";
    forall i, j | 0 <= i < j < 7 ensures v[i].name != v[j].name {
      assert v[i].name[0] != v[j].name[0];
    }
  }

  lemma NestedFresh()
    ensures FreshNames(NESTED_VARS, [OUTER, INNER]) && NoNameReused(NESTED_VARS, [OUTER, INNER], {})
  {
    WeightsFresh();
    WeightsNotReused();
    BufferNames();
    hide FreshNames, Lettered, NoNameReused, NoTwice, OneLetter, LongestName;
    NestedRuns();
    FreshLetters(NESTED_BUFFERS, [OUTER, INNER], LETTERS);
    FreshTogether([WEIGHT], NESTED_BUFFERS, [OUTER, INNER], {'w'}, LETTERS);
    NoNameReusedBy([WEIGHT], NESTED_BUFFERS, [OUTER, INNER], {}, {'w'}, LETTERS);
  }

  // ---- Each function in its place --------------------------------------------------------------

  /** `x` is declared, is no parameter, and varies with the loops `s`. */
  ghost predicate Declares(net: Net, x: string, s: set<string>) {
    DeclaredName(net, x) && Exactly(net, x, s)
  }

  lemma StartPlaced(net: Net, f: Function, x: string, y: string, o: string, s: set<string>)
    requires f.kind == "RepeatStart" && LoopMarker(net, f) && WellShaped(f) && Distinct(f.repeatIds) && Own(f) == s && LoopOf(f) in s
    requires f.inputs == [x, y] && f.outputs == [o]
    requires Declares(net, x, s - {LoopOf(f)}) && Declares(net, y, s) && Declares(net, o, s)
    ensures Placed(net, f)
  {
    hide Ids, IsParam, DeclaredName;
  }

  lemma ClosePlaced(net: Net, f: Function, x: string, o: string, s: set<string>)
    requires Closes(f.kind) && LoopMarker(net, f) && WellShaped(f) && Distinct(f.repeatIds) && Own(f) == s && LoopOf(f) !in s
    requires f.inputs == [x] && f.outputs == [o]
    requires Declares(net, x, s + {LoopOf(f)}) && Declares(net, o, s)
    ensures Placed(net, f)
  {
    hide Ids, IsParam, DeclaredName;
  }

  lemma DelayPlaced(net: Net, f: Function, x: string, y: string, o: string, s: set<string>)
    requires f.kind == "Delay" && LoopMarker(net, f) && WellShaped(f) && Distinct(f.repeatIds) && Own(f) == s && LoopOf(f) in s
    requires f.inputs == [x, y] && f.outputs == [o]
    requires Declares(net, x, s) && Declares(net, y, s - {LoopOf(f)}) && Declares(net, o, s)
    ensures Placed(net, f)
  {
    hide Ids, IsParam, DeclaredName;
  }

  lemma RecurrentInputPlaced(net: Net, f: Function, x: string, o: string, s: set<string>)
    requires f.kind == "RecurrentInput" && LoopMarker(net, f) && WellShaped(f) && Distinct(f.repeatIds) && Own(f) == s && LoopOf(f) in s
    requires f.inputs == [x] && f.outputs == [o] && Declares(net, x, s - {LoopOf(f)}) && Declares(net, o, s)
    ensures Placed(net, f)
  {
    hide Ids, IsParam, DeclaredName;
  }

  lemma LayerPlaced(net: Net, f: Function, o: string, s: set<string>)
    requires !MarkerKind(f.kind) && Distinct(f.repeatIds) && Own(f) == s
    requires f.outputs == [o] && Declares(net, o, s) && forall x :: x in f.inputs ==> DeclaredName(net, x) && Fits(net, x, s)
    ensures Placed(net, f)
  {
    hide Ids, IsParam, DeclaredName;
  }

  lemma DeclaresFits(net: Net, x: string, s: set<string>)
    requires Declares(net, x, s)
    ensures DeclaredName(net, x) && Fits(net, x, s)
  {
  }

  /** What a variable is declared as. */
  lemma NestedVariable(v: Variable, s: set<string>)
    requires v in NESTED_VARS && s == set id | id in v.repeatIds
    ensures DeclaredName(NESTED, v.name) && Ids(NESTED, v.name) == s
    ensures v.kind != "Parameter" ==> Declares(NESTED, v.name, s)
    ensures v.kind == "Parameter" ==> Fits(NESTED, v.name, s)
  {
    hide NoNameReused, ExpandVariables, OldName, ReplaceAll;
    NestedFresh();
    IsDeclared(NESTED, v);
    IdsFound(NESTED_VARS, v);
    Kind(NESTED_VARS, v);
  }

  lemma NestedBuffer(k: nat, x: string, ids: seq<string>, s: set<string>)
    requires 1 <= k < 8 && NESTED_VARS[k] == Buffer(x, ids) && s == set id | id in ids
    ensures Declares(NESTED, x, s)
  {
    hide Declares, Ids, DeclaredName, Fits;
    NestedVariable(NESTED_VARS[k], s);
  }

  lemma IdSets()
    ensures var none: seq<string> := []; (set id | id in none) == {}
    ensures (set id | id in ["A"]) == {"A"} && (set id | id in ["B"]) == {"B"} && (set id | id in ["A", "B"]) == {"A", "B"}
  {
  }

  lemma NestedBuffers()
    ensures Declares(NESTED, "a", {}) && Declares(NESTED, "f", {}) && Declares(NESTED, "z", {})
    ensures Declares(NESTED, "s", {"A"}) && Declares(NESTED, "e", {"A"})
    ensures Declares(NESTED, "t", {"A", "B"}) && Declares(NESTED, "h", {"A", "B"})
  {
    IdSets();
    hide Declares, Buffer;
    NestedBuffer(1, "a", [], {});
    NestedBuffer(2, "s", ["A"], {"A"});
    NestedBuffer(3, "t", ["A", "B"], {"A", "B"});
    NestedBuffer(4, "h", ["A", "B"], {"A", "B"});
    NestedBuffer(5, "e", ["A"], {"A"});
    NestedBuffer(6, "f", [], {});
    NestedBuffer(7, "z", [], {});
  }

  lemma Six(f: Function)
    ensures f in NESTED.funcs <==>
            f == OUTER_START || f == INNER_START || f == BODY || f == INNER_END || f == OUTER_END || f == READER
  {
  }

  lemma NestedLoops()
    ensures ScopesOf(NESTED).loops == map["A" := 2, "B" := 2]
  {
    assert [INNER][1..] == [];
    assert LoopsOf([INNER]) == map["B" := 2];
    assert [OUTER, INNER][1..] == [INNER];
  }

  lemma NestedShape(f: Function)
    requires f in NESTED.funcs
    ensures WellShaped(f) && Distinct(f.repeatIds) && |f.outputs| == 1
    ensures LoopMarker(NESTED, f) <==> MarkerKind(f.kind)
    ensures f.outputs[0] == "s" || f.outputs[0] == "t" <==> f.kind == "RepeatStart"
    ensures f.kind != "Delay" && f.kind != "RecurrentInput"
  {
    Six(f);
    NestedLoops();
  }

  lemma NestedMarkersPlaced()
    ensures Placed(NESTED, OUTER_START) && Placed(NESTED, INNER_START) && Placed(NESTED, INNER_END) && Placed(NESTED, OUTER_END)
  {
    assert Own(OUTER_START) == {"A"} && Own(INNER_START) == {"A", "B"} && Own(INNER_END) == {"A"} && Own(OUTER_END) == {};
    assert {"A"} - {"A"} == {} && {"A", "B"} - {"B"} == {"A"} && {"A"} + {"B"} == {"A", "B"} && {} + {"A"} == {"A"};
    assert OUTER_START in NESTED.funcs && INNER_START in NESTED.funcs && INNER_END in NESTED.funcs && OUTER_END in NESTED.funcs by {
      Six(OUTER_START);
      Six(INNER_START);
      Six(INNER_END);
      Six(OUTER_END);
    }
    hide Placed, LoopMarker, Declares, WellShaped, Own, Distinct;
    NestedShape(OUTER_START);
    NestedShape(INNER_START);
    NestedShape(INNER_END);
    NestedShape(OUTER_END);
    NestedBuffers();
    StartPlaced(NESTED, OUTER_START, "a", "e", "s", {"A"});
    StartPlaced(NESTED, INNER_START, "s", "h", "t", {"A", "B"});
    ClosePlaced(NESTED, INNER_END, "h", "e", {"A"});
    ClosePlaced(NESTED, OUTER_END, "e", "f", {});
  }

  lemma BodyShape()
    ensures Own(BODY) == {"A", "B"} && Distinct(BODY.repeatIds) && !MarkerKind(BODY.kind)
    ensures BODY.outputs == ["h"] && forall x :: x in BODY.inputs ==> x == "t" || x == WEIGHT.name
  {
    assert BODY.inputs == ["t", WEIGHT.name];
  }

  lemma WeightDeclared()
    ensures DeclaredName(NESTED, WEIGHT.name) && Fits(NESTED, WEIGHT.name, {"A", "B"})
  {
    assert NESTED_VARS[0] == WEIGHT;
    assert WEIGHT.kind == "Parameter" && WEIGHT.repeatIds == ["A", "B"];
    hide Fits, DeclaredName, Declares;
    IdSets();
    NestedVariable(WEIGHT, {"A", "B"});
  }

  lemma BodyPlaced()
    ensures Placed(NESTED, BODY)
  {
    hide *;
    BodyShape();
    IdSets();
    WeightDeclared();
    NestedBuffers();
    DeclaresFits(NESTED, "t", {"A", "B"});
    LayerPlaced(NESTED, BODY, "h", {"A", "B"});
  }

  lemma ReaderShape()
    ensures Own(READER) == {} && Distinct(READER.repeatIds) && !MarkerKind(READER.kind)
    ensures READER.outputs == ["z"] && forall x :: x in READER.inputs ==> x == "f"
  {
    assert READER.inputs == ["f"];
  }

  lemma ReaderPlaced()
    ensures Placed(NESTED, READER)
  {
    hide *;
    ReaderShape();
    NestedBuffers();
    DeclaresFits(NESTED, "f", {});
    LayerPlaced(NESTED, READER, "z", {});
  }

  lemma OneWriter(f: Function, f': Function)
    requires f in NESTED.funcs && f' in NESTED.funcs && f.outputs[0] == f'.outputs[0]
    ensures f == f'
  {
    Six(f);
    Six(f');
  }

  function NestedOrigins(): Origins {
    (x: string) =>
      if x == "s" then {Opening("A"), Closing("B")}
      else if x == "t" then {Opening("B")}
      else if x == "e" then {Closing("B")}
      else if x == "f" then {Closing("A"), Closing("B")}
      else {}
  }

  lemma NestedOrder(b: string, c: string)
    ensures Before(NESTED.repeats, b, c) <==> b == "A" && c == "B"
  {
    assert NESTED.repeats[0].id == "A" && NESTED.repeats[1].id == "B";
  }

  lemma NoParameter(x: string, s: set<string>)
    requires Declares(NESTED, x, s)
    ensures !IsParam(NESTED, x)
  {
  }

  lemma NestedReads(f: Function)
    requires f in NESTED.funcs && MarkerKind(f.kind)
    ensures forall j :: 0 <= j < |f.inputs| ==> !IsParam(NESTED, f.inputs[j])
  {
    Six(f);
    hide IsParam, Declares;
    NestedBuffers();
    NoParameter("a", {});
    NoParameter("e", {"A"});
    NoParameter("s", {"A"});
    NoParameter("h", {"A", "B"});
  }

  lemma NestedClear(f: Function)
    requires f in NESTED.funcs && MarkerKind(f.kind)
    ensures Clear(f, NestedOrigins())
  {
    Six(f);
  }

  /** What a marker's output may become in one of the loops, told by what its inputs may become. */
  lemma HandsOnNested(f: Function, origins: Origins)
    requires WellShaped(f) && MarkerKind(f.kind) && (forall j :: 0 <= j < |f.inputs| ==> !IsParam(NESTED, f.inputs[j]))
    requires (if f.kind == "RepeatEnd" then Closing(LoopOf(f)) else Opening(LoopOf(f))) in origins(f.outputs[0])
    requires LoopOf(f) == "A" ==>
               forall j, q: Origin :: 0 <= j < |f.inputs| && q in origins(f.inputs[j]) && q.loop == "B" ==> q in origins(f.outputs[0])
    ensures HandsOn(NESTED, f, origins)
  {
    forall c ensures Before(NESTED.repeats, LoopOf(f), c) <==> LoopOf(f) == "A" && c == "B" {
      NestedOrder(LoopOf(f), c);
    }
    hide IsParam, Before;
  }

  lemma NestedHandsOn(f: Function)
    requires f in NESTED.funcs && HandsThrough(f.kind)
    ensures WellShaped(f) && MarkerKind(f.kind) && HandsOn(NESTED, f, NestedOrigins())
  {
    Six(f);
    NestedReads(f);
    var origins := NestedOrigins();
    hide IsParam, HandsOn;
    if f == OUTER_START {
      assert f.inputs == ["a", "e"] && f.outputs == ["s"] && LoopOf(f) == "A";
      HandsOnNested(f, origins);
    } else if f == INNER_START {
      assert f.outputs == ["t"] && LoopOf(f) == "B";
      HandsOnNested(f, origins);
    } else if f == INNER_END {
      assert f.outputs == ["e"] && LoopOf(f) == "B";
      HandsOnNested(f, origins);
    } else {
      assert f.inputs == ["e"] && f.outputs == ["f"] && LoopOf(f) == "A";
      HandsOnNested(f, origins);
    }
  }

  /** The update of each loop comes from its body. */
  lemma NestedTraced()
    ensures Traced(NESTED, NestedOrigins())
  {
    hide Clear, HandsOn, NestedOrigins;
    forall f | f in NESTED.funcs && WellShaped(f) && LoopMarker(NESTED, f)
      ensures Clear(f, NestedOrigins()) && (HandsThrough(f.kind) ==> HandsOn(NESTED, f, NestedOrigins()))
    {
      NestedClear(f);
      if HandsThrough(f.kind) {
        NestedHandsOn(f);
      }
    }
  }

  lemma NestedSingleWriter()
    ensures SingleWriter(NESTED.funcs)
  {
    forall f, f', o | f in NESTED.funcs && f' in NESTED.funcs && o in f.outputs && o in f'.outputs ensures f == f' {
      NestedShape(f);
      NestedShape(f');
      OneWriter(f, f');
    }
  }

  lemma NestedPlaced(f: Function)
    requires f in NESTED.funcs
    ensures Placed(NESTED, f)
  {
    Six(f);
    hide Placed;
    NestedMarkersPlaced();
    BodyPlaced();
    ReaderPlaced();
  }

  lemma NestedBasics()
    ensures DistinctIds(NESTED.repeats) && EveryLoopRuns(NESTED) && forall v :: v in NESTED.vars ==> Distinct(v.repeatIds)
  {
    assert OUTER.id == "A" && INNER.id == "B";
  }

  lemma Assembled(net: Net, origins: Origins)
    requires DistinctIds(net.repeats) && EveryLoopRuns(net) && FreshNames(net.vars, net.repeats)
    requires (forall v :: v in net.vars ==> Distinct(v.repeatIds)) && (forall f :: f in net.funcs ==> Placed(net, f))
    requires SingleWriter(net.funcs) && Traced(net, origins)
    ensures WellFormed(net)
  {
    hide Placed, FreshNames, Traced, Distinct, SingleWriter, DistinctIds, EveryLoopRuns;
  }

  /** One loop inside another is covered. */
  lemma NestedWellFormed()
    ensures WellFormed(NESTED) && NoNameReused(NESTED.vars, NESTED.repeats, {})
  {
    assert NESTED.vars == NESTED_VARS && NESTED.repeats == [OUTER, INNER];
    hide *;
    NestedFresh();
    NestedTraced();
    NestedBasics();
    NestedSingleWriter();
    forall f | f in NESTED.funcs ensures Placed(NESTED, f) {
      NestedPlaced(f);
    }
    Assembled(NESTED, NestedOrigins());
  }

  lemma StubNames(net: Net, pool: seq<Variable>, letters: set<char>)
    requires NoTwice(pool) && OneLetter(pool, letters)
    requires EveryLoopRuns(net) && LongestName(1, net.repeats) < MAX_NAME_LEN
    requires (forall f :: f in net.funcs ==> Stub(f) in pool) && UniqueNames(net.funcs)
    ensures NamedApart(net)
  {
    FreshLetters(pool, net.repeats, letters);
    assert Pooled(net, pool);
  }

  const NESTED_STUBS := [Variable("p", "", ["A"]), Variable("q", "", ["A", "B"]), Variable("b", "", ["A", "B"]),
                         Variable("k", "", ["A"]), Variable("l", "", []), Variable("o", "", [])]

  const STUB_LETTERS := {'p', 'q', 'b', 'k', 'l', 'o'}

  lemma NestedStubNames()
    ensures NoTwice(NESTED_STUBS) && OneLetter(NESTED_STUBS, STUB_LETTERS)
  {
    var v := NESTED_STUBS;
    assert v[0].name == "p" && v[1].name == "q" && v[2].name == "b" && v[3].name == "k" && v[4].name == "l" && v[5].name == "o";
    forall i, j | 0 <= i < j < 6 ensures v[i].name != v[j].name {
      assert v[i].name[0] != v[j].name[0];
    }
  }

  lemma NestedStub(f: Function)
    requires f in NESTED.funcs
    ensures Stub(f) in NESTED_STUBS
  {
    Six(f);
    NestedShape(f);
    var v := NESTED_STUBS;
    assert v[0] in v && v[1] in v && v[2] in v && v[3] in v && v[4] in v && v[5] in v;
  }

  lemma NestedUnique()
    ensures UniqueNames(NESTED.funcs)
  {
    forall f, g | f in NESTED.funcs && g in NESTED.funcs && f.name == g.name ensures f == g {
      Six(f);
      Six(g);
      assert f.name[0] == g.name[0];
    }
  }

  lemma NestedNamedApart()
    ensures NamedApart(NESTED)
  {
    assert NESTED.repeats == [OUTER, INNER];
    hide *;
    NestedRuns();
    NestedBasics();
    NestedStubNames();
    NestedUnique();
    forall f | f in NESTED.funcs ensures Stub(f) in NESTED_STUBS {
      NestedStub(f);
    }
    StubNames(NESTED, NESTED_STUBS, STUB_LETTERS);
  }
}
