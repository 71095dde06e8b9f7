/** The network of the recurrent delay test meets what is asked of networks. */
module RecurrentExample {
  import opened Network
  import opened Unroll
  import opened Placement
  import opened WellFormedness
  import opened ExpansionNames
  import opened FreshNaming
  import opened LoopExamples
  import opened Wrappers

  const ROWS := Repeat("RecurrentInput", 28)
  const INSIDE: seq<string> := ["RecurrentInput"]

  function Weights(name: string): Variable { Variable(name, "Parameter", []) }

  const RECURRENT_VARS := [Buffer("Input", []), Buffer("RecurrentInput", INSIDE), Weights("Affine/affine/W"), Weights("Affine/affine/b"),
                           Buffer("Delay_Initial", []), Weights("Affine_2/affine/W"), Weights("Affine_2/affine/b"),
                           Buffer("BinaryCrossEntropy_T", []), Buffer("Affine", []), Buffer("Sigmoid", []), Buffer("Delay", INSIDE),
                           Buffer("Affine_2", INSIDE), Buffer("Concatenate", INSIDE), Buffer("Tanh", INSIDE),
                           Buffer("BinaryCrossEntropy", []), Buffer("RecurrentOutput", []), Buffer("Slice", [])]

  function Named(kind: string, inputs: seq<string>, name: string, ids: seq<string>): Function { Layer(name, kind, inputs, name, ids) }

  const SPLIT := Named("RecurrentInput", ["Input"], "RecurrentInput", INSIDE).(recurrentParam := "RecurrentInput", recurrentAxis := 2)
  const AFFINE := Named("Affine", ["Slice", "Affine/affine/W", "Affine/affine/b"], "Affine", [])
  const SIGMOID := Named("Sigmoid", ["Affine"], "Sigmoid", [])
  const DELAY := Named("Delay", ["Tanh", "Delay_Initial"], "Delay", INSIDE).(recurrentParam := "RecurrentInput")
  const AFFINE_2 := Named("Affine", ["Concatenate", "Affine_2/affine/W", "Affine_2/affine/b"], "Affine_2", INSIDE)
  const CONCATENATE := Named("Concatenate", ["RecurrentInput", "Delay"], "Concatenate", INSIDE)
  const TANH := Named("Tanh", ["Affine_2"], "Tanh", INSIDE)
  const ENTROPY := Named("BinaryCrossEntropy", ["Sigmoid", "BinaryCrossEntropy_T"], "BinaryCrossEntropy", [])
  const STACK := Named("RecurrentOutput", ["Tanh"], "RecurrentOutput", []).(recurrentParam := "RecurrentInput", recurrentAxis := 2)
  const SLICE := Named("Slice", ["RecurrentOutput"], "Slice", [])
  const RECURRENT := Net([ROWS], RECURRENT_VARS,
                         [SPLIT, AFFINE, SIGMOID, DELAY, AFFINE_2, CONCATENATE, TANH, ENTROPY, STACK, SLICE])

  /** A number that is different for every name of the test. */
  function Code(x: string): int { if x == "" then 0 else |x| * 256 + x[|x| - 1] as int }

  function Codes(vars: seq<Variable>): (c: seq<int>)
    ensures |c| == |vars| && forall k :: 0 <= k < |vars| ==> c[k] == Code(vars[k].name)
  {
    seq(|vars|, k requires 0 <= k < |vars| => Code(vars[k].name))
  }

  lemma CodesDiffer(c: seq<int>)
    requires |c| == 17
    requires c[0] == 1396 && c[1] == 3700 && c[2] == 3927 && c[3] == 3938
    requires c[4] == 3436 && c[5] == 4439 && c[6] == 4450 && c[7] == 5204
    requires c[8] == 1637 && c[9] == 1892 && c[10] == 1401 && c[11] == 2098
    requires c[12] == 2917 && c[13] == 1128 && c[14] == 4729 && c[15] == 3956
    requires c[16] == 1381
    ensures forall i, j :: 0 <= i < j < 17 ==> c[i] != c[j]
  {
  }

  lemma RecurrentCodes()
    ensures forall i, j :: 0 <= i < j < |RECURRENT_VARS| ==> Code(RECURRENT_VARS[i].name) != Code(RECURRENT_VARS[j].name)
  {
    var v := RECURRENT_VARS;
    assert Code(v[0].name) == 1396 && Code(v[1].name) == 3700 && Code(v[2].name) == 3927 && Code(v[3].name) == 3938;
    assert Code(v[4].name) == 3436 && Code(v[5].name) == 4439 && Code(v[6].name) == 4450 && Code(v[7].name) == 5204;
    assert Code(v[8].name) == 1637 && Code(v[9].name) == 1892 && Code(v[10].name) == 1401 && Code(v[11].name) == 2098;
    assert Code(v[12].name) == 2917 && Code(v[13].name) == 1128 && Code(v[14].name) == 4729 && Code(v[15].name) == 3956;
    assert Code(v[16].name) == 1381;
    hide Code;
    CodesDiffer(Codes(v));
  }

  lemma RecurrentNoTwice()
    ensures NoTwice(RECURRENT_VARS)
  {
    RecurrentCodes();
    hide Code;
  }

  /** What is needed of the names of the test to see that they stay apart. */
  ghost predicate RowNamed(v: Variable) {
    && 0 < |v.name| <= 20
    && (if v.repeatIds == [] then |v.name| < 20 || v.name[0] == 'B'
        else v.repeatIds == INSIDE && v.kind != "Parameter" && (|v.name| > 4 || (|v.name| == 4 && v.name[0] == 'T')))
  }

  lemma RowStem(v: Variable)
    requires RowNamed(v)
    ensures if v.repeatIds == [] then FirstLoop(v, [ROWS]).None? && Stem(v, [ROWS]) == v.name
            else FirstLoop(v, [ROWS]) == Some("RecurrentInput") && Stem(v, [ROWS]) == v.name + "_RecurrentInput_"
  {
    assert v.repeatIds == INSIDE ==> v.repeatIds[0] == ROWS.id;
    assert [ROWS][1..] == [] && FirstLoop(v, []) == None;
    assert "_" + "RecurrentInput" + "_" == "_RecurrentInput_";
    assert v.name + "_" + "RecurrentInput" + "_" == v.name + "_RecurrentInput_";
  }

  lemma RowStemsApart(v: Variable, w: Variable)
    requires RowNamed(v) && RowNamed(w) && v.repeatIds != w.repeatIds
    ensures StemsApart(v, w, [ROWS])
  {
    RowStem(v);
    RowStem(w);
    hide Stem, FirstLoop;
    var tail := "_RecurrentInput_";
    assert |tail| == 16;
    if v.repeatIds == [] {
      assert Stem(w, [ROWS])[0] == w.name[0];
    } else {
      assert Stem(v, [ROWS])[0] == v.name[0];
    }
  }

  lemma RowsRun()
    ensures (forall i :: 0 <= i < |[ROWS]| ==> [ROWS][i].times >= 1) && LongestName(20, [ROWS]) < MAX_NAME_LEN
  {
    assert Decimal(28) == Decimal(2) + ["0123456789"[8]] && |Decimal(2)| == 1;
    assert [ROWS][1..] == [] && |ROWS.id| == 14;
    assert LongestName(20, [ROWS]) == LongestName(38, []);
  }

  lemma RowsFresh(vars: seq<Variable>)
    requires NoTwice(vars) && forall v :: v in vars ==> RowNamed(v)
    ensures FreshNames(vars, [ROWS]) && NoNameReused(vars, [ROWS], {})
  {
    RowsRun();
    NamedParameters(vars);
    hide NoTwice, FreshNames, StemsApart, LongestName, NoNameReused;
    forall v, w | v in vars && w in vars && v.repeatIds != w.repeatIds ensures StemsApart(v, w, [ROWS]) {
      RowStemsApart(v, w);
    }
    FreshApart(vars, [ROWS], 20);
    NoneRenamed(vars, [ROWS]);
  }

  lemma RecurrentNamed()
    ensures forall v :: v in RECURRENT_VARS ==> RowNamed(v)
  {
    var v := RECURRENT_VARS;
    assert RowNamed(v[0]) && RowNamed(v[1]) && RowNamed(v[2]) && RowNamed(v[3]) && RowNamed(v[4]) && RowNamed(v[5]);
    assert RowNamed(v[6]) && RowNamed(v[7]) && RowNamed(v[8]) && RowNamed(v[9]) && RowNamed(v[10]) && RowNamed(v[11]);
    assert RowNamed(v[12]) && RowNamed(v[13]) && RowNamed(v[14]) && RowNamed(v[15]) && RowNamed(v[16]) && |v| == 17;
    hide RowNamed;
  }

  lemma NamedParameters(vars: seq<Variable>)
    requires forall v :: v in vars ==> RowNamed(v)
    ensures forall v :: v in vars && v.kind == "Parameter" ==> v.repeatIds == []
  {
  }

  lemma RecurrentFresh()
    ensures FreshNames(RECURRENT.vars, RECURRENT.repeats) && NoNameReused(RECURRENT.vars, RECURRENT.repeats, {})
  {
    hide FreshNames, NoTwice, NoNameReused, RowNamed;
    RecurrentNoTwice();
    RecurrentNamed();
    hide RECURRENT_VARS;
    RowsFresh(RECURRENT.vars);
  }

  lemma RecurrentLoops()
    ensures ScopesOf(RECURRENT).loops == map["RecurrentInput" := 28]
  {
    assert [ROWS][1..] == [];
    assert LoopsOf([ROWS]) == map["RecurrentInput" := 28];
  }

  lemma RecurrentVariable(k: nat, x: string, s: set<string>)
    requires k < |RECURRENT_VARS| && RECURRENT_VARS[k].name == x && s == set id | id in RECURRENT_VARS[k].repeatIds
    ensures DeclaredName(RECURRENT, x) && Ids(RECURRENT, x) == s
    ensures IsParam(RECURRENT, x) <==> RECURRENT_VARS[k].kind == "Parameter"
  {
    RecurrentNoTwice();
    var v := RECURRENT_VARS[k];
    assert RECURRENT.vars == RECURRENT_VARS && v in RECURRENT_VARS;
    hide NoTwice, RECURRENT_VARS;
    IsDeclared(RECURRENT, v);
    IdsFound(RECURRENT.vars, v);
    Kind(RECURRENT.vars, v);
  }

  lemma RecurrentBuffer(k: nat, x: string, ids: seq<string>, s: set<string>)
    requires k < |RECURRENT_VARS| && RECURRENT_VARS[k] == Buffer(x, ids) && s == set id | id in ids
    ensures Declares(RECURRENT, x, s)
  {
    hide DeclaredName, IsParam, Ids, RECURRENT_VARS;
    RecurrentVariable(k, x, s);
  }

  lemma RecurrentWeights(k: nat, x: string)
    requires k < |RECURRENT_VARS| && RECURRENT_VARS[k] == Weights(x)
    ensures DeclaredName(RECURRENT, x) && forall s :: Fits(RECURRENT, x, s)
  {
    hide DeclaredName, IsParam, Ids, RECURRENT_VARS;
    RecurrentVariable(k, x, {});
  }

  lemma RowSets()
    ensures var none: seq<string> := []; (set id | id in none) == {}
    ensures (set id | id in INSIDE) == {"RecurrentInput"}
  {
  }

  lemma InnerDeclared()
    ensures Declares(RECURRENT, "RecurrentInput", {"RecurrentInput"})
    ensures Declares(RECURRENT, "Delay", {"RecurrentInput"})
    ensures Declares(RECURRENT, "Affine_2", {"RecurrentInput"})
    ensures Declares(RECURRENT, "Concatenate", {"RecurrentInput"})
    ensures Declares(RECURRENT, "Tanh", {"RecurrentInput"})
  {
    RowSets();
    hide Declares, Buffer;
    RecurrentBuffer(1, "RecurrentInput", INSIDE, {"RecurrentInput"});
    RecurrentBuffer(10, "Delay", INSIDE, {"RecurrentInput"});
    RecurrentBuffer(11, "Affine_2", INSIDE, {"RecurrentInput"});
    RecurrentBuffer(12, "Concatenate", INSIDE, {"RecurrentInput"});
    RecurrentBuffer(13, "Tanh", INSIDE, {"RecurrentInput"});
  }

  lemma OuterDeclared()
    ensures Declares(RECURRENT, "Input", {})
    ensures Declares(RECURRENT, "Delay_Initial", {})
    ensures Declares(RECURRENT, "BinaryCrossEntropy_T", {})
    ensures Declares(RECURRENT, "Affine", {})
    ensures Declares(RECURRENT, "Sigmoid", {})
    ensures Declares(RECURRENT, "BinaryCrossEntropy", {})
    ensures Declares(RECURRENT, "RecurrentOutput", {})
    ensures Declares(RECURRENT, "Slice", {})
  {
    RowSets();
    hide Declares, Buffer;
    RecurrentBuffer(0, "Input", [], {});
    RecurrentBuffer(4, "Delay_Initial", [], {});
    RecurrentBuffer(7, "BinaryCrossEntropy_T", [], {});
    RecurrentBuffer(8, "Affine", [], {});
    RecurrentBuffer(9, "Sigmoid", [], {});
    RecurrentBuffer(14, "BinaryCrossEntropy", [], {});
    RecurrentBuffer(15, "RecurrentOutput", [], {});
    RecurrentBuffer(16, "Slice", [], {});
  }

  lemma WeightsDeclared()
    ensures DeclaredName(RECURRENT, "Affine/affine/W") && forall s :: Fits(RECURRENT, "Affine/affine/W", s)
    ensures DeclaredName(RECURRENT, "Affine/affine/b") && forall s :: Fits(RECURRENT, "Affine/affine/b", s)
    ensures DeclaredName(RECURRENT, "Affine_2/affine/W") && forall s :: Fits(RECURRENT, "Affine_2/affine/W", s)
    ensures DeclaredName(RECURRENT, "Affine_2/affine/b") && forall s :: Fits(RECURRENT, "Affine_2/affine/b", s)
  {
    hide DeclaredName, Fits;
    RecurrentWeights(2, "Affine/affine/W");
    RecurrentWeights(3, "Affine/affine/b");
    RecurrentWeights(5, "Affine_2/affine/W");
    RecurrentWeights(6, "Affine_2/affine/b");
  }

  lemma Ten(f: Function)
    ensures f in RECURRENT.funcs <==>
            || f == SPLIT || f == AFFINE || f == SIGMOID || f == DELAY || f == AFFINE_2
            || f == CONCATENATE || f == TANH || f == ENTROPY || f == STACK || f == SLICE
  {
  }

  /** Every function bears the name of what it hands out, and a shape that fits it. */
  lemma RecurrentShape(f: Function)
    requires f in RECURRENT.funcs
    ensures WellShaped(f) && f.outputs == [f.name] && (f.repeatIds == [] || f.repeatIds == INSIDE)
    ensures MarkerKind(f.kind) <==> f == SPLIT || f == DELAY || f == STACK
    ensures MarkerKind(f.kind) ==> LoopOf(f) == "RecurrentInput"
  {
    Ten(f);
  }

  lemma RecurrentOwn(f: Function)
    requires f in RECURRENT.funcs
    ensures Distinct(f.repeatIds) && Own(f) == if f.repeatIds == [] then {} else {"RecurrentInput"}
    ensures LoopMarker(RECURRENT, f) <==> MarkerKind(f.kind)
  {
    RecurrentShape(f);
    RecurrentLoops();
  }

  lemma RecurrentMarkersPlaced()
    ensures Placed(RECURRENT, SPLIT) && Placed(RECURRENT, DELAY) && Placed(RECURRENT, STACK)
  {
    var s: set<string> := {"RecurrentInput"};
    assert s - s == {} && {} + s == s;
    assert SPLIT.repeatIds == INSIDE && DELAY.repeatIds == INSIDE && STACK.repeatIds == [] && INSIDE != [];
    assert SPLIT.inputs == ["Input"] && DELAY.inputs == ["Tanh", "Delay_Initial"] && STACK.inputs == ["Tanh"];
    assert SPLIT.outputs == ["RecurrentInput"] && DELAY.outputs == ["Delay"] && STACK.outputs == ["RecurrentOutput"];
    Ten(SPLIT);
    Ten(DELAY);
    Ten(STACK);
    hide Placed, LoopMarker, Declares, WellShaped, Own, Distinct, LoopOf;
    RecurrentShape(SPLIT);
    RecurrentShape(DELAY);
    RecurrentShape(STACK);
    RecurrentOwn(SPLIT);
    RecurrentOwn(DELAY);
    RecurrentOwn(STACK);
    InnerDeclared();
    OuterDeclared();
    RecurrentInputPlaced(RECURRENT, SPLIT, "Input", "RecurrentInput", s);
    DelayPlaced(RECURRENT, DELAY, "Tanh", "Delay_Initial", "Delay", s);
    ClosePlaced(RECURRENT, STACK, "Tanh", "RecurrentOutput", {});
  }

  lemma DeclaredFits(net: Net, s: set<string>)
    ensures forall x :: Declares(net, x, s) ==> DeclaredName(net, x) && Fits(net, x, s)
  {
    forall x | Declares(net, x, s) ensures DeclaredName(net, x) && Fits(net, x, s) {
      DeclaresFits(net, x, s);
    }
  }

  lemma InnerReads()
    ensures AFFINE_2.inputs == ["Concatenate", "Affine_2/affine/W", "Affine_2/affine/b"] && AFFINE_2.name == "Affine_2"
    ensures CONCATENATE.inputs == ["RecurrentInput", "Delay"] && CONCATENATE.name == "Concatenate"
    ensures TANH.inputs == ["Affine_2"] && TANH.name == "Tanh"
  {
  }

  lemma OuterReads()
    ensures AFFINE.inputs == ["Slice", "Affine/affine/W", "Affine/affine/b"] && AFFINE.name == "Affine"
    ensures SIGMOID.inputs == ["Affine"] && SIGMOID.name == "Sigmoid"
    ensures ENTROPY.inputs == ["Sigmoid", "BinaryCrossEntropy_T"] && ENTROPY.name == "BinaryCrossEntropy"
    ensures SLICE.inputs == ["RecurrentOutput"] && SLICE.name == "Slice"
  {
  }

  /** What the layers read in every row. */
  lemma InnerLayer(f: Function)
    requires f == AFFINE_2 || f == CONCATENATE || f == TANH
    ensures forall x :: x in f.inputs ==> DeclaredName(RECURRENT, x) && Fits(RECURRENT, x, {"RecurrentInput"})
    ensures Declares(RECURRENT, f.name, {"RecurrentInput"})
  {
    hide *;
    InnerReads();
    InnerDeclared();
    WeightsDeclared();
    DeclaredFits(RECURRENT, {"RecurrentInput"});
  }

  /** What the layers behind the rows read. */
  lemma OuterLayer(f: Function)
    requires f == AFFINE || f == SIGMOID || f == ENTROPY || f == SLICE
    ensures forall x :: x in f.inputs ==> DeclaredName(RECURRENT, x) && Fits(RECURRENT, x, {})
    ensures Declares(RECURRENT, f.name, {})
  {
    hide *;
    OuterReads();
    OuterDeclared();
    WeightsDeclared();
    DeclaredFits(RECURRENT, {});
  }

  lemma RecurrentLayer(f: Function)
    requires f in RECURRENT.funcs && !MarkerKind(f.kind)
    ensures forall x :: x in f.inputs ==> DeclaredName(RECURRENT, x) && Fits(RECURRENT, x, Own(f))
    ensures f.outputs == [f.name] && Declares(RECURRENT, f.name, Own(f))
  {
    RecurrentShape(f);
    RecurrentOwn(f);
    Ten(f);
    assert f.repeatIds == INSIDE <==> f == AFFINE_2 || f == CONCATENATE || f == TANH;
    assert [] != INSIDE;
    hide *;
    if f.repeatIds == INSIDE {
      InnerLayer(f);
    } else {
      OuterLayer(f);
    }
  }

  lemma RecurrentPlaced(f: Function)
    requires f in RECURRENT.funcs
    ensures Placed(RECURRENT, f)
  {
    RecurrentShape(f);
    hide *;
    if MarkerKind(f.kind) {
      RecurrentMarkersPlaced();
    } else {
      RecurrentLayer(f);
      RecurrentOwn(f);
      LayerPlaced(RECURRENT, f, f.name, Own(f));
    }
  }

  function Stubs(funcs: seq<Function>): (vars: seq<Variable>)
    ensures |vars| == |funcs| && forall k :: 0 <= k < |funcs| ==> vars[k] == Stub(funcs[k])
  {
    seq(|funcs|, k requires 0 <= k < |funcs| => Stub(funcs[k]))
  }

  lemma TenCodesDiffer(c: seq<int>)
    requires |c| == 10
    requires c[0] == 3700 && c[1] == 1637 && c[2] == 1892 && c[3] == 1401 && c[4] == 2098
    requires c[5] == 2917 && c[6] == 1128 && c[7] == 4729 && c[8] == 3956 && c[9] == 1381
    ensures forall i, j :: 0 <= i < j < 10 ==> c[i] != c[j]
  {
  }

  lemma FunctionCodes()
    ensures forall i, j :: 0 <= i < j < |RECURRENT.funcs| ==> RECURRENT.funcs[i].name != RECURRENT.funcs[j].name
  {
    var f := RECURRENT.funcs;
    assert Code(f[0].name) == 3700 && Code(f[1].name) == 1637 && Code(f[2].name) == 1892 && Code(f[3].name) == 1401
        && Code(f[4].name) == 2098;
    assert Code(f[5].name) == 2917 && Code(f[6].name) == 1128 && Code(f[7].name) == 4729 && Code(f[8].name) == 3956
        && Code(f[9].name) == 1381;
    hide Code;
    TenCodesDiffer(Codes(Stubs(f)));
    assert forall i, j :: 0 <= i < j < |f| ==> Code(f[i].name) != Code(f[j].name);
  }

  lemma FunctionNamed(f: Function, g: Function)
    requires f in RECURRENT.funcs && g in RECURRENT.funcs && f.name == g.name
    ensures f == g
  {
    FunctionCodes();
    hide RECURRENT;
  }

  lemma RecurrentSingleWriter()
    ensures SingleWriter(RECURRENT.funcs)
  {
    forall f, f', o | f in RECURRENT.funcs && f' in RECURRENT.funcs && o in f.outputs && o in f'.outputs ensures f == f' {
      RecurrentShape(f);
      RecurrentShape(f');
      FunctionNamed(f, f');
    }
  }

  function RecurrentOrigins(): Origins {
    (x: string) => if x == "Delay" then {Opening("RecurrentInput")} else {}
  }

  lemma NoOrder(b: string, c: string)
    ensures !Before(RECURRENT.repeats, b, c)
  {
  }

  lemma RecurrentClear(f: Function)
    requires f == SPLIT || f == DELAY || f == STACK
    ensures Clear(f, RecurrentOrigins())
  {
    assert SPLIT.inputs == ["Input"] && DELAY.inputs == ["Tanh", "Delay_Initial"] && STACK.inputs == ["Tanh"];
    hide LoopOf;
  }

  lemma DelayHandsOn()
    ensures WellShaped(DELAY) && HandsOn(RECURRENT, DELAY, RecurrentOrigins())
  {
    forall b, c ensures !Before(RECURRENT.repeats, b, c) {
      NoOrder(b, c);
    }
    assert DELAY.outputs == ["Delay"] && LoopOf(DELAY) == "RecurrentInput";
    hide Before, IsParam;
  }

  lemma RecurrentTraced()
    ensures Traced(RECURRENT, RecurrentOrigins())
  {
    hide Clear, HandsOn, RecurrentOrigins;
    DelayHandsOn();
    forall f | f in RECURRENT.funcs && WellShaped(f) && LoopMarker(RECURRENT, f)
      ensures Clear(f, RecurrentOrigins()) && (HandsThrough(f.kind) ==> HandsOn(RECURRENT, f, RecurrentOrigins()))
    {
      RecurrentShape(f);
      RecurrentClear(f);
      assert SPLIT.kind == "RecurrentInput" && STACK.kind == "RecurrentOutput";
    }
  }

  lemma RecurrentBasics()
    ensures DistinctIds(RECURRENT.repeats) && EveryLoopRuns(RECURRENT) && forall v :: v in RECURRENT.vars ==> Distinct(v.repeatIds)
  {
    RecurrentNamed();
  }

  /** The recurrent delay test's network is covered. */
  lemma RecurrentWellFormed()
    ensures WellFormed(RECURRENT) && NoNameReused(RECURRENT.vars, RECURRENT.repeats, {})
  {
    hide *;
    RecurrentFresh();
    RecurrentTraced();
    RecurrentBasics();
    RecurrentSingleWriter();
    forall f | f in RECURRENT.funcs ensures Placed(RECURRENT, f) {
      RecurrentPlaced(f);
    }
    Assembled(RECURRENT, RecurrentOrigins());
  }

  lemma RecurrentStub(f: Function)
    requires f in RECURRENT.funcs
    ensures RowNamed(Stub(f))
  {
    Ten(f);
    RecurrentShape(f);
    assert SPLIT.repeatIds[0] == LoopOf(SPLIT);
    assert |SPLIT.name| == 14 && |AFFINE.name| == 6 && |SIGMOID.name| == 7 && |DELAY.name| == 5 && |AFFINE_2.name| == 8;
    assert |CONCATENATE.name| == 11 && TANH.name == "Tanh" && |ENTROPY.name| == 18 && |STACK.name| == 15 && |SLICE.name| == 5;
  }

  lemma StubsNamed(funcs: seq<Function>)
    requires forall i, j :: 0 <= i < j < |funcs| ==> funcs[i].name != funcs[j].name
    requires forall f :: f in funcs ==> RowNamed(Stub(f))
    ensures NoTwice(Stubs(funcs)) && forall v :: v in Stubs(funcs) ==> RowNamed(v)
    ensures forall f :: f in funcs ==> Stub(f) in Stubs(funcs)
  {
    hide RowNamed;
    assert forall k :: 0 <= k < |funcs| ==> Stubs(funcs)[k] == Stub(funcs[k]) && funcs[k] in funcs;
  }

  lemma RowsNamedApart(net: Net)
    requires net.repeats == [ROWS] && forall f :: f in net.funcs ==> RowNamed(Stub(f))
    requires forall i, j :: 0 <= i < j < |net.funcs| ==> net.funcs[i].name != net.funcs[j].name
    ensures NamedApart(net)
  {
    hide RowNamed, Stub, Stubs, FreshNames, NoTwice, NoNameReused;
    StubsNamed(net.funcs);
    RowsFresh(Stubs(net.funcs));
    assert Pooled(net, Stubs(net.funcs));
  }

  /** Of its functions, too, no two ever have the same name. */
  lemma RecurrentNamedApart()
    ensures NamedApart(RECURRENT)
  {
    assert RECURRENT.repeats == [ROWS];
    hide *;
    FunctionCodes();
    forall f | f in RECURRENT.funcs ensures RowNamed(Stub(f)) {
      RecurrentStub(f);
    }
    RowsNamedApart(RECURRENT);
  }
}
