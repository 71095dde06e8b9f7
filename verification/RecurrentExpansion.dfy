/** What the recurrent delay test's network is expanded to, name by name. */
module RecurrentExpansion {
  import opened Network
  import opened Unroll
  import opened Wrappers
  import opened Placement
  import opened LoopMeaning
  import opened WellFormedness
  import opened FreshNaming
  import opened LoopExamples
  import opened RecurrentExample

  /** Instance `i` of a name of the test. */
  function Row(x: string, i: nat): string { x + "_RecurrentInput_" + Decimal(i) }

  lemma ShortName(x: string, i: nat)
    requires |x| <= 20 && i < 28
    ensures GenName(x, "RecurrentInput", i) == Row(x, i)
  {
    DecimalsGrow(i, 28);
    assert Decimal(28) == Decimal(2) + ["0123456789"[8]] && |Decimal(2)| == 1;
    assert "_" + "RecurrentInput" + "_" == "_RecurrentInput_";
    assert x + "_" + "RecurrentInput" + "_" + Decimal(i) == Row(x, i);
  }

  lemma OneRound()
    ensures EveryLoopRuns(RECURRENT) && ExpandAll(RECURRENT) == ExpandStep(RECURRENT)
    ensures RECURRENT.repeats == [ROWS] && ROWS.id == "RecurrentInput" && ROWS.times == 28 && Expandable(RECURRENT)
    ensures AllFramed(RECURRENT)
  {
    assert [ROWS][1..] == [];
    RecurrentWellFormed();
    hide WellFormed, Expandable;
    FirstExpandable(RECURRENT);
    Parts(RECURRENT);
    assert ExpandStep(RECURRENT).repeats == [];
  }

  lemma InExpansion(f: Function, f': Function)
    requires f in RECURRENT.funcs && f' in ExpandFunction(RECURRENT, ROWS, f)
    ensures EveryLoopRuns(RECURRENT) && f' in ExpandAll(RECURRENT).funcs
  {
    hide ExpandFunction, RECURRENT, Expandable, AllFramed;
    OneRound();
    ExpandedFrom(RECURRENT, ROWS, RECURRENT.funcs);
    StepVars(RECURRENT);
  }

  /** The tables know the Delay, and nothing else of what the body reads. */
  lemma DelayTable()
    ensures Marker(RECURRENT, ROWS, "Delay", "Delay") == Some(DELAY)
    ensures Marker(RECURRENT, ROWS, "RepeatStart", "Delay").None? && Marker(RECURRENT, ROWS, "RepeatEnd", "Delay").None?
  {
    Ten(DELAY);
    assert DELAY.outputs == ["Delay"] && IsMarkerOf(DELAY, "RecurrentInput") && DELAY.kind == "Delay";
    hide FindMarker, RECURRENT, Expandable, AllFramed, DELAY;
    OneRound();
    MarkerIs(RECURRENT, DELAY, "Delay", "Delay");
    MarkerIs(RECURRENT, DELAY, "RepeatStart", "Delay");
    MarkerIs(RECURRENT, DELAY, "RepeatEnd", "Delay");
  }

  lemma SplitTable()
    ensures Marker(RECURRENT, ROWS, "Delay", "RecurrentInput").None?
    ensures Marker(RECURRENT, ROWS, "RepeatStart", "RecurrentInput").None? && Marker(RECURRENT, ROWS, "RepeatEnd", "RecurrentInput").None?
  {
    Ten(SPLIT);
    assert SPLIT.outputs == ["RecurrentInput"] && SPLIT.kind == "RecurrentInput";
    hide FindMarker, RECURRENT, Expandable, AllFramed, SPLIT;
    OneRound();
    MarkerIs(RECURRENT, SPLIT, "Delay", "RecurrentInput");
    MarkerIs(RECURRENT, SPLIT, "RepeatStart", "RecurrentInput");
    MarkerIs(RECURRENT, SPLIT, "RepeatEnd", "RecurrentInput");
  }

  lemma ReadsInstance(net: Net, r: Repeat, x: string, i: int)
    requires 0 <= i < r.times && !IsParam(net, x)
    requires Marker(net, r, "RepeatStart", x).None? && Marker(net, r, "RepeatEnd", x).None? && Marker(net, r, "Delay", x).None?
    ensures BodyInput(net, r, x, i) == GenName(x, r.id, i)
  {
    hide GenName, OldName, IsParam, FindMarker;
  }

  lemma ReadsDelayed(net: Net, r: Repeat, x: string, m: Function, i: int)
    requires 0 <= i < r.times && !IsParam(net, x) && |m.inputs| == 2
    requires Marker(net, r, "RepeatStart", x).None? && Marker(net, r, "RepeatEnd", x).None? && Marker(net, r, "Delay", x) == Some(m)
    ensures BodyInput(net, r, x, i) == if i == 0 then m.inputs[1] else GenName(m.inputs[0], r.id, i - 1)
  {
    hide GenName, OldName, IsParam, FindMarker;
  }

  lemma NoParam(net: Net, x: string, s: set<string>)
    requires Declares(net, x, s)
    ensures !IsParam(net, x)
  {
  }

  lemma NoParams()
    ensures !IsParam(RECURRENT, "RecurrentInput") && !IsParam(RECURRENT, "Delay")
  {
    hide *;
    InnerDeclared();
    NoParam(RECURRENT, "RecurrentInput", {"RecurrentInput"});
    NoParam(RECURRENT, "Delay", {"RecurrentInput"});
  }

  lemma SliceRead(i: nat)
    requires i < 28
    ensures ROWS.times == 28 && BodyInput(RECURRENT, ROWS, "RecurrentInput", i) == Row("RecurrentInput", i)
  {
    assert ROWS.id == "RecurrentInput" && ROWS.times == 28;
    hide *;
    NoParams();
    SplitTable();
    ReadsInstance(RECURRENT, ROWS, "RecurrentInput", i);
    ShortName("RecurrentInput", i);
  }

  lemma DelayRead(i: nat)
    requires i < 28
    ensures ROWS.times == 28 && BodyInput(RECURRENT, ROWS, "Delay", i) == if i == 0 then "Delay_Initial" else Row("Tanh", i - 1)
  {
    assert ROWS.id == "RecurrentInput" && ROWS.times == 28 && DELAY.inputs == ["Tanh", "Delay_Initial"];
    hide *;
    NoParams();
    DelayTable();
    ReadsDelayed(RECURRENT, ROWS, "Delay", DELAY, i);
    if i > 0 {
      ShortName("Tanh", i - 1);
    }
  }

  lemma SplitExpanded() returns (f': Function)
    ensures EveryLoopRuns(RECURRENT) && f' in ExpandAll(RECURRENT).funcs
    ensures f'.kind == "Split" && f'.splitAxis == 2 && f'.inputs == ["Input"] && f'.repeatIds == []
    ensures |f'.outputs| == 28 && forall i :: 0 <= i < 28 ==> f'.outputs[i] == Row("RecurrentInput", i)
  {
    Ten(SPLIT);
    f' := ExpandFunction(RECURRENT, ROWS, SPLIT)[0];
    InExpansion(SPLIT, f');
    assert SPLIT.repeatIds == ["RecurrentInput"] && SPLIT.repeatIds[1..] == [];
    forall i | 0 <= i < 28 ensures f'.outputs[i] == Row("RecurrentInput", i) {
      ShortName("RecurrentInput", i);
    }
    hide RECURRENT, ExpandAll;
  }

  lemma StackExpanded() returns (f': Function)
    ensures EveryLoopRuns(RECURRENT) && f' in ExpandAll(RECURRENT).funcs
    ensures f'.kind == "Stack" && f'.stackAxis == 2 && f'.outputs == ["RecurrentOutput"] && f'.repeatIds == []
    ensures |f'.inputs| == 28 && forall i :: 0 <= i < 28 ==> f'.inputs[i] == Row("Tanh", i)
  {
    Ten(STACK);
    f' := ExpandFunction(RECURRENT, ROWS, STACK)[0];
    InExpansion(STACK, f');
    forall i | 0 <= i < 28 ensures f'.inputs[i] == Row("Tanh", i) {
      ShortName("Tanh", i);
    }
    hide RECURRENT, ExpandAll;
  }

  lemma TwoInputs(net: Net, r: Repeat, f: Function, i: int)
    requires 0 <= i < r.times && !IsMarkerOf(f, r.id) && r.id in f.repeatIds && |f.inputs| == 2 && |f.outputs| == 1
    ensures var f' := BodyFunction(net, r, f, i);
            && f' in ExpandFunction(net, r, f) && f'.kind == f.kind && f'.name == GenName(f.name, r.id, i)
            && f'.inputs == [BodyInput(net, r, f.inputs[0], i), BodyInput(net, r, f.inputs[1], i)]
            && f'.outputs == [GenName(f.outputs[0], r.id, i)] && f'.repeatIds == DeleteId(f.repeatIds, r.id)
  {
    hide BodyInput, GenName, DeleteId;
    assert ExpandFunction(net, r, f)[i] == BodyFunction(net, r, f, i);
  }

  lemma ConcatenateExpanded(i: nat) returns (f': Function)
    requires i < 28
    ensures EveryLoopRuns(RECURRENT) && f' in ExpandAll(RECURRENT).funcs
    ensures f'.kind == "Concatenate" && f'.name == Row("Concatenate", i) && f'.outputs == [Row("Concatenate", i)] && f'.repeatIds == []
    ensures f'.inputs == [Row("RecurrentInput", i), if i == 0 then "Delay_Initial" else Row("Tanh", i - 1)]
  {
    Ten(CONCATENATE);
    assert CONCATENATE.repeatIds == ["RecurrentInput"] && CONCATENATE.repeatIds[1..] == [] && CONCATENATE.kind == "Concatenate";
    assert CONCATENATE.inputs == ["RecurrentInput", "Delay"] && CONCATENATE.outputs == ["Concatenate"] && CONCATENATE.name == "Concatenate";
    assert ROWS.id == "RecurrentInput" && ROWS.times == 28 && DeleteId(CONCATENATE.repeatIds, ROWS.id) == [];
    assert !IsMarkerOf(CONCATENATE, ROWS.id);
    hide *;
    f' := BodyFunction(RECURRENT, ROWS, CONCATENATE, i);
    TwoInputs(RECURRENT, ROWS, CONCATENATE, i);
    InExpansion(CONCATENATE, f');
    ShortName("Concatenate", i);
    SliceRead(i);
    DelayRead(i);
  }

  /** The expanded test: the input is split along axis 2 into the rows, the output stacked from the rows along
      axis 2, and every row's layer reads its slice and what the row before handed on, the first one the
      initial value. */
  lemma RecurrentExpanded()
    ensures EveryLoopRuns(RECURRENT)
    ensures exists f' :: f' in ExpandAll(RECURRENT).funcs && f'.kind == "Split" && f'.splitAxis == 2 && f'.inputs == ["Input"]
              && |f'.outputs| == 28 && forall i :: 0 <= i < 28 ==> f'.outputs[i] == Row("RecurrentInput", i)
    ensures exists f' :: f' in ExpandAll(RECURRENT).funcs && f'.kind == "Stack" && f'.stackAxis == 2 && f'.outputs == ["RecurrentOutput"]
              && |f'.inputs| == 28 && forall i :: 0 <= i < 28 ==> f'.inputs[i] == Row("Tanh", i)
    ensures forall i :: 0 <= i < 28 ==> Concatenates(RECURRENT, i)
  {
    hide *;
    var split := SplitExpanded();
    var stack := StackExpanded();
    forall i | 0 <= i < 28 ensures Concatenates(RECURRENT, i) {
      var f' := ConcatenateExpanded(i);
      IsConcatenated(RECURRENT, i, f');
    }
  }

  /** Row `i`'s Concatenate joins its slice with what row `i - 1` handed on. */
  ghost predicate Concatenates(net: Net, i: int) {
    EveryLoopRuns(net) && i >= 0 && exists f' :: f' in ExpandAll(net).funcs && Joins(f', i)
  }

  predicate Joins(f': Function, i: nat) {
    && f'.kind == "Concatenate" && f'.outputs == [Row("Concatenate", i)]
    && f'.inputs == [Row("RecurrentInput", i), if i == 0 then "Delay_Initial" else Row("Tanh", i - 1)]
  }

  lemma IsConcatenated(net: Net, i: nat, f': Function)
    requires EveryLoopRuns(net) && f' in ExpandAll(net).funcs
    requires f'.kind == "Concatenate" && f'.outputs == [Row("Concatenate", i)]
    requires f'.inputs == [Row("RecurrentInput", i), if i == 0 then "Delay_Initial" else Row("Tanh", i - 1)]
    ensures Concatenates(net, i)
  {
    hide ExpandAll, Row;
  }
}
