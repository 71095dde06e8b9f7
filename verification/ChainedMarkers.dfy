/** Names that the tables do not keep.  A marker that carries a value to the next iteration, or collects it behind
    the loop, asks for instances by name; what a RepeatStart or a Delay of the same loop hands out has none.
    Functions of the loop's body ask by name for whatever is no parameter and no marker's output; what does not
    vary with the loop has no such names either. */
module ChainedMarkers {
  import opened Network
  import opened Unroll
  import opened Wrappers
  import opened Placement
  import opened LoopMeaning
  import opened WellFormedness
  import opened FreshNaming
  import opened LoopExamples

  /** A RepeatEnd of the loop hands out `y`, and reads `x`. */
  predicate EndsOver(net: Net, r: Repeat, y: string, x: string) {
    var m := Marker(net, r, "RepeatEnd", y);
    m.Some? && Input(m.value, 0) == x
  }

  /** `x` starts from what it was at the end of the loop. */
  predicate StartsFromItself(net: Net, r: Repeat, x: string) {
    var m := Marker(net, r, "RepeatStart", x);
    m.Some? && EndsOver(net, r, Input(m.value, 0), x)
  }

  /** `x` is updated with what a RepeatEnd of the loop hands out. */
  predicate UpdatedFromEnd(net: Net, r: Repeat, x: string) {
    var m := Marker(net, r, "RepeatStart", x);
    m.Some? && Marker(net, r, "RepeatEnd", Input(m.value, 1)).Some?
  }

  // ---- Names -----------------------------------------------------------------------------------

  /** Filling in place holders never appends. */
  lemma {:induction false} FilledNotExtended(s: string, pattern: string, text: string, more: string)
    requires |pattern| > 0 && text != "" && text[0] != pattern[0] && more != ""
    ensures ReplaceAll(s, pattern, text) != s + more
  {
    if |s| < |pattern| {
      assert |s + more| > |s|;
    } else if s[..|pattern|] == pattern {
      assert (s + more)[0] == s[..|pattern|][0];
      assert (text + ReplaceAll(s[|pattern|..], pattern, text))[0] == text[0];
    } else {
      FilledNotExtended(s[1..], pattern, text, more);
      assert (s + more)[1..] == s[1..] + more;
      assert ([s[0]] + ReplaceAll(s[1..], pattern, text))[1..] == ReplaceAll(s[1..], pattern, text);
    }
  }

  lemma WholeName(net: Net, x: string, j: int)
    requires |net.repeats| > 0 && Uncut(net.vars, net.repeats[0]) && DeclaredName(net, x) && 0 <= j < net.repeats[0].times
    ensures var r := net.repeats[0];
            && GenName(x, r.id, j) == FullName(x, r.id, j) && GenName(x, r.id, j) != x && GenName(x, r.id, j) != OldName(x, r.id, j)
  {
    var r := net.repeats[0];
    var v := Declaration(net, x);
    assert |FullName(v.name, r.id, j)| < MAX_NAME_LEN;
    var more := "_" + r.id + "_" + Decimal(j);
    assert FullName(x, r.id, j) == x + more;
    FilledNotExtended(x, "{" + r.id + "}", "_" + Decimal(j), more);
    hide ReplaceAll, Decimal;
  }

  lemma NamesTell(net: Net, x: string, i: int, y: string, j: int)
    requires |net.repeats| > 0 && Uncut(net.vars, net.repeats[0]) && DeclaredName(net, x) && DeclaredName(net, y)
    requires 0 <= i < net.repeats[0].times && 0 <= j < net.repeats[0].times
    requires GenName(x, net.repeats[0].id, i) == GenName(y, net.repeats[0].id, j)
    ensures x == y && i == j
  {
    hide GenName, OldName, Uncut, DeclaredName;
    WholeName(net, x, i);
    WholeName(net, y, j);
    FullNameTells(x, i, y, j, net.repeats[0].id);
  }

  /** The name of an instance of `x` is not that of a variable from outside the loop. */
  lemma InstanceNotOutside(net: Net, x: string, j: int, y: string)
    requires AllFramed(net) && DeclaredName(net, x) && DeclaredName(net, y) && 0 <= j < net.repeats[0].times
    requires !IsParam(net, x) && net.repeats[0].id in Ids(net, x) && net.repeats[0].id !in Ids(net, y)
    ensures GenName(x, net.repeats[0].id, j) != y
  {
    hide AllFramed, GenName, OldName, ExpandVariables;
    Basics(net);
    var r := net.repeats[0];
    var v := Declaration(net, x);
    var w := Declaration(net, y);
    IdsFound(net.vars, v);
    IdsFound(net.vars, w);
    Kind(net.vars, v);
    StepVars(net);
    if GenName(x, r.id, j) == y {
      NameTells(r, net.vars, v, j, w, j);
    }
  }

  // ---- What is carried -------------------------------------------------------------------------

  lemma StartedCarries(net: Net, x: string, j: int)
    requires AllFramed(net) && Uncut(net.vars, net.repeats[0]) && 0 <= j < net.repeats[0].times
    requires Marker(net, net.repeats[0], "RepeatStart", x).Some?
    ensures var r := net.repeats[0];
            GenName(x, r.id, j) == Inst(net, r, x, j) <==> r.times == 1 && StartsFromItself(net, r, x)
  {
    hide AllFramed, FindMarker, GenName, OldName, DeclaredName, IsParam, Uncut, Framed;
    Basics(net);
    var r := net.repeats[0];
    FramedTable(net, "RepeatStart", x);
    var m := Marker(net, r, "RepeatStart", x).value;
    assert m.inputs[0] in m.inputs && m.inputs[1] in m.inputs;
    IdsAre(net, x);
    if j > 0 {
      if GenName(x, r.id, j) == Inst(net, r, x, j) {
        NamesTell(net, x, j, m.inputs[1], j - 1);
      }
    } else if Marker(net, r, "RepeatEnd", m.inputs[0]).Some? {
      FramedTable(net, "RepeatEnd", m.inputs[0]);
      var e := Marker(net, r, "RepeatEnd", m.inputs[0]).value;
      assert e.inputs[0] in e.inputs;
      if GenName(x, r.id, j) == Inst(net, r, x, j) {
        NamesTell(net, x, j, e.inputs[0], r.times - 1);
      }
    } else {
      FitsOutside(net, m.inputs[0], Own(m), r.id);
      InstanceNotOutside(net, x, j, m.inputs[0]);
    }
  }

  lemma FitsOutside(net: Net, x: string, s: set<string>, id: string)
    requires Fits(net, x, s - {id})
    ensures id !in Ids(net, x)
  {
  }

  lemma DelayedNotCarried(net: Net, x: string, j: int)
    requires AllFramed(net) && Uncut(net.vars, net.repeats[0]) && 0 <= j < net.repeats[0].times
    requires Marker(net, net.repeats[0], "Delay", x).Some?
    ensures var r := net.repeats[0];
            Marker(net, r, "RepeatStart", x).None? && GenName(x, r.id, j) != Inst(net, r, x, j)
  {
    hide AllFramed, FindMarker, GenName, OldName, DeclaredName, IsParam, Uncut, Framed;
    Basics(net);
    var r := net.repeats[0];
    FramedTable(net, "Delay", x);
    var m := Marker(net, r, "Delay", x).value;
    assert m.inputs[0] in m.inputs && m.inputs[1] in m.inputs && x in m.outputs;
    MarkerIs(net, m, "RepeatStart", x);
    MarkerIs(net, m, "RepeatEnd", x);
    IdsAre(net, x);
    if j > 0 {
      if GenName(x, r.id, j) == Inst(net, r, x, j) {
        NamesTell(net, x, j, m.inputs[0], j - 1);
      }
    } else {
      FitsOutside(net, m.inputs[1], Own(m), r.id);
      InstanceNotOutside(net, x, j, m.inputs[1]);
    }
  }

  lemma OutsideNotCarried(net: Net, x: string, j: int)
    requires AllFramed(net) && Uncut(net.vars, net.repeats[0]) && DeclaredName(net, x) && 0 <= j < net.repeats[0].times
    requires !IsParam(net, x) && net.repeats[0].id !in Ids(net, x)
    ensures GenName(x, net.repeats[0].id, j) != Inst(net, net.repeats[0], x, j)
  {
    hide AllFramed, FindMarker, GenName, OldName, DeclaredName, IsParam, Uncut, Framed;
    Basics(net);
    var r := net.repeats[0];
    InstOutside(net, x, j, j);
    WholeName(net, x, j);
    if Marker(net, r, "RepeatEnd", x).Some? {
      FramedTable(net, "RepeatEnd", x);
      var m := Marker(net, r, "RepeatEnd", x).value;
      assert m.inputs[0] in m.inputs;
      if GenName(x, r.id, j) == Inst(net, r, x, j) {
        NamesTell(net, x, j, m.inputs[0], r.times - 1);
      }
    }
  }

  /** The name under which a marker asks for iteration `j` of what it carries or collects is the name of that
      instance if and only if `x` is no parameter, varies with the loop, and is handed out by no RepeatStart
      or Delay of the loop - but for a loop that runs once and starts `x` from `x` itself. */
  lemma CarriedExactly(net: Net, x: string, j: int)
    requires AllFramed(net) && Uncut(net.vars, net.repeats[0]) && DeclaredName(net, x) && 0 <= j < net.repeats[0].times
    ensures var r := net.repeats[0];
            GenName(x, r.id, j) == Inst(net, r, x, j) <==>
              || (!IsParam(net, x) && r.id in Ids(net, x) && Kept(net, r, x))
              || (r.times == 1 && StartsFromItself(net, r, x))
  {
    hide AllFramed, FindMarker, GenName, OldName, DeclaredName, IsParam, Uncut, Framed, Ids, IdsOf, LoopsOf, Inst;
    Basics(net);
    var r := net.repeats[0];
    if Marker(net, r, "RepeatStart", x).Some? {
      StartedCarries(net, x, j);
    } else if Marker(net, r, "Delay", x).Some? {
      DelayedNotCarried(net, x, j);
    } else if IsParam(net, x) {
      WholeName(net, x, j);
      ParamInst(net, x, j);
    } else if r.id in Ids(net, x) {
      KeptDirect(net, x, Ids(net, x));
      InstDirect(net, x, j);
    } else {
      OutsideNotCarried(net, x, j);
    }
  }

  lemma ParamInst(net: Net, x: string, j: int)
    requires |net.repeats| > 0 && IsParam(net, x) && 0 <= j < net.repeats[0].times
    ensures var y := Inst(net, net.repeats[0], x, j); y == x || y == OldName(x, net.repeats[0].id, j)
  {
  }

  // ---- What the body reads ---------------------------------------------------------------------

  lemma InnerBodyInput(net: Net, x: string, i: int)
    requires AllFramed(net) && Uncut(net.vars, net.repeats[0]) && DeclaredName(net, x) && 0 <= i < net.repeats[0].times
    requires !IsParam(net, x) && net.repeats[0].id in Ids(net, x)
    ensures var r := net.repeats[0];
            BodyInput(net, r, x, i) == Inst(net, r, x, i) <==> !UpdatedFromEnd(net, r, x) || i == 0
  {
    hide AllFramed, FindMarker, GenName, OldName, DeclaredName, IsParam, Uncut, Framed, IdsOf, LoopsOf;
    Basics(net);
    var r := net.repeats[0];
    IdsAre(net, x);
    if Marker(net, r, "RepeatStart", x).Some? {
      FramedTable(net, "RepeatStart", x);
      var m := Marker(net, r, "RepeatStart", x).value;
      assert m.inputs[1] in m.inputs;
      if i > 0 && UpdatedFromEnd(net, r, x) {
        FramedTable(net, "RepeatEnd", m.inputs[1]);
        var e := Marker(net, r, "RepeatEnd", m.inputs[1]).value;
        assert e.inputs[0] in e.inputs;
        if BodyInput(net, r, x, i) == Inst(net, r, x, i) {
          NamesTell(net, m.inputs[1], i - 1, e.inputs[0], i - 1);
        }
      }
    } else if Marker(net, r, "RepeatEnd", x).Some? {
      FramedTable(net, "RepeatEnd", x);
      ClosesOutside(net, Marker(net, r, "RepeatEnd", x).value, r.id);
    }
  }

  lemma OuterBodyInput(net: Net, x: string, i: int)
    requires AllFramed(net) && Uncut(net.vars, net.repeats[0]) && DeclaredName(net, x) && 0 <= i < net.repeats[0].times
    requires !IsParam(net, x) && net.repeats[0].id !in Ids(net, x)
    ensures var r := net.repeats[0];
            BodyInput(net, r, x, i) == Inst(net, r, x, i) <==> Marker(net, r, "RepeatEnd", x).Some? && i == r.times - 1
  {
    hide AllFramed, FindMarker, GenName, OldName, DeclaredName, IsParam, Uncut, Framed, IdsOf, LoopsOf;
    Basics(net);
    var r := net.repeats[0];
    IdsAre(net, x);
    InstOutside(net, x, i, i);
    WholeName(net, x, i);
    if Marker(net, r, "RepeatEnd", x).Some? {
      FramedTable(net, "RepeatEnd", x);
      var m := Marker(net, r, "RepeatEnd", x).value;
      assert m.inputs[0] in m.inputs;
      if BodyInput(net, r, x, i) == Inst(net, r, x, i) {
        NamesTell(net, m.inputs[0], i, m.inputs[0], r.times - 1);
      }
    }
  }

  /** What the body's functions read is the instance of the iteration if and only if it is a parameter, or
      varies with the loop and is not a RepeatStart updated from behind the loop's own RepeatEnd, or is what a
      RepeatEnd hands out and the iteration is the last.  No other variable from outside is found. */
  lemma BodyExactly(net: Net, x: string, i: int)
    requires AllFramed(net) && Uncut(net.vars, net.repeats[0]) && DeclaredName(net, x) && 0 <= i < net.repeats[0].times
    ensures var r := net.repeats[0];
            BodyInput(net, r, x, i) == Inst(net, r, x, i) <==>
              || IsParam(net, x)
              || (if r.id in Ids(net, x) then !UpdatedFromEnd(net, r, x) || i == 0
                  else Marker(net, r, "RepeatEnd", x).Some? && i == r.times - 1)
  {
    if IsParam(net, x) {
      assert BodyInput(net, net.repeats[0], x, i) == Inst(net, net.repeats[0], x, i);
    } else if net.repeats[0].id in Ids(net, x) {
      InnerBodyInput(net, x, i);
    } else {
      OuterBodyInput(net, x, i);
    }
    hide *;
  }

  // ---- What has a writer -----------------------------------------------------------------------

  ghost predicate Written(net: Net, y: string) { exists f :: f in net.funcs && y in f.outputs }

  /** What an expanded function writes. */
  lemma FramedOutput(net: Net, f: Function, f': Function, y: string) returns (o: string, p: int)
    requires AllFramed(net) && f in net.funcs && f' in ExpandFunction(net, net.repeats[0], f) && y in f'.outputs
    ensures var r := net.repeats[0];
            && o in f.outputs && !Removed(r, f) && 0 <= p < r.times
            && y == if r.id in Own(f) then GenName(o, r.id, p) else o
  {
    hide AllFramed, ExpandFunction, GenName, BodyInputs, OutsideInputs;
    Basics(net);
    FramedShape(net, f);
    var r := net.repeats[0];
    var i := ReplacementIn(net, r, f, f');
    var k :| 0 <= k < |f'.outputs| && f'.outputs[k] == y;
    if IsMarkerOf(f, r.id) && f.kind == "RecurrentInput" {
      o, p := f.outputs[0], k;
    } else {
      o, p := f.outputs[k], i;
    }
    if IsMarkerOf(f, r.id) {
      MarkerFramed(net, f);
    }
  }

  lemma MarkerFramed(net: Net, f: Function)
    requires AllFramed(net) && f in net.funcs && IsMarkerOf(f, net.repeats[0].id)
    ensures Framed(net, f) && WellShaped(f) && FramedMarker(net, f, net.repeats[0].id)
  {
    hide FramedMarker, ExpandVariables, ExpandFunctions;
    LoopsShrink(net);
    assert Framed(net, f);
  }

  /** What a kept function of the loop writes is written in every iteration. */
  lemma WritesInstance(net: Net, f: Function, x: string, j: int)
    requires AllFramed(net) && f in net.funcs && x in f.outputs && !Removed(net.repeats[0], f) && net.repeats[0].id in Own(f)
    requires 0 <= j < net.repeats[0].times
    ensures net.repeats[0].times >= 1 && Written(ExpandStep(net), GenName(x, net.repeats[0].id, j))
  {
    hide AllFramed, GenName, BodyInputs, OutsideInputs, ExpandFunctions, ExpandVariables;
    Basics(net);
    FramedShape(net, f);
    var r := net.repeats[0];
    var k :| 0 <= k < |f.outputs| && f.outputs[k] == x;
    if IsMarkerOf(f, r.id) {
      MarkerFramed(net, f);
    }
    var all := ExpandFunction(net, r, f);
    var f' := if f.kind == "RecurrentInput" && f.recurrentParam == r.id then all[0] else all[j];
    assert f' in all && GenName(x, r.id, j) in f'.outputs by {
      if f.kind == "RecurrentInput" && f.recurrentParam == r.id {
        assert f'.outputs[j] == GenName(x, r.id, j);
      } else {
        assert f'.outputs[k] == GenName(x, r.id, j);
      }
    }
    ExpandedFrom(net, r, net.funcs);
    StepVars(net);
  }

  /** After expansion, an instance of a variable of the loop has a writer if and only if some function that
      is not a removed marker writes the variable. */
  lemma WrittenExactly(net: Net, x: string, j: int)
    requires AllFramed(net) && DeclaredName(net, x) && 0 <= j < net.repeats[0].times
    requires !IsParam(net, x) && net.repeats[0].id in Ids(net, x)
    ensures net.repeats[0].times >= 1
    ensures Written(ExpandStep(net), GenName(x, net.repeats[0].id, j)) <==>
              exists f :: f in net.funcs && x in f.outputs && !Removed(net.repeats[0], f)
  {
    hide AllFramed, GenName, ExpandFunction, ExpandFunctions, ExpandVariables, IsParam, DeclaredName;
    Basics(net);
    StepVars(net);
    var r, y := net.repeats[0], GenName(x, net.repeats[0].id, j);
    if f :| f in net.funcs && x in f.outputs && !Removed(r, f) {
      FramedShape(net, f);
      WritesInstance(net, f, x, j);
    }
    if Written(ExpandStep(net), y) {
      var f' :| f' in ExpandStep(net).funcs && y in f'.outputs;
      ExpandedFrom(net, r, net.funcs);
      var f :| f in net.funcs && f' in ExpandFunction(net, r, f);
      var o, p := FramedOutput(net, f, f', y);
      FramedShape(net, f);
      if r.id in Own(f) {
        SameInstance(net, x, j, o, p);
      } else {
        InstanceNotOutside(net, x, j, o);
      }
    }
  }

  lemma SameInstance(net: Net, x: string, i: int, y: string, j: int)
    requires AllFramed(net) && DeclaredName(net, x) && DeclaredName(net, y) && !IsParam(net, x) && !IsParam(net, y)
    requires net.repeats[0].id in Ids(net, x) && net.repeats[0].id in Ids(net, y)
    requires 0 <= i < net.repeats[0].times && 0 <= j < net.repeats[0].times
    requires GenName(x, net.repeats[0].id, i) == GenName(y, net.repeats[0].id, j)
    ensures x == y
  {
    hide AllFramed, GenName, OldName, ExpandVariables;
    Basics(net);
    var v := Declaration(net, x);
    var w := Declaration(net, y);
    IdsFound(net.vars, v);
    IdsFound(net.vars, w);
    Kind(net.vars, v);
    Kind(net.vars, w);
    StepVars(net);
    NameTells(net.repeats[0], net.vars, v, i, w, j);
  }

  /** Of a variable of the loop that is written at all, the instances are written if and only if no RepeatStart
      or Delay of the loop hands it out. */
  lemma KeptExactly(net: Net, x: string, j: int)
    requires AllFramed(net) && DeclaredName(net, x) && 0 <= j < net.repeats[0].times
    requires !IsParam(net, x) && net.repeats[0].id in Ids(net, x) && Written(net, x)
    ensures net.repeats[0].times >= 1
    ensures Written(ExpandStep(net), GenName(x, net.repeats[0].id, j)) <==> Kept(net, net.repeats[0], x)
  {
    hide AllFramed, GenName, FindMarker, ExpandStep, IsParam, DeclaredName, Framed;
    Basics(net);
    WrittenExactly(net, x, j);
    var r := net.repeats[0];
    var f :| f in net.funcs && x in f.outputs;
    FramedShape(net, f);
    MarkerIs(net, f, "RepeatStart", x);
    MarkerIs(net, f, "Delay", x);
    if Removed(r, f) && f.kind == "RepeatEnd" {
      MarkerFramed(net, f);
      ClosesOutside(net, f, r.id);
    }
    assert forall g :: g in net.funcs && x in g.outputs ==> g == f;
  }
}
