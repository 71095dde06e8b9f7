/** Ways to see that expansion gives no name twice. */
module FreshNaming {
  import opened Network
  import opened Unroll
  import opened Placement
  import opened WellFormedness
  import opened ExpansionNames
  import opened Wrappers

  /** Every name starts with one of these letters. */
  ghost predicate Lettered(vars: seq<Variable>, letters: set<char>) {
    forall v :: v in vars ==> v.name != "" && v.name[0] in letters
  }

  lemma Appended(r: Repeat, vars: seq<Variable>, v: Variable)
    requires r.times >= 1
    ensures ExpandVariables(r, vars + [v]) == ExpandVariables(r, vars) + ExpandVariable(r, v)
  {
    hide ExpandVariable;
    assert (vars + [v])[..|vars|] == vars;
  }

  lemma Associative(a: seq<Variable>, b: seq<Variable>, c: seq<Variable>)
    ensures (a + b) + c == a + (b + c)
  {
  }

  lemma {:induction false} ExpandedTogether(r: Repeat, xs: seq<Variable>, ys: seq<Variable>)
    requires r.times >= 1
    ensures ExpandVariables(r, xs + ys) == ExpandVariables(r, xs) + ExpandVariables(r, ys)
  {
    if ys == [] {
      assert xs + ys == xs;
    } else {
      hide *;
      var rest, v := ys[..|ys| - 1], ys[|ys| - 1];
      assert ys == rest + [v];
      ExpandedTogether(r, xs, rest);
      Appended(r, xs + rest, v);
      Appended(r, rest, v);
      Associative(xs, rest, [v]);
      Associative(ExpandVariables(r, xs), ExpandVariables(r, rest), ExpandVariable(r, v));
    }
  }

  /** An instance's name starts like its original's. */
  lemma InstanceLetter(r: Repeat, v: Variable, i: nat)
    requires v.name != "" && v.name[0] != '{'
    ensures var w := InstanceOf(r, v, i); w.kind == v.kind && w.name != "" && w.name[0] == v.name[0]
  {
    var s := v.name + "_" + r.id + "_" + Decimal(i);
    assert s[0] == v.name[0];
    var pattern := "{" + r.id + "}";
    assert |v.name| >= |pattern| ==> v.name[..|pattern|][0] != pattern[0];
  }

  lemma LettersStay(r: Repeat, vars: seq<Variable>, letters: set<char>)
    requires r.times >= 1 && Lettered(vars, letters) && '{' !in letters
    ensures Lettered(ExpandVariables(r, vars), letters)
  {
    forall w | w in ExpandVariables(r, vars) ensures w.name != "" && w.name[0] in letters {
      var v, i := InstanceSource(r, vars, w);
      InstanceLetter(r, v, i);
    }
  }

  lemma NoTwiceApart(xs: seq<Variable>, ys: seq<Variable>)
    requires NoTwice(xs) && NoTwice(ys) && forall v, w :: v in xs && w in ys ==> v.name != w.name
    ensures NoTwice(xs + ys)
  {
    var both := xs + ys;
    forall i, j | 0 <= i < j < |both| ensures both[i].name != both[j].name {
      if i < |xs| <= j {
        assert both[i] == xs[i] && both[i] in xs && both[j] == ys[j - |xs|] && both[j] in ys;
      } else if j < |xs| {
        assert both[i] == xs[i] && both[j] == xs[j];
      } else {
        assert both[i] == ys[i - |xs|] && both[j] == ys[j - |xs|];
      }
    }
  }

  /** Names that start with different letters stay apart. */
  lemma {:induction false} FreshTogether(xs: seq<Variable>, ys: seq<Variable>, repeats: seq<Repeat>, lx: set<char>, ly: set<char>)
    requires FreshNames(xs, repeats) && FreshNames(ys, repeats)
    requires Lettered(xs, lx) && Lettered(ys, ly) && lx !! ly && '{' !in lx + ly
    ensures FreshNames(xs + ys, repeats) && Lettered(xs + ys, lx + ly)
    decreases |repeats|
  {
    hide ExpandVariables, NoTwice;
    NoTwiceApart(xs, ys);
    if repeats != [] {
      var r := repeats[0];
      LettersStay(r, xs, lx);
      LettersStay(r, ys, ly);
      FreshTogether(ExpandVariables(r, xs), ExpandVariables(r, ys), repeats[1..], lx, ly);
      ExpandedTogether(r, xs, ys);
    }
  }

  // ---- Generated names -------------------------------------------------------------------------

  lemma {:induction false} DigitsOnly(i: nat)
    ensures |Decimal(i)| >= 1 && '_' !in Decimal(i)
  {
    assert forall k :: 0 <= k < 10 ==> "0123456789"[k] != '_';
    if i >= 10 {
      DigitsOnly(i / 10);
    }
  }

  lemma {:induction false} DecimalsGrow(i: nat, j: nat)
    requires i <= j
    ensures |Decimal(i)| <= |Decimal(j)|
  {
    if i >= 10 {
      DecimalsGrow(i / 10, j / 10);
    } else {
      DigitsOnly(j);
    }
  }

  /** The whole name of instance `i`. */
  function FullName(x: string, id: string, i: nat): string { x + "_" + id + "_" + Decimal(i) }

  lemma DashInside(p: string, d: string, q: string, e: string)
    requires p + "_" + d == q + "_" + e && |d| > |e|
    ensures '_' in d
  {
    var s := p + "_" + d;
    assert s[|s| - |e| - 1] == '_' && s[|s| - |e| - 1] == d[|d| - |e| - 1];
  }

  /** A whole name tells what it was made from. */
  lemma FullNameTells(x: string, i: nat, y: string, j: nat, id: string)
    requires FullName(x, id, i) == FullName(y, id, j)
    ensures x == y && i == j
  {
    var s, d, e := FullName(x, id, i), Decimal(i), Decimal(j);
    DigitsOnly(i);
    DigitsOnly(j);
    if |d| > |e| {
      DashInside(x + "_" + id, d, y + "_" + id, e);
    } else if |e| > |d| {
      DashInside(y + "_" + id, e, x + "_" + id, d);
    } else {
      assert d == s[|s| - |d|..] && e == s[|s| - |e|..];
      assert x == s[..|x|] && y == s[..|y|];
      if i != j {
        DecimalsDiffer(i, j);
      }
    }
  }

  /** The names of all variables are short enough for an iteration of `r` to be added whole. */
  ghost predicate Uncut(vars: seq<Variable>, r: Repeat) {
    forall v, i :: v in vars && 0 <= i < r.times ==> |FullName(v.name, r.id, i)| < MAX_NAME_LEN
  }

  /** The names' length once every loop has added to it. */
  function LongestName(length: nat, repeats: seq<Repeat>): (n: nat)
    requires forall i :: 0 <= i < |repeats| ==> repeats[i].times >= 1
    ensures n >= length
    decreases |repeats|
  {
    if repeats == [] then length
    else LongestName(length + |repeats[0].id| + 2 + |Decimal(repeats[0].times)|, repeats[1..])
  }

  // ---- Names that cannot meet ------------------------------------------------------------------

  /** The first of the loops that `v` varies with. */
  function FirstLoop(v: Variable, repeats: seq<Repeat>): Option<string>
    decreases |repeats|
  {
    if repeats == [] then None
    else if repeats[0].id in v.repeatIds then Some(repeats[0].id) else FirstLoop(v, repeats[1..])
  }

  /** What the names of all instances of `v` start with. */
  function Stem(v: Variable, repeats: seq<Repeat>): string {
    var id := FirstLoop(v, repeats);
    if id.Some? then v.name + "_" + id.value + "_" else v.name
  }

  /** Whatever starts with the stem of one does not start with that of the other. */
  ghost predicate StemsApart(v: Variable, w: Variable, repeats: seq<Repeat>) {
    && (FirstLoop(v, repeats).Some? ==> !(Stem(v, repeats) <= Stem(w, repeats)))
    && (FirstLoop(w, repeats).Some? ==> !(Stem(w, repeats) <= Stem(v, repeats)))
  }

  /** Variables have names of their own, and those of different loops have stems apart. */
  ghost predicate Apart(vars: seq<Variable>, repeats: seq<Repeat>) {
    && NoTwice(vars)
    && (forall v :: v in vars && v.kind == "Parameter" ==> v.repeatIds == [])
    && (forall v, w :: v in vars && w in vars && v.repeatIds != w.repeatIds ==> StemsApart(v, w, repeats))
  }

  ghost predicate InstancesApart(r: Repeat, v: Variable, w: Variable) {
    forall i, j :: 0 <= i < r.times && 0 <= j < r.times ==> InstanceOf(r, v, i).name != InstanceOf(r, w, j).name
  }

  ghost predicate OwnInstancesApart(r: Repeat, v: Variable) {
    r.id in v.repeatIds ==> forall i, j :: 0 <= i < j < r.times ==> InstanceOf(r, v, i).name != InstanceOf(r, v, j).name
  }

  lemma {:induction false} ExpandedApart(r: Repeat, vars: seq<Variable>)
    requires r.times >= 1 && NoTwice(vars) && forall v :: v in vars ==> OwnInstancesApart(r, v)
    requires forall v, w :: v in vars && w in vars && v.name != w.name ==> InstancesApart(r, v, w)
    ensures NoTwice(ExpandVariables(r, vars))
  {
    if vars != [] {
      hide ExpandVariables, ExpandVariable, InstanceOf, NoTwice, OwnInstancesApart, InstancesApart;
      var rest, v := vars[..|vars| - 1], vars[|vars| - 1];
      assert vars == rest + [v];
      NoTwiceParts(rest, [v]);
      ExpandedApart(r, rest);
      Appended(r, rest, v);
      OneExpanded(r, v);
      forall w, w' | w in ExpandVariables(r, rest) && w' in ExpandVariable(r, v) ensures w.name != w'.name {
        var u, i := InstanceSource(r, rest, w);
        var j :| 0 <= j < r.times && w' == InstanceOf(r, v, j);
        NamesDiffer(r, u, i, v, j);
      }
      NoTwiceApart(ExpandVariables(r, rest), ExpandVariable(r, v));
    }
  }

  lemma NamesDiffer(r: Repeat, v: Variable, i: nat, w: Variable, j: nat)
    requires InstancesApart(r, v, w) && i < r.times && j < r.times
    ensures InstanceOf(r, v, i).name != InstanceOf(r, w, j).name
  {
  }

  lemma OneExpanded(r: Repeat, v: Variable)
    requires r.times >= 1 && OwnInstancesApart(r, v)
    ensures NoTwice(ExpandVariable(r, v))
    ensures forall w :: w in ExpandVariable(r, v) ==> exists j :: 0 <= j < r.times && w == InstanceOf(r, v, j)
  {
    var all := ExpandVariable(r, v);
    forall k | 0 <= k < |all| ensures 0 <= k < r.times && all[k] == InstanceOf(r, v, k) {
    }
    hide VariableInstance;
  }

  lemma FullInstance(r: Repeat, vars: seq<Variable>, v: Variable, i: nat)
    requires v in vars && Uncut(vars, r) && i < r.times && (v.kind == "Parameter" ==> v.repeatIds == [])
    ensures InstanceOf(r, v, i).name == if r.id in v.repeatIds then FullName(v.name, r.id, i) else v.name
  {
    assert |FullName(v.name, r.id, i)| < MAX_NAME_LEN;
  }

  /** An instance's name starts with its original's stem, and so does its stem. */
  lemma StemStays(repeats: seq<Repeat>, vars: seq<Variable>, v: Variable, i: nat)
    requires |repeats| > 0 && v in vars && Uncut(vars, repeats[0]) && i < repeats[0].times
    requires v.kind == "Parameter" ==> v.repeatIds == []
    ensures var r, w := repeats[0], InstanceOf(repeats[0], v, i);
            if r.id in v.repeatIds then
              FirstLoop(v, repeats).Some? && Stem(v, repeats) <= w.name <= Stem(w, repeats[1..])
            else w == v && FirstLoop(w, repeats[1..]) == FirstLoop(v, repeats) && Stem(w, repeats[1..]) == Stem(v, repeats)
  {
    FullInstance(repeats[0], vars, v, i);
    hide GenName, OldName, Decimal;
  }

  lemma PrefixThrough(p: string, q: string, t: string)
    requires p <= q && q <= t
    ensures p <= t
  {
    assert p == q[..|p|] == t[..|q|][..|p|];
  }

  lemma PrefixesCompare(p: string, q: string, t: string)
    requires p <= t && q <= t
    ensures p <= q || q <= p
  {
    assert p == t[..|p|] && q == t[..|q|];
  }

  /** What starts with one of two stems apart starts with no text that goes on from the other. */
  lemma StemsStayApart(p: string, q: string, p': string, q': string, varies: bool)
    requires p <= p' && q <= q' && !(p <= q) && if varies then !(q <= p) else q' == q
    ensures !(p' <= q')
  {
    if p' <= q' {
      PrefixThrough(p, p', q');
      PrefixesCompare(p, q, q');
    }
  }

  /** Names that start with stems apart differ, and their stems are apart. */
  lemma InstancesStayApart(repeats: seq<Repeat>, vars: seq<Variable>, v: Variable, i: nat, w: Variable, j: nat)
    requires |repeats| > 0 && Apart(vars, repeats) && Uncut(vars, repeats[0]) && v in vars && w in vars
    requires i < repeats[0].times && j < repeats[0].times
    ensures var v', w' := InstanceOf(repeats[0], v, i), InstanceOf(repeats[0], w, j);
            && (v.name != w.name ==> v'.name != w'.name)
            && (v'.repeatIds != w'.repeatIds ==> StemsApart(v', w', repeats[1..]))
  {
    hide FirstLoop, Stem, NoTwice, InstanceOf, FullName, Uncut;
    var r := repeats[0];
    var v', w' := InstanceOf(r, v, i), InstanceOf(r, w, j);
    StemStays(repeats, vars, v, i);
    StemStays(repeats, vars, w, j);
    FullInstance(r, vars, v, i);
    FullInstance(r, vars, w, j);
    SameIds(r, v, i, w, j);
    StemIs(v, repeats);
    StemIs(w, repeats);
    if v'.name == w'.name {
      if r.id in v.repeatIds && r.id in w.repeatIds {
        FullNameTells(v.name, i, w.name, j, r.id);
      } else if r.id in v.repeatIds {
        PrefixThrough(Stem(v, repeats), w.name, Stem(w, repeats));
      } else if r.id in w.repeatIds {
        PrefixThrough(Stem(w, repeats), v.name, Stem(v, repeats));
      }
    }
    if v'.repeatIds != w'.repeatIds {
      StemGoesOn(repeats, v, v');
      StemGoesOn(repeats, w, w');
      if FirstLoop(v', repeats[1..]).Some? {
        StemsStayApart(Stem(v, repeats), Stem(w, repeats), Stem(v', repeats[1..]), Stem(w', repeats[1..]), FirstLoop(w, repeats).Some?);
      }
      if FirstLoop(w', repeats[1..]).Some? {
        StemsStayApart(Stem(w, repeats), Stem(v, repeats), Stem(w', repeats[1..]), Stem(v', repeats[1..]), FirstLoop(v, repeats).Some?);
      }
    }
  }

  lemma StemGoesOn(repeats: seq<Repeat>, v: Variable, w: Variable)
    requires |repeats| > 0
    requires if repeats[0].id in v.repeatIds then
               FirstLoop(v, repeats).Some? && Stem(v, repeats) <= w.name <= Stem(w, repeats[1..])
             else w == v && FirstLoop(w, repeats[1..]) == FirstLoop(v, repeats) && Stem(w, repeats[1..]) == Stem(v, repeats)
    ensures Stem(v, repeats) <= Stem(w, repeats[1..])
    ensures FirstLoop(v, repeats).None? ==> FirstLoop(w, repeats[1..]).None? && Stem(w, repeats[1..]) == Stem(v, repeats)
  {
    hide Stem, FirstLoop;
    if repeats[0].id in v.repeatIds {
      PrefixThrough(Stem(v, repeats), w.name, Stem(w, repeats[1..]));
    }
  }

  lemma StemIs(v: Variable, repeats: seq<Repeat>)
    ensures FirstLoop(v, repeats).None? ==> Stem(v, repeats) == v.name
    ensures v.name <= Stem(v, repeats)
  {
  }

  lemma SameIds(r: Repeat, v: Variable, i: nat, w: Variable, j: nat)
    ensures v.repeatIds == w.repeatIds ==> InstanceOf(r, v, i).repeatIds == InstanceOf(r, w, j).repeatIds
    ensures InstanceOf(r, v, i).kind == v.kind
  {
  }

  lemma ApartStays(vars: seq<Variable>, repeats: seq<Repeat>)
    requires |repeats| > 0 && repeats[0].times >= 1 && Apart(vars, repeats) && Uncut(vars, repeats[0])
    ensures Apart(ExpandVariables(repeats[0], vars), repeats[1..])
  {
    hide StemsApart, NoTwice, InstanceOf, ExpandVariables, Uncut;
    var r := repeats[0];
    forall v | v in vars ensures OwnInstancesApart(r, v) {
      forall i, j | r.id in v.repeatIds && 0 <= i < j < r.times ensures InstanceOf(r, v, i).name != InstanceOf(r, v, j).name {
        FullInstance(r, vars, v, i);
        FullInstance(r, vars, v, j);
        if InstanceOf(r, v, i).name == InstanceOf(r, v, j).name {
          FullNameTells(v.name, i, v.name, j, r.id);
        }
      }
    }
    forall v, w | v in vars && w in vars && v.name != w.name ensures InstancesApart(r, v, w) {
      forall i, j | 0 <= i < r.times && 0 <= j < r.times ensures InstanceOf(r, v, i).name != InstanceOf(r, w, j).name {
        InstancesStayApart(repeats, vars, v, i, w, j);
      }
    }
    ExpandedApart(r, vars);
    var all := ExpandVariables(r, vars);
    forall v' | v' in all && v'.kind == "Parameter" ensures v'.repeatIds == [] {
      var v, i := InstanceSource(r, vars, v');
      SameIds(r, v, i, v, i);
      PlainParameter(r, v, i);
    }
    forall v', w' | v' in all && w' in all && v'.repeatIds != w'.repeatIds ensures StemsApart(v', w', repeats[1..]) {
      var v, i := InstanceSource(r, vars, v');
      var w, j := InstanceSource(r, vars, w');
      InstancesStayApart(repeats, vars, v, i, w, j);
    }
  }

  lemma PlainParameter(r: Repeat, v: Variable, i: nat)
    requires v.repeatIds == []
    ensures InstanceOf(r, v, i) == v
  {
  }

  /** Names no longer than `length`. */
  ghost predicate Within(vars: seq<Variable>, length: nat) { forall v :: v in vars ==> |v.name| <= length }

  lemma WithinStays(vars: seq<Variable>, r: Repeat, length: nat)
    requires r.times >= 1 && Within(vars, length) && length + |r.id| + 2 + |Decimal(r.times)| < MAX_NAME_LEN
    requires forall v :: v in vars && v.kind == "Parameter" ==> v.repeatIds == []
    ensures Uncut(vars, r) && Within(ExpandVariables(r, vars), length + |r.id| + 2 + |Decimal(r.times)|)
  {
    hide Decimal, ExpandVariables, InstanceOf;
    forall v, i | v in vars && 0 <= i < r.times
      ensures |FullName(v.name, r.id, i)| <= length + |r.id| + 2 + |Decimal(r.times)|
    {
      DecimalsGrow(i, r.times);
    }
    forall w | w in ExpandVariables(r, vars) ensures |w.name| <= length + |r.id| + 2 + |Decimal(r.times)| {
      var v, i := InstanceSource(r, vars, w);
      FullInstance(r, vars, v, i);
    }
  }

  /** Names with stems apart never meet, however often the loops run. */
  lemma {:induction false} FreshApart(vars: seq<Variable>, repeats: seq<Repeat>, length: nat)
    requires forall i :: 0 <= i < |repeats| ==> repeats[i].times >= 1
    requires Apart(vars, repeats) && Within(vars, length) && LongestName(length, repeats) < MAX_NAME_LEN
    ensures FreshNames(vars, repeats)
    decreases |repeats|
  {
    hide ExpandVariables, StemsApart, NoTwice, Decimal;
    if repeats != [] {
      var r := repeats[0];
      WithinStays(vars, r, length);
      ApartStays(vars, repeats);
      FreshApart(ExpandVariables(r, vars), repeats[1..], length + |r.id| + 2 + |Decimal(r.times)|);
    }
  }

  /** The letters of one-letter names. */
  ghost predicate OneLetter(vars: seq<Variable>, letters: set<char>) {
    forall v :: v in vars ==> v.kind != "Parameter" && |v.name| == 1 && v.name[0] in letters
  }

  /** One-letter names never meet. */
  lemma FreshLetters(vars: seq<Variable>, repeats: seq<Repeat>, letters: set<char>)
    requires forall i :: 0 <= i < |repeats| ==> repeats[i].times >= 1
    requires NoTwice(vars) && OneLetter(vars, letters) && LongestName(1, repeats) < MAX_NAME_LEN
    ensures FreshNames(vars, repeats)
  {
    forall v, w | v in vars && w in vars && v.repeatIds != w.repeatIds ensures StemsApart(v, w, repeats) {
      OtherLetters(vars, v, w);
      StemIs(v, repeats);
      StemIs(w, repeats);
      hide Stem, FirstLoop;
    }
    hide FreshNames, StemsApart, NoTwice, LongestName;
    FreshApart(vars, repeats, 1);
  }

  lemma OtherLetters(vars: seq<Variable>, v: Variable, w: Variable)
    requires NoTwice(vars) && v in vars && w in vars && v != w && |v.name| == 1 && |w.name| == 1
    ensures v.name[0] != w.name[0]
  {
    assert v.name == [v.name[0]] && w.name == [w.name[0]];
  }

  // ---- Parameters ------------------------------------------------------------------------------

  lemma NoParams(r: Repeat, vars: seq<Variable>)
    requires r.times >= 1 && forall v :: v in vars ==> v.kind != "Parameter"
    ensures forall v :: v in ExpandVariables(r, vars) ==> v.kind != "Parameter"
  {
    hide ExpandVariables;
    forall w | w in ExpandVariables(r, vars) ensures w.kind != "Parameter" {
      var v, i := InstanceSource(r, vars, w);
    }
  }

  /** Variables that start with letters of their own take no name that a parameter has lost. */
  lemma {:induction false} NoNameReusedBy(xs: seq<Variable>, ys: seq<Variable>, repeats: seq<Repeat>, gone: set<string>, lx: set<char>, ly: set<char>)
    requires NoNameReused(xs, repeats, gone) && Lettered(xs, lx) && Lettered(ys, ly) && lx !! ly && '{' !in lx + ly
    requires (forall v :: v in ys ==> v.kind != "Parameter") && (forall x :: x in gone ==> x != "" && x[0] in lx)
    requires forall i :: 0 <= i < |repeats| ==> repeats[i].times >= 1
    ensures NoNameReused(xs + ys, repeats, gone)
    decreases |repeats|
  {
    hide ExpandVariables;
    if repeats != [] {
      var r := repeats[0];
      LettersStay(r, xs, lx);
      LettersStay(r, ys, ly);
      NoParams(r, ys);
      assert Renamed(xs + ys, r) == Renamed(xs, r);
      NoNameReusedBy(ExpandVariables(r, xs), ExpandVariables(r, ys), repeats[1..], gone + Renamed(xs, r), lx, ly);
      ExpandedTogether(r, xs, ys);
    }
  }

  /** The pattern occurs in the name. */
  predicate HasPlaceHolder(name: string, pattern: string)
    requires |pattern| > 0
  {
    |name| >= |pattern| && (name[..|pattern|] == pattern || HasPlaceHolder(name[1..], pattern))
  }

  lemma {:induction false} NothingReplaced(s: string, pattern: string, text: string)
    requires |pattern| > 0 && !HasPlaceHolder(s, pattern)
    ensures ReplaceAll(s, pattern, text) == s
  {
    if |s| >= |pattern| {
      NothingReplaced(s[1..], pattern, text);
    }
  }

  /** Longer texts in the same places make a longer name. */
  lemma {:induction false} ReplacedLength(s: string, pattern: string, t: string, t': string)
    requires |pattern| > 0 && |t| < |t'|
    ensures |ReplaceAll(s, pattern, t)| <= |ReplaceAll(s, pattern, t')|
    ensures HasPlaceHolder(s, pattern) ==> |ReplaceAll(s, pattern, t)| < |ReplaceAll(s, pattern, t')|
  {
    if |s| >= |pattern| {
      if s[..|pattern|] == pattern {
        ReplacedLength(s[|pattern|..], pattern, t, t');
      } else {
        ReplacedLength(s[1..], pattern, t, t');
      }
    }
  }

  /** Different texts of one length make different names. */
  lemma {:induction false} ReplacedDiffer(s: string, pattern: string, t: string, t': string)
    requires |pattern| > 0 && |t| == |t'| && t != t' && HasPlaceHolder(s, pattern)
    ensures ReplaceAll(s, pattern, t) != ReplaceAll(s, pattern, t')
  {
    if s[..|pattern|] == pattern {
      var u, u' := ReplaceAll(s[|pattern|..], pattern, t), ReplaceAll(s[|pattern|..], pattern, t');
      assert (t + u)[..|t|] == t && (t' + u')[..|t|] == t';
    } else {
      ReplacedDiffer(s[1..], pattern, t, t');
      var u, u' := ReplaceAll(s[1..], pattern, t), ReplaceAll(s[1..], pattern, t');
      assert ([s[0]] + u)[1..] == u && ([s[0]] + u')[1..] == u';
    }
  }

  lemma {:induction false} DecimalsDiffer(i: nat, j: nat)
    requires i != j
    ensures Decimal(i) != Decimal(j)
  {
    var d, e := Decimal(i), Decimal(j);
    assert forall a, b :: 0 <= a < b < 10 ==> "0123456789"[a] != "0123456789"[b];
    assert |d| > 0 && d[|d| - 1] == "0123456789"[i % 10] && |e| > 0 && e[|e| - 1] == "0123456789"[j % 10];
    if d == e {
      assert i % 10 == j % 10;
      LongerDecimal(i);
      LongerDecimal(j);
      if i >= 10 {
        DecimalsDiffer(i / 10, j / 10);
      }
    }
  }

  lemma LongerDecimal(i: nat)
    ensures i < 10 ==> |Decimal(i)| == 1
    ensures i >= 10 ==> |Decimal(i)| > 1 && Decimal(i)[..|Decimal(i)| - 1] == Decimal(i / 10)
  {
  }

  /** The instances of a parameter have names of their own if and only if there is one instance, or the name
      holds the loop's place holder. */
  lemma PlaceHolderExactly(r: Repeat, v: Variable)
    requires r.times >= 1 && v.kind == "Parameter" && r.id in v.repeatIds
    ensures NoTwice(ExpandVariable(r, v)) <==> r.times == 1 || HasPlaceHolder(v.name, "{" + r.id + "}")
  {
    var all, pattern := ExpandVariable(r, v), "{" + r.id + "}";
    if HasPlaceHolder(v.name, pattern) {
      forall i, j | 0 <= i < j < |all| ensures all[i].name != all[j].name {
        DecimalsDiffer(i, j);
        assert ("_" + Decimal(i))[1..] == Decimal(i) && ("_" + Decimal(j))[1..] == Decimal(j);
        TextsDiffer(v.name, pattern, "_" + Decimal(i), "_" + Decimal(j));
      }
    } else if r.times > 1 {
      NothingReplaced(v.name, pattern, "_" + Decimal(0));
      NothingReplaced(v.name, pattern, "_" + Decimal(1));
      assert all[0].name == all[1].name;
    }
  }

  lemma TextsDiffer(name: string, pattern: string, t: string, t': string)
    requires |pattern| > 0 && t != t' && HasPlaceHolder(name, pattern)
    ensures ReplaceAll(name, pattern, t) != ReplaceAll(name, pattern, t')
  {
    if |t| < |t'| {
      ReplacedLength(name, pattern, t, t');
    } else if |t'| < |t| {
      ReplacedLength(name, pattern, t', t);
    } else {
      ReplacedDiffer(name, pattern, t, t');
    }
  }

  /** If no parameter varies with a loop, nothing is recorded under a name that is lost. */
  lemma {:induction false} NoneRenamed(vars: seq<Variable>, repeats: seq<Repeat>)
    requires forall v :: v in vars && v.kind == "Parameter" ==> v.repeatIds == []
    requires forall i :: 0 <= i < |repeats| ==> repeats[i].times >= 1
    ensures NoNameReused(vars, repeats, {})
    decreases |repeats|
  {
    hide ExpandVariables, InstanceOf;
    if repeats != [] {
      var more := ExpandVariables(repeats[0], vars);
      forall w | w in more && w.kind == "Parameter" ensures w.repeatIds == [] {
        var v, i := InstanceSource(repeats[0], vars, w);
        SameIds(repeats[0], v, i, v, i);
        PlainParameter(repeats[0], v, i);
      }
      assert {} + Renamed(vars, repeats[0]) == {};
      NoneRenamed(more, repeats[1..]);
    }
  }
}
