/** Evaluating a network without loops, layer by layer. */
module FlatRun {
  import opened Network
  import opened Dag

  type Env = string -> Value

  function Inputs(env: Env, f: Function): (r: seq<Value>)
    ensures |r| == |f.inputs| && forall j :: 0 <= j < |f.inputs| ==> r[j] == env(f.inputs[j])
  {
    seq(|f.inputs|, j requires 0 <= j < |f.inputs| => env(f.inputs[j]))
  }

  function IndexIn(xs: seq<string>, x: string): (i: int)
    ensures -1 <= i < |xs| && (i >= 0 ==> xs[i] == x) && (i == -1 ==> x !in xs)
  {
    if xs == [] then -1
    else if xs[|xs| - 1] == x then |xs| - 1
    else IndexIn(xs[..|xs| - 1], x)
  }

  /** Run one layer. */
  function Step(layers: Layers, f: Function, env: Env): Env {
    var out := layers(Kernel(f.kind, f.splitAxis, f.stackAxis, f.payload), Inputs(env, f));
    (x: string) => if x in f.outputs then Nth(out, IndexIn(f.outputs, x)) else env(x)
  }

  /** Run the layers from first to last. */
  function Run(layers: Layers, s: seq<Function>, env: Env): Env {
    if s == [] then env else Step(layers, s[|s| - 1], Run(layers, s[..|s| - 1], env))
  }

  ghost predicate Met(layers: Layers, env: Env, f: Function) {
    forall k :: 0 <= k < |f.outputs| ==> env(f.outputs[k]) == Nth(layers(Kernel(f.kind, f.splitAxis, f.stackAxis, f.payload), Inputs(env, f)), k)
  }

  /** No variable is written twice. */
  ghost predicate SingleAssignment(s: seq<Function>) {
    && (forall i, j, o :: 0 <= i < |s| && 0 <= j < |s| && o in s[i].outputs && o in s[j].outputs ==> i == j)
    && forall i, h, k :: 0 <= i < |s| && 0 <= h < k < |s[i].outputs| ==> s[i].outputs[h] != s[i].outputs[k]
  }

  /** Some layer from the `k`-th on writes `x`. */
  ghost predicate Writes(s: seq<Function>, k: nat, x: string) {
    exists i :: k <= i < |s| && x in s[i].outputs
  }

  lemma {:induction false} RunKeeps(layers: Layers, s: seq<Function>, env: Env, x: string)
    requires !Writes(s, 0, x)
    ensures Run(layers, s, env)(x) == env(x)
  {
    if s != [] {
      var rest := s[..|s| - 1];
      assert forall i :: 0 <= i < |rest| ==> rest[i] == s[i];
      RunKeeps(layers, rest, env, x);
    }
  }

  /** One pass over an ordered network meets every layer's demand. */
  lemma {:induction false} RunMeets(layers: Layers, s: seq<Function>, env: Env)
    requires Ordered(s) && SingleAssignment(s)
    ensures forall f :: f in s ==> Met(layers, Run(layers, s, env), f)
  {
    if s != [] {
      var rest, f := s[..|s| - 1], s[|s| - 1];
      assert forall i :: 0 <= i < |rest| ==> rest[i] == s[i];
      assert Ordered(rest) && SingleAssignment(rest);
      RunMeets(layers, rest, env);
      var before, after := Run(layers, rest, env), Run(layers, s, env);
      forall i | 0 <= i < |s| ensures Met(layers, after, s[i]) {
        forall x | x in s[i].inputs ensures after(x) == before(x) {
          assert x in f.outputs ==> Edge(f, s[i]);
        }
        assert Inputs(after, s[i]) == Inputs(before, s[i]);
        if i < |rest| {
          assert s[i] == rest[i] && rest[i] in rest;
          forall k | 0 <= k < |s[i].outputs| ensures after(s[i].outputs[k]) == before(s[i].outputs[k]) {
            assert s[i].outputs[k] in s[i].outputs;
          }
        } else {
          forall k | 0 <= k < |f.outputs| ensures IndexIn(f.outputs, f.outputs[k]) == k && f.outputs[k] in f.outputs {
            var h := IndexIn(f.outputs, f.outputs[k]);
            assert s[|s| - 1].outputs[h] == s[|s| - 1].outputs[k];
          }
        }
      }
    }
  }

  /** Whatever meets every demand and starts from the same givens is what the pass computes. */
  lemma {:induction false} RunUnique(layers: Layers, s: seq<Function>, env: Env, other: Env, k: nat, x: string)
    requires Ordered(s) && SingleAssignment(s) && k <= |s|
    requires forall f :: f in s ==> Met(layers, other, f)
    requires forall y :: !Writes(s, 0, y) ==> other(y) == env(y)
    requires !Writes(s, k, x)
    ensures Run(layers, s[..k], env)(x) == other(x)
    decreases k
  {
    if k > 0 {
      var f := s[k - 1];
      assert s[..k][..k - 1] == s[..k - 1];
      var before := Run(layers, s[..k - 1], env);
      assert forall i :: k - 1 <= i < |s| ==> !Edge(s[i], f);
      if x in f.outputs {
        forall y | y in f.inputs ensures before(y) == other(y) {
          assert !Writes(s, k - 1, y);
          RunUnique(layers, s, env, other, k - 1, y);
        }
        assert Inputs(before, f) == Inputs(other, f);
        assert f in s;
      } else {
        RunUnique(layers, s, env, other, k - 1, x);
      }
    }
  }
}
