/** Producers, consumers, cycles and orders of functions. */
module Dag {
  import opened Network

  /** `g` reads something that `f` writes. */
  predicate Edge(f: Function, g: Function) {
    exists o :: o in f.outputs && o in g.inputs
  }

  ghost predicate Chain(p: seq<Function>) {
    forall i :: 0 <= i < |p| - 1 ==> Edge(p[i], p[i + 1])
  }

  /** A chain of functions that closes on itself. */
  ghost predicate Cycle(funcs: seq<Function>, p: seq<Function>) {
    p != [] && Chain(p) && Edge(p[|p| - 1], p[0]) && forall f :: f in p ==> f in funcs
  }

  ghost predicate Cyclic(funcs: seq<Function>) {
    exists p :: Cycle(funcs, p)
  }

  /** Every producer stands before every consumer. */
  ghost predicate Ordered(s: seq<Function>) {
    forall i, j :: 0 <= i < |s| && 0 <= j < |s| && Edge(s[i], s[j]) ==> i < j
  }

  ghost predicate UniqueNames(funcs: seq<Function>) {
    forall f, g :: f in funcs && g in funcs && f.name == g.name ==> f == g
  }

  ghost predicate NoRepeats(funcs: seq<Function>) {
    forall i, j :: 0 <= i < j < |funcs| ==> funcs[i] != funcs[j]
  }

  /** Along a chain, positions in an order only grow. */
  lemma {:induction false} ChainClimbs(s: seq<Function>, p: seq<Function>, k: nat, i: nat) returns (j: nat)
    requires Ordered(s) && Chain(p) && k < |p| && (forall f :: f in p ==> f in s)
    requires i < |s| && s[i] == p[0]
    ensures i <= j < |s| && s[j] == p[k]
  {
    if k == 0 {
      j := i;
    } else {
      var h := ChainClimbs(s, p, k - 1, i);
      assert p[k] in s;
      j :| 0 <= j < |s| && s[j] == p[k];
      assert Edge(p[k - 1], p[k - 1 + 1]);
    }
  }

  /** What can be ordered has no cycle. */
  lemma OrderedIsAcyclic(s: seq<Function>, funcs: seq<Function>)
    requires Ordered(s) && forall f :: f in funcs ==> f in s
    ensures !Cyclic(funcs)
  {
    forall p | Cycle(funcs, p) ensures false {
      assert p[0] in funcs;
      var i :| 0 <= i < |s| && s[i] == p[0];
      assert forall f :: f in p ==> f in s;
      var j := ChainClimbs(s, p, |p| - 1, i);
    }
  }

  /** Lists without repetition and with the same members are permutations of each other. */
  lemma {:induction false} SameMembers(s: seq<Function>, t: seq<Function>)
    requires NoRepeats(s) && NoRepeats(t) && forall f :: f in s <==> f in t
    ensures multiset(s) == multiset(t)
  {
    forall f ensures multiset(s)[f] == multiset(t)[f] {
      CountsOne(s, f);
      CountsOne(t, f);
    }
  }

  lemma {:induction false} CountsOne(s: seq<Function>, f: Function)
    requires NoRepeats(s)
    ensures multiset(s)[f] == if f in s then 1 else 0
  {
    if s != [] {
      CountsOne(s[1..], f);
      assert s == [s[0]] + s[1..];
    }
  }
}
