/** Which rows the in-memory iterator delivers: permutation after permutation of the whole data set, cut
    into batches without regard to where one permutation ends. */
module Epochs {
  import opened Arithmetic
  import opened CyclicStream

  /** Row numbers delivered so far are whole permutations, then a part of the one in use. */
  ghost predicate InEpochs(log: seq<nat>, n: nat, epochs: nat, order: seq<nat>, current: nat) {
    && IsPermutation(order) && |order| == n && current <= n
    && |log| == Mul(epochs, n) + current
    && (forall e: nat :: e < epochs ==> Epoch(log, n, e))
    && log[Mul(epochs, n)..] == order[..current]
  }

  /** Rows e * n up to (e + 1) * n are a permutation of the data set. */
  ghost predicate Epoch(log: seq<nat>, n: nat, e: nat) {
    Mul(e, n) + n <= |log| && IsPermutation(log[Mul(e, n)..Mul(e, n) + n])
  }

  lemma LaterEpoch(log: seq<nat>, n: nat, e: nat, more: seq<nat>)
    requires Epoch(log, n, e)
    ensures Epoch(log + more, n, e)
  {
    assert (log + more)[Mul(e, n)..Mul(e, n) + n] == log[Mul(e, n)..Mul(e, n) + n];
  }

  /** Delivering the next `count` rows of the permutation in use. */
  lemma Deliver(log: seq<nat>, n: nat, epochs: nat, order: seq<nat>, current: nat, count: nat)
    requires InEpochs(log, n, epochs, order, current) && current + count <= n
    ensures InEpochs(log + order[current..current + count], n, epochs, order, current + count)
  {
    hide Mul, IsPermutation;
    var more := order[current..current + count];
    forall e: nat | e < epochs
      ensures Epoch(log + more, n, e)
    {
      LaterEpoch(log, n, e, more);
    }
    assert (log + more)[Mul(epochs, n)..] == log[Mul(epochs, n)..] + more;
    assert order[..current] + more == order[..current + count];
  }

  /** At its end another permutation takes over. */
  lemma NextEpoch(log: seq<nat>, n: nat, epochs: nat, order: seq<nat>, order': seq<nat>)
    requires InEpochs(log, n, epochs, order, n) && IsPermutation(order') && |order'| == n
    ensures InEpochs(log, n, epochs + 1, order', 0)
  {
    assert Mul(epochs + 1, n) == Mul(epochs, n) + n;
    hide Mul, IsPermutation;
    assert log[Mul(epochs, n)..Mul(epochs, n) + n] == order[..n] == order;
  }

  /** Permuting a permutation. */
  function Composed(order: seq<nat>, ids: seq<nat>): (composed: seq<nat>)
    requires IsPermutation(ids) && |ids| == |order|
    ensures |composed| == |order| && forall t :: 0 <= t < |order| ==> composed[t] == order[ids[t]]
  {
    seq<nat>(|order|, t requires 0 <= t < |order| => order[ids[t]])
  }

  lemma ComposedPermutation(order: seq<nat>, ids: seq<nat>)
    requires IsPermutation(order) && IsPermutation(ids) && |ids| == |order|
    ensures IsPermutation(Composed(order, ids))
  {
    var composed := Composed(order, ids);
    forall t, u | 0 <= t < u < |composed|
      ensures composed[t] != composed[u]
    {
      assert ids[t] != ids[u];
    }
  }

  // ---- Which batch sizes stay inside the data --------------------------------------------------

  /** The rows left for after the reshuffle in one call. */
  function Rest(n: int, batch: int, current: int): int {
    if n <= current + batch then batch - (n - current) else 0
  }

  /** Where the next call starts. */
  function CurrentAfter(n: int, batch: int, calls: nat): int {
    if calls == 0 then 0
    else
      var current := CurrentAfter(n, batch, calls - 1);
      if n <= current + batch then Rest(n, batch, current) else current + batch
  }

  /** The call after `calls` others reads rows that exist. */
  predicate ReadsInside(n: int, batch: int, calls: nat) {
    0 <= CurrentAfter(n, batch, calls) <= n && Rest(n, batch, CurrentAfter(n, batch, calls)) <= n
  }

  lemma {:induction false} CurrentStaysInside(n: int, batch: int, calls: nat)
    requires 0 < batch <= n
    ensures 0 <= CurrentAfter(n, batch, calls) < n
  {
    if calls > 0 {
      CurrentStaysInside(n, batch, calls - 1);
    }
  }

  lemma {:induction false} CurrentRunsAway(n: int, batch: int, calls: nat)
    requires 0 < n < batch
    ensures CurrentAfter(n, batch, calls) >= calls
  {
    if calls > 0 {
      CurrentRunsAway(n, batch, calls - 1);
    }
  }

  /** All calls read inside the data exactly when a batch is no larger than the data set. */
  lemma InsideExactly(n: int, batch: int)
    requires n > 0 && batch > 0
    ensures (forall calls: nat :: ReadsInside(n, batch, calls)) <==> batch <= n
  {
    if batch <= n {
      forall calls: nat
        ensures ReadsInside(n, batch, calls)
      {
        CurrentStaysInside(n, batch, calls);
      }
    } else {
      CurrentRunsAway(n, batch, n + 1);
      assert !ReadsInside(n, batch, n + 1);
    }
  }
}
