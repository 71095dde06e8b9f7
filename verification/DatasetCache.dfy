/** One ring buffer per variable, read in step: a batch has the same rows of every variable. */
module DatasetCache {
  import opened Arithmetic
  import opened BufferLevel
  import opened CyclicStream
  import opened RingBuffer

  /** No two variables share a buffer. */
  ghost predicate Separate(rings: seq<RingBuffer>) {
    forall v, w :: 0 <= v < w < |rings| ==> Apart(rings[v], rings[w])
  }

  ghost predicate Apart(r: RingBuffer, s: RingBuffer) {
    && r != s && r.buffer != s.buffer && r.shuffleBuffer != s.buffer
    && r.buffer != s.shuffleBuffer && r.shuffleBuffer != s.shuffleBuffer
  }

  class NpyCache {
    const ringBuffers: seq<RingBuffer>
    const batchSize: nat
    /** Batches handed out so far. */
    ghost var served: nat

    /** All variables have as many files and rows, in the same order. */
    ghost predicate SameLayout()
    {
      forall v :: 0 <= v < |ringBuffers| ==>
        && ringBuffers[v].source.Valid()
        && |ringBuffers[v].source.files| == |ringBuffers[0].source.files|
        && ringBuffers[v].source.order == ringBuffers[0].source.order
        && ringBuffers[v].batchDataSize == Mul(batchSize, ringBuffers[v].source.rowSize)
    }

    ghost predicate Ready(v: nat, count: nat)
      requires v < |ringBuffers|
      reads ringBuffers[v], ringBuffers[v].buffer
    {
      ringBuffers[v].Valid() && ringBuffers[v].start + ringBuffers[v].current == count
    }

    ghost predicate Valid()
      reads this, set v | 0 <= v < |ringBuffers| :: ringBuffers[v],
            set v | 0 <= v < |ringBuffers| :: ringBuffers[v].buffer
    {
      Separate(ringBuffers) && SameLayout() && forall v :: 0 <= v < |ringBuffers| ==> Ready(v, served)
    }

    /** `variables[v]` holds the contents of variable `v`'s cache files, with rows of `rowSizes[v]` bytes. */
    constructor (variables: seq<seq<seq<Byte>>>, rowSizes: seq<nat>, rows: nat, batchSize: nat,
                 idxList: seq<nat>, shuffle: bool)
      requires rows > 0 && batchSize > 0 && Fits(rows, batchSize)
      requires |rowSizes| == |variables| && forall v :: 0 <= v < |variables| ==> IsVariable(variables, rowSizes, rows, v)
      requires shuffle ==> |idxList| == rows && forall t :: 0 <= t < rows ==> idxList[t] < rows
      ensures Valid() && served == 0 && |ringBuffers| == |variables| && this.batchSize == batchSize
      ensures forall v :: 0 <= v < |variables| ==>
                (ringBuffers[v].source
                 == Source(variables[v], rows, rowSizes[v], if shuffle then idxList else Identity(rows)))
    {
      var buffers := MakeRingBuffers(variables, rowSizes, rows, batchSize, idxList, shuffle);
      ringBuffers, this.batchSize, served := buffers, batchSize, 0;
      new;
      hide Mul, Source.Valid, Source.FileSize, IsVariable, RingBuffer.Valid;
      forall v | 0 <= v < |buffers|
        ensures buffers[v].source.Valid() && |buffers[v].source.files| == |buffers[0].source.files|
      {
        ValidSource(buffers[v]);
        SameFileCount(variables, rowSizes, rows, v);
      }
    }

    /** Batch `iterNum` of every variable: row `j` of it is the same row of the same file for all. */
    method GetBatchData(iterNum: nat) returns (batch: seq<seq<Byte>>)
      requires Valid() && iterNum == served
      modifies `served, set v | 0 <= v < |ringBuffers| :: ringBuffers[v],
               set v | 0 <= v < |ringBuffers| :: ringBuffers[v].buffer,
               set v | 0 <= v < |ringBuffers| :: ringBuffers[v].shuffleBuffer
      ensures Valid() && served == iterNum + 1 && |batch| == |ringBuffers|
      ensures forall v, j :: 0 <= v < |batch| && 0 <= j < batchSize ==>
                (RowAt(batch[v], ringBuffers[v].source.rowSize, j)
                 == RowBytes(ringBuffers[v].source, Mul(iterNum, batchSize) + j))
      // byte for byte, and nothing more
      ensures forall v :: 0 <= v < |batch| ==> |batch[v]| == Mul(batchSize, ringBuffers[v].source.rowSize)
      ensures forall v, n :: 0 <= v < |batch| && 0 <= n < |batch[v]| ==>
                var s := ringBuffers[v].source;
                && s.Valid()
                && var r := Mul(iterNum, batchSize) + Div(n, s.rowSize);
                   var f, q := Rem(Div(r, s.rows), |s.files|), s.order[Rem(r, s.rows)];
                   && Mul(q, s.rowSize) + Rem(n, s.rowSize) < |s.files[f]|
                   && batch[v][n] == s.files[f][Mul(q, s.rowSize) + Rem(n, s.rowSize)]
    {
      hide Mul, Div, Rem, Slice, RowBytes, Source.Valid, Source.FileSize, RingBuffer.Valid, RingBuffer.Pending;
      ghost var next := iterNum + 1;
      batch := [];
      while |batch| < |ringBuffers|
        invariant |batch| <= |ringBuffers|
        invariant forall v :: 0 <= v < |batch| ==> Ready(v, next)
        invariant forall v :: |batch| <= v < |ringBuffers| ==> Ready(v, iterNum)
        invariant forall v :: 0 <= v < |batch| ==>
                    var r := ringBuffers[v];
                    (batch[v] == Slice(r.source, Mul(iterNum, r.batchDataSize), r.batchDataSize))
      {
        var r := ringBuffers[|batch|];
        assert Ready(|batch|, iterNum);
        var v := r.ReadBatchData(iterNum);
        r.FillUp();
        batch := batch + [v];
      }
      served := iterNum + 1;
      forall v, j | 0 <= v < |batch| && 0 <= j < batchSize
        ensures RowAt(batch[v], ringBuffers[v].source.rowSize, j)
             == RowBytes(ringBuffers[v].source, Mul(iterNum, batchSize) + j)
      {
        BatchRow(ringBuffers[v].source, iterNum, batchSize, j);
      }
      AllBytes(batch, ringBuffers, iterNum, batchSize);
    }
  }

  lemma AllBytes(batch: seq<seq<Byte>>, rings: seq<RingBuffer>, iter: nat, batchSize: nat)
    requires |batch| == |rings|
    requires forall v :: 0 <= v < |batch| ==>
               var s := rings[v].source;
               s.Valid() && batch[v] == Slice(s, Mul(iter, Mul(batchSize, s.rowSize)), Mul(batchSize, s.rowSize))
    ensures forall v, n :: 0 <= v < |batch| && 0 <= n < |batch[v]| ==>
              var s := rings[v].source;
              && s.Valid()
              && var r := Mul(iter, batchSize) + Div(n, s.rowSize);
                 var f, q := Rem(Div(r, s.rows), |s.files|), s.order[Rem(r, s.rows)];
                 && Mul(q, s.rowSize) + Rem(n, s.rowSize) < |s.files[f]|
                 && batch[v][n] == s.files[f][Mul(q, s.rowSize) + Rem(n, s.rowSize)]
  {
    forall v, n | 0 <= v < |batch| && 0 <= n < |batch[v]|
      ensures var s := rings[v].source;
              && s.Valid()
              && var r := Mul(iter, batchSize) + Div(n, s.rowSize);
                 var f, q := Rem(Div(r, s.rows), |s.files|), s.order[Rem(r, s.rows)];
                 && Mul(q, s.rowSize) + Rem(n, s.rowSize) < |s.files[f]|
                 && batch[v][n] == s.files[f][Mul(q, s.rowSize) + Rem(n, s.rowSize)]
    {
      hide Slice, Mul, Div, Rem;
      BatchByte(rings[v].source, iter, batchSize, n);
    }
  }

  /** Row `j` of a batch, empty if there is none. */
  function RowAt(batch: seq<Byte>, rowSize: nat, j: nat): seq<Byte> {
    if Mul(j, rowSize) + rowSize <= |batch| then batch[Mul(j, rowSize)..Mul(j, rowSize) + rowSize] else []
  }

  ghost predicate Started(r: RingBuffer, batchSize: nat, source: Source)
    reads r, r.buffer
  {
    r.Valid() && r.start + r.current == 0 && r.source == source && r.batchDataSize == Mul(batchSize, source.rowSize)
  }

  lemma ValidSource(r: RingBuffer)
    ensures r.Valid() ==> r.source.Valid()
  {
  }

  lemma SameFileCount(variables: seq<seq<seq<Byte>>>, rowSizes: seq<nat>, rows: nat, v: nat)
    requires v < |variables| == |rowSizes| && IsVariable(variables, rowSizes, rows, v)
    ensures |variables[v]| == |variables[0]|
  {
  }

  method MakeRingBuffers(variables: seq<seq<seq<Byte>>>, rowSizes: seq<nat>, rows: nat, batchSize: nat,
                         idxList: seq<nat>, shuffle: bool)
    returns (buffers: seq<RingBuffer>)
    requires rows > 0 && batchSize > 0 && Fits(rows, batchSize)
    requires |rowSizes| == |variables| && forall v :: 0 <= v < |variables| ==> IsVariable(variables, rowSizes, rows, v)
    requires shuffle ==> |idxList| == rows && forall t :: 0 <= t < rows ==> idxList[t] < rows
    ensures |buffers| == |variables| && Separate(buffers)
    ensures forall v :: 0 <= v < |buffers| ==>
              && fresh(buffers[v]) && fresh(buffers[v].buffer) && fresh(buffers[v].shuffleBuffer)
              && Started(buffers[v], batchSize,
                         Source(variables[v], rows, rowSizes[v], if shuffle then idxList else Identity(rows)))
  {
    hide Mul, Source.Valid, Source.FileSize, RingBuffer.Valid, Identity, Fits;
    ghost var order := if shuffle then idxList else Identity(rows);
    buffers := [];
    while |buffers| < |variables|
      invariant |buffers| <= |variables| && Separate(buffers)
      invariant forall v :: 0 <= v < |buffers| ==>
                  && fresh(buffers[v]) && fresh(buffers[v].buffer) && fresh(buffers[v].shuffleBuffer)
                  && Started(buffers[v], batchSize, Source(variables[v], rows, rowSizes[v], order))
    {
      var v := |buffers|;
      assert IsVariable(variables, rowSizes, rows, v);
      FitsInBytes(rows, batchSize, rowSizes[v]);
      var r := new RingBuffer(variables[v], rows, rowSizes[v], batchSize, idxList, shuffle);
      buffers := buffers + [r];
    }
  }

  /** A variable's files all have as many rows, and it has at least one. */
  predicate IsVariable(variables: seq<seq<seq<Byte>>>, rowSizes: seq<nat>, rows: nat, v: nat)
    requires v < |variables| == |rowSizes|
  {
    && |variables[v]| == |variables[0]| > 0 && rowSizes[v] > 0
    && forall f :: 0 <= f < |variables[v]| ==> |variables[v][f]| == Mul(rows, rowSizes[v])
  }

  /** Whether batches fit depends on rows only. */
  lemma FitsInBytes(rows: nat, batchSize: nat, d: nat)
    requires rows > 0 && batchSize > 0 && d > 0
    ensures Fits(rows, batchSize) ==> Fits(Mul(rows, d), Mul(batchSize, d))
  {
    if batchSize > 4 * rows && batchSize <= 5 * rows && rows % (batchSize - 4 * rows) == 0 {
      var x := batchSize - 4 * rows;
      DivDiv(Mul(rows, d), d, x);
      DivMod(Mul(rows, d), rows, 0, d);
      assert x * d == d * x == Mul(batchSize, d) - 4 * Mul(rows, d);
      Multiples(5 * rows - batchSize, d);
      Multiples(x, d);
    } else if batchSize <= 4 * rows {
      Multiples(4 * rows - batchSize, d);
      assert (4 * rows - batchSize) * d == 4 * Mul(rows, d) - Mul(batchSize, d);
    }
  }
}
