/** The iterator that holds the whole data set in memory and reshuffles it after every pass. */
module MemoryIterator {
  import opened Arithmetic
  import opened CyclicStream
  import opened Epochs

  // ---- Rows ------------------------------------------------------------------------------------

  /** Row `t` of `d` numbers, empty if there is none. */
  function Row(data: seq<real>, d: nat, t: nat): seq<real> {
    if Mul(t, d) + d <= |data| then data[Mul(t, d)..Mul(t, d) + d] else []
  }

  /** `data` is the rows of `original` numbered in `ids`, in that order. */
  ghost predicate RowsAre(data: seq<real>, original: seq<real>, d: nat, ids: seq<nat>) {
    |data| == Mul(|ids|, d) && forall t :: 0 <= t < |ids| ==> Row(data, d, t) == Row(original, d, ids[t])
  }

  lemma RowShifted(data: seq<real>, d: nat, a: nat, c: nat, t: nat)
    requires Mul(a, d) + Mul(c, d) <= |data| && t < c
    ensures Row(data[Mul(a, d)..Mul(a, d) + Mul(c, d)], d, t) == Row(data, d, a + t)
  {
    hide Mul;
    NextRow(t, c, d);
    MulPlus(a, t, d);
  }

  lemma SliceRows(data: seq<real>, original: seq<real>, d: nat, ids: seq<nat>, a: nat, c: nat)
    requires RowsAre(data, original, d, ids) && a + c <= |ids|
    ensures Mul(a, d) + Mul(c, d) <= |data|
    ensures RowsAre(data[Mul(a, d)..Mul(a, d) + Mul(c, d)], original, d, ids[a..a + c])
  {
    hide Mul, Row;
    MulPlus(a, c, d);
    MulPlus(a + c, |ids| - a - c, d);
    var slice, part := data[Mul(a, d)..Mul(a, d) + Mul(c, d)], ids[a..a + c];
    forall t | 0 <= t < c
      ensures Row(slice, d, t) == Row(original, d, part[t])
    {
      RowShifted(data, d, a, c, t);
    }
  }

  lemma JoinRows(p: seq<real>, q: seq<real>, original: seq<real>, d: nat, a: seq<nat>, b: seq<nat>)
    requires RowsAre(p, original, d, a) && RowsAre(q, original, d, b)
    ensures RowsAre(p + q, original, d, a + b)
  {
    hide Mul, Row;
    MulPlus(|a|, |b|, d);
    MulUnits(d);
    assert (p + q)[..|p|] == p && (p + q)[|p|..] == q;
    forall t | 0 <= t < |a| + |b|
      ensures Row(p + q, d, t) == Row(original, d, (a + b)[t])
    {
      if t < |a| {
        RowShifted(p + q, d, 0, |a|, t);
        assert (p + q)[0..0 + |p|] == p;
      } else {
        RowShifted(p + q, d, |a|, |b|, t - |a|);
        assert (p + q)[|p|..|p| + |q|] == q;
      }
    }
  }

  /** Taking the rows of `data` in the order `ids`. */
  lemma PermutedRows(data: seq<real>, data': seq<real>, original: seq<real>, d: nat, order: seq<nat>, ids: seq<nat>)
    requires RowsAre(data, original, d, order) && IsPermutation(ids) && |ids| == |order|
    requires RowsAre(data', data, d, ids)
    ensures RowsAre(data', original, d, Composed(order, ids))
  {
    forall t | 0 <= t < |ids|
      ensures Row(data', d, t) == Row(original, d, Composed(order, ids)[t])
    {
      assert Row(data', d, t) == Row(data, d, ids[t]);
    }
  }

  /** A row more behind the `t` rows already in place. */
  lemma RowAppended(before: seq<real>, after: seq<real>, x: seq<real>, d: nat, ids: seq<nat>, t: nat)
    requires t < |ids| && |after| == Mul(t, d) + d && RowsAre(before, x, d, ids[..t])
    requires after[..Mul(t, d)] == before && after[Mul(t, d)..Mul(t, d) + d] == Row(x, d, ids[t])
    ensures Mul(t + 1, d) == Mul(t, d) + d && RowsAre(after, x, d, ids[..t + 1])
  {
    hide Mul;
    MulPlus(t, 1, d);
    MulUnits(d);
    var p, q := after[..Mul(t, d)], after[Mul(t, d)..Mul(t, d) + d];
    assert q[0..d] == q;
    JoinRows(p, q, x, d, ids[..t], [ids[t]]);
    assert p + q == after;
    assert ids[..t] + [ids[t]] == ids[..t + 1];
  }

  /** memcpy between two arrays. */
  method Copy(y: array<real>, to: nat, x: array<real>, from: nat, len: nat)
    requires x != y && to + len <= y.Length && from + len <= x.Length
    modifies y
    ensures y[to..to + len] == x[from..from + len]
    ensures y[..to] == old(y[..to]) && y[to + len..] == old(y[to + len..])
  {
    forall k | 0 <= k < len {
      y[to + k] := x[from + k];
    }
  }

  lemma NoRows(data: seq<real>, original: seq<real>, d: nat)
    requires data == []
    ensures RowsAre(data, original, d, [])
  {
    MulUnits(d);
  }

  lemma RowFits(data: seq<real>, d: nat, t: nat)
    requires Mul(t, d) + d <= |data|
    ensures Row(data, d, t) == data[Mul(t, d)..Mul(t, d) + d]
  {
  }

  /** Copies row `s` of `x` behind the `t` rows of `y` already in place. */
  method CopyRow(y: array<real>, x: array<real>, dsize: nat, ghost ids: seq<nat>, t: nat, s: nat)
    requires x != y && x.Length == y.Length == Mul(|ids|, dsize) && t < |ids| && s == ids[t] < |ids|
    requires Mul(t, dsize) <= y.Length && RowsAre(y[..Mul(t, dsize)], x[..], dsize, ids[..t])
    modifies y
    ensures Mul(t + 1, dsize) <= y.Length && RowsAre(y[..Mul(t + 1, dsize)], x[..], dsize, ids[..t + 1])
  {
    hide Mul, Row, RowsAre;
    ghost var before, source := y[..Mul(t, dsize)], x[..];
    NextRow(t, |ids|, dsize);
    NextRow(s, |ids|, dsize);
    RowFits(source, dsize, s);
    Copy(y, Mul(t, dsize), x, Mul(s, dsize), dsize);
    ghost var done := y[..Mul(t, dsize) + dsize];
    assert done[..Mul(t, dsize)] == y[..Mul(t, dsize)] == before;
    assert done[Mul(t, dsize)..Mul(t, dsize) + dsize] == source[Mul(s, dsize)..Mul(s, dsize) + dsize];
    RowAppended(before, done, source, dsize, ids, t);
  }

  // ---- Gathering the cache blocks --------------------------------------------------------------

  /** One stream's cache blocks: whether they hold unsigned bytes, how many dimensions they have, and
      how many numbers a row has. */
  datatype Stream = Stream(blocks: seq<seq<real>>, isUbyte: bool, dims: nat, rowSize: nat)

  /** Images of unsigned bytes are scaled to the unit interval, unless that is switched off. */
  function Normalization(s: Stream, noImageNormalization: bool): real {
    if !noImageNormalization && s.isUbyte && s.dims > 2 then 1.0 / 255.0 else 1.0
  }

  function Scaled(block: seq<real>, normalize: real): (r: seq<real>)
    ensures |r| == |block|
  {
    seq(|block|, k requires 0 <= k < |block| => block[k] * normalize)
  }

  /** All blocks, one after another. */
  function Gathered(blocks: seq<seq<real>>, normalize: real): seq<real> {
    if blocks == [] then [] else
      var last := |blocks| - 1;
      Gathered(blocks[..last], normalize) + Scaled(blocks[last], normalize)
  }

  lemma {:induction false} GatheredLength(blocks: seq<seq<real>>, normalize: real, size: nat)
    requires forall j :: 0 <= j < |blocks| ==> |blocks[j]| == size
    ensures |Gathered(blocks, normalize)| == Mul(|blocks|, size)
  {
    MulUnits(size);
    if blocks != [] {
      GatheredLength(blocks[..|blocks| - 1], normalize, size);
      NextRow(|blocks| - 1, |blocks|, size);
    }
  }

  /** Number `k` of block `j` lies `j` blocks and `k` numbers in. */
  lemma {:induction false} GatheredNumber(blocks: seq<seq<real>>, normalize: real, size: nat, j: nat, k: nat)
    requires (forall b :: 0 <= b < |blocks| ==> |blocks[b]| == size) && j < |blocks| && k < size
    ensures Mul(j, size) + k < |Gathered(blocks, normalize)|
    ensures Gathered(blocks, normalize)[Mul(j, size) + k] == blocks[j][k] * normalize
  {
    var rest := blocks[..|blocks| - 1];
    GatheredLength(blocks, normalize, size);
    GatheredLength(rest, normalize, size);
    NextRow(j, |blocks|, size);
    if j < |rest| {
      GatheredNumber(rest, normalize, size, j, k);
    }
  }

  /** Every number of a stream is where it should be: divided by 255 if it is a byte of an image that is to
      be normalized, else as it was. */
  lemma LoadedNumber(s: Stream, nData: nat, noImageNormalization: bool, loaded: seq<real>, j: nat, k: nat)
    requires WellShaped(s, nData) && loaded == Gathered(s.blocks, Normalization(s, noImageNormalization))
    requires j < |s.blocks| && k < |s.blocks[j]|
    ensures Mul(j, |s.blocks[0]|) + k < |loaded|
    ensures loaded[Mul(j, |s.blocks[0]|) + k]
         == if s.isUbyte && s.dims > 2 && !noImageNormalization then s.blocks[j][k] / 255.0 else s.blocks[j][k]
  {
    hide Gathered, Mul;
    GatheredNumber(s.blocks, Normalization(s, noImageNormalization), |s.blocks[0]|, j, k);
  }

  /** The blocks are of one size and hold `nData` rows together. */
  predicate WellShaped(s: Stream, nData: nat) {
    && |s.blocks| > 0 && (forall j :: 0 <= j < |s.blocks| ==> |s.blocks[j]| == |s.blocks[0]|)
    && Mul(|s.blocks|, |s.blocks[0]|) == Mul(nData, s.rowSize)
  }

  method LoadStream(s: Stream, nData: nat, noImageNormalization: bool) returns (target: array<real>)
    requires WellShaped(s, nData)
    ensures fresh(target) && target.Length == Mul(nData, s.rowSize)
    ensures target[..] == Gathered(s.blocks, Normalization(s, noImageNormalization))
    // number for number
    ensures forall j :: 0 <= j < |s.blocks| ==> Mul(j, |s.blocks[0]|) + |s.blocks[j]| <= target.Length
    ensures forall j, k :: 0 <= j < |s.blocks| && 0 <= k < |s.blocks[j]| ==>
              (target[Mul(j, |s.blocks[0]|) + k]
               == if s.isUbyte && s.dims > 2 && !noImageNormalization then s.blocks[j][k] / 255.0 else s.blocks[j][k])
  {
    hide Mul;
    var normalize := Normalization(s, noImageNormalization);
    target := new real[Mul(nData, s.rowSize)];
    var j, size := 0, |s.blocks[0]|;
    MulUnits(size);
    while j < |s.blocks|
      invariant j <= |s.blocks| && Mul(j, size) <= target.Length
      invariant target[..Mul(j, size)] == Gathered(s.blocks[..j], normalize)
    {
      var source := s.blocks[j];
      NextRow(j, |s.blocks|, size);
      ghost var before := target[..Mul(j, size)];
      forall k | 0 <= k < size {
        target[Mul(j, size) + k] := source[k] * normalize;
      }
      ghost var at, after := Mul(j, size), target[..Mul(j, size) + size];
      assert after[..at] == before && after[at..] == Scaled(source, normalize);
      assert after == after[..at] + after[at..];
      assert s.blocks[..j + 1][..j] == s.blocks[..j];
      j := j + 1;
    }
    assert s.blocks[..j] == s.blocks;
    AllLoaded(s, nData, noImageNormalization, target[..]);
  }

  lemma AllLoaded(s: Stream, nData: nat, noImageNormalization: bool, loaded: seq<real>)
    requires WellShaped(s, nData) && loaded == Gathered(s.blocks, Normalization(s, noImageNormalization))
    ensures |s.blocks| > 0 && |loaded| == Mul(nData, s.rowSize)
    ensures forall j :: 0 <= j < |s.blocks| ==> Mul(j, |s.blocks[0]|) + |s.blocks[j]| <= |loaded|
    ensures forall j, k :: 0 <= j < |s.blocks| && 0 <= k < |s.blocks[j]| ==>
              (loaded[Mul(j, |s.blocks[0]|) + k]
               == if s.isUbyte && s.dims > 2 && !noImageNormalization then s.blocks[j][k] / 255.0 else s.blocks[j][k])
  {
    hide Gathered, Mul, Normalization, WellShaped;
    ShapedLength(s, nData, noImageNormalization);
    forall j | 0 <= j < |s.blocks| ensures Mul(j, |s.blocks[0]|) + |s.blocks[j]| <= |loaded| {
      BlockInside(s, nData, noImageNormalization, j);
    }
    forall j, k | 0 <= j < |s.blocks| && 0 <= k < |s.blocks[j]|
      ensures loaded[Mul(j, |s.blocks[0]|) + k]
           == if s.isUbyte && s.dims > 2 && !noImageNormalization then s.blocks[j][k] / 255.0 else s.blocks[j][k]
    {
      LoadedNumber(s, nData, noImageNormalization, loaded, j, k);
    }
  }

  lemma BlockInside(s: Stream, nData: nat, noImageNormalization: bool, j: nat)
    requires WellShaped(s, nData) && j < |s.blocks|
    ensures Mul(j, |s.blocks[0]|) + |s.blocks[j]| <= |Gathered(s.blocks, Normalization(s, noImageNormalization))|
  {
    GatheredLength(s.blocks, Normalization(s, noImageNormalization), |s.blocks[0]|);
    NextRow(j, |s.blocks|, |s.blocks[0]|);
  }

  lemma ShapedLength(s: Stream, nData: nat, noImageNormalization: bool)
    requires WellShaped(s, nData)
    ensures |s.blocks| > 0 && |Gathered(s.blocks, Normalization(s, noImageNormalization))| == Mul(nData, s.rowSize)
  {
    GatheredLength(s.blocks, Normalization(s, noImageNormalization), |s.blocks[0]|);
  }

  /** Bytes of normalized images lie in the unit interval. */
  lemma ImagesInUnitInterval(s: Stream, nData: nat, loaded: seq<real>, j: nat, k: nat)
    requires WellShaped(s, nData) && loaded == Gathered(s.blocks, Normalization(s, false)) && s.isUbyte && s.dims > 2
    requires j < |s.blocks| && k < |s.blocks[j]| && 0.0 <= s.blocks[j][k] <= 255.0
    ensures Mul(j, |s.blocks[0]|) + k < |loaded| && 0.0 <= loaded[Mul(j, |s.blocks[0]|) + k] <= 1.0
  {
    LoadedNumber(s, nData, false, loaded, j, k);
    hide *;
  }

  lemma OwnRows(data: seq<real>, d: nat, n: nat)
    requires |data| == Mul(n, d)
    ensures RowsAre(data, data, d, Identity(n)) && IsPermutation(Identity(n))
  {
  }

  ghost predicate NumbersLoaded(s: Stream, noImageNormalization: bool, loaded: seq<real>) {
    && |s.blocks| > 0
    && (forall j :: 0 <= j < |s.blocks| ==> Mul(j, |s.blocks[0]|) + |s.blocks[j]| <= |loaded|)
    && (forall j, k :: 0 <= j < |s.blocks| && 0 <= k < |s.blocks[j]| ==>
      (loaded[Mul(j, |s.blocks[0]|) + k]
       == if s.isUbyte && s.dims > 2 && !noImageNormalization then s.blocks[j][k] / 255.0 else s.blocks[j][k]))
  }

  class MemoryIterator {
    const nData: nat
    const batchSize: nat
    const shuffle: bool
    const dataset: seq<array<real>>
    const strides: seq<nat>
    var shuffleIds: seq<nat>
    var currentId: nat
    ghost const original: seq<seq<real>>
    /** The rows as they lie in memory, and the rows delivered so far, by their original numbers. */
    ghost var order: seq<nat>
    ghost var log: seq<nat>
    ghost var epochs: nat

    ghost predicate Separate() {
      && |strides| == |original| == |dataset|
      && (forall i :: 0 <= i < |dataset| ==> dataset[i].Length == Mul(nData, strides[i]))
      && (forall i, j :: 0 <= i < j < |dataset| ==> dataset[i] != dataset[j])
    }

    ghost predicate StreamHolds(i: nat, ids: seq<nat>)
      requires i < |dataset| == |strides| == |original|
      reads dataset[i]
    {
      RowsAre(dataset[i][..], original[i], strides[i], ids)
    }

    /** All streams hold their original rows in the same order. */
    ghost predicate Holds(ids: seq<nat>)
      requires |dataset| == |strides| == |original|
      reads dataset
    {
      forall i :: 0 <= i < |dataset| ==> StreamHolds(i, ids)
    }

    ghost predicate Running()
      reads this, dataset
    {
      && 0 < batchSize <= nData && currentId <= nData && Separate()
      && IsPermutation(shuffleIds) && |shuffleIds| == nData
      && |order| == nData && InEpochs(log, nData, epochs, order, currentId) && Holds(order)
    }

    /** The state between calls. */
    ghost predicate Valid()
      reads this, dataset
    {
      Running() && currentId < nData
    }

    constructor (streams: seq<Stream>, nData: nat, batchSize: nat, shuffle: bool, noImageNormalization: bool)
      requires 0 < batchSize <= nData && forall i :: 0 <= i < |streams| ==> WellShaped(streams[i], nData)
      ensures Valid() && currentId == 0 && log == [] && order == Identity(nData)
      ensures this.nData == nData && this.batchSize == batchSize && this.shuffle == shuffle
      ensures |dataset| == |streams| && forall i :: 0 <= i < |streams| ==>
                strides[i] == streams[i].rowSize
                && original[i] == Gathered(streams[i].blocks, Normalization(streams[i], noImageNormalization))
      // number for number
      ensures forall i :: 0 <= i < |streams| ==>
                dataset[i][..] == original[i] && |original[i]| == Mul(nData, streams[i].rowSize)
      ensures forall i, j :: 0 <= i < |streams| && 0 <= j < |streams[i].blocks| ==>
                Mul(j, |streams[i].blocks[0]|) + |streams[i].blocks[j]| <= |original[i]|
      ensures forall i, j, k :: 0 <= i < |streams| && 0 <= j < |streams[i].blocks| && 0 <= k < |streams[i].blocks[j]| ==>
                (original[i][Mul(j, |streams[i].blocks[0]|) + k]
                 == if streams[i].isUbyte && streams[i].dims > 2 && !noImageNormalization then streams[i].blocks[j][k] / 255.0
                    else streams[i].blocks[j][k])
    {
      hide Mul, RowsAre, WellShaped, Gathered, Normalization;

      var arrays: seq<array<real>>, rowSizes: seq<nat> := [], [];
      ghost var contents: seq<seq<real>> := [];
      while |arrays| < |streams|
        invariant |arrays| == |rowSizes| == |contents| <= |streams|
        invariant forall i :: 0 <= i < |arrays| ==>
                    && fresh(arrays[i]) && arrays[i].Length == Mul(nData, rowSizes[i])
                    && rowSizes[i] == streams[i].rowSize
                    && contents[i] == Gathered(streams[i].blocks, Normalization(streams[i], noImageNormalization))
                    && NumbersLoaded(streams[i], noImageNormalization, contents[i])
                    && arrays[i][..] == contents[i] && RowsAre(arrays[i][..], contents[i], rowSizes[i], Identity(nData))
        invariant forall i, j :: 0 <= i < j < |arrays| ==> arrays[i] != arrays[j]
      {
        var i := |arrays|;
        var target := LoadStream(streams[i], nData, noImageNormalization);
        OwnRows(target[..], streams[i].rowSize, nData);
        AllLoaded(streams[i], nData, noImageNormalization, target[..]);
        assert NumbersLoaded(streams[i], noImageNormalization, target[..]);
        arrays, rowSizes, contents := arrays + [target], rowSizes + [streams[i].rowSize], contents + [target[..]];
      }
      this.nData, this.batchSize, this.shuffle, currentId := nData, batchSize, shuffle, 0;
      dataset, strides, original := arrays, rowSizes, contents;
      shuffleIds := Identity(nData);
      order, log, epochs := Identity(nData), [], 0;
      MulUnits(nData);
    }

    method ShuffleIndex(permutation: seq<nat>)
      requires IsPermutation(permutation) && |permutation| == nData
      modifies `shuffleIds
      ensures shuffleIds == permutation
    {
      shuffleIds := permutation;
    }

    /** Rearranges one stream's rows by way of a copy. */
    method ShuffleStream(x: array<real>, dsize: nat)
      requires IsPermutation(shuffleIds) && |shuffleIds| == nData && x.Length == Mul(nData, dsize)
      modifies x
      ensures RowsAre(x[..], old(x[..]), dsize, shuffleIds)
    {
      ghost var source, ids := x[..], shuffleIds;
      assert |ids| == nData && forall t :: 0 <= t < nData ==> ids[t] < nData;
      hide Mul, Row, RowsAre, IsPermutation;
      var y := new real[x.Length];
      var t := 0;
      MulUnits(dsize);
      NoRows(y[..0], source, dsize);
      while t < nData
        invariant t <= nData && Mul(t, dsize) <= y.Length && x[..] == source
        invariant RowsAre(y[..Mul(t, dsize)], source, dsize, ids[..t])
      {
        CopyRow(y, x, dsize, ids, t, shuffleIds[t]);
        t := t + 1;
      }
      Copy(x, 0, y, 0, x.Length);
      assert x[..] == x[0..0 + x.Length] == y[0..0 + x.Length] == y[..Mul(nData, dsize)];
      assert ids[..nData] == ids;
    }

    /** Rearranges stream `i`. */
    method ShuffleOne(i: nat)
      requires i < |dataset| && Separate() && StreamHolds(i, order) && |order| == nData
      requires IsPermutation(shuffleIds) && |shuffleIds| == nData
      modifies dataset[i]
      ensures StreamHolds(i, Composed(order, shuffleIds))
    {
      ghost var before := dataset[i][..];
      ShuffleStream(dataset[i], strides[i]);
      PermutedRows(before, dataset[i][..], original[i], strides[i], order, shuffleIds);
    }

    method ShuffleDataset(permutation: seq<nat>)
      requires |dataset| == |strides| == |original| && Separate() && Holds(order) && |order| == nData
      requires IsPermutation(permutation) && |permutation| == nData
      modifies `shuffleIds, `order, dataset
      ensures shuffle ==> shuffleIds == permutation && order == Composed(old(order), permutation)
      ensures !shuffle ==> shuffleIds == old(shuffleIds) && order == old(order)
      ensures Separate() && Holds(order)
    {
      if !shuffle {
        return;
      }
      ShuffleIndex(permutation);
      ghost var ids := Composed(order, permutation);
      assert forall k, j :: 0 <= k < |dataset| && 0 <= j < |dataset| && k != j ==> dataset[k] != dataset[j];
      hide Mul, Separate, StreamHolds, IsPermutation, Composed;
      var i := 0;
      while i < |dataset|
        invariant i <= |dataset| == |strides| == |original| && Separate() && shuffleIds == permutation && order == old(order)
        invariant forall j :: 0 <= j < i ==> StreamHolds(j, ids)
        invariant forall j :: i <= j < |dataset| ==> StreamHolds(j, order)
      {
        ShuffleOne(i);
        i := i + 1;
      }
      order := ids;
    }

    /** Rows `current` up to `current + count` of every stream. */
    method Take(current: nat, count: nat) returns (pieces: seq<seq<real>>)
      requires Separate() && Holds(order) && current + count <= |order|
      ensures |pieces| == |dataset|
      ensures forall i :: 0 <= i < |pieces| ==>
                RowsAre(pieces[i], original[i], strides[i], order[current..current + count])
    {
      hide Mul, RowsAre, IsPermutation;
      pieces := [];
      while |pieces| < |dataset|
        invariant |pieces| <= |dataset|
        invariant forall i :: 0 <= i < |pieces| ==>
                    RowsAre(pieces[i], original[i], strides[i], order[current..current + count])
      {
        var i := |pieces|;
        assert StreamHolds(i, order);
        SliceRows(dataset[i][..], original[i], strides[i], order, current, count);
        var from, len := Mul(current, strides[i]), Mul(count, strides[i]);
        assert dataset[i][from..from + len] == dataset[i][..][from..from + len];
        pieces := pieces + [dataset[i][from..from + len]];
      }
    }

    method JoinPieces(before: seq<seq<real>>, after: seq<seq<real>>, ghost a: seq<nat>, ghost b: seq<nat>)
      returns (batch: seq<seq<real>>)
      requires |before| == |after| == |dataset| == |strides| == |original|
      requires forall i :: 0 <= i < |before| ==> RowsAre(before[i], original[i], strides[i], a)
      requires forall i :: 0 <= i < |after| ==> RowsAre(after[i], original[i], strides[i], b)
      ensures |batch| == |dataset|
      ensures forall i :: 0 <= i < |batch| ==> RowsAre(batch[i], original[i], strides[i], a + b)
    {
      hide Mul, RowsAre;
      batch := [];
      while |batch| < |dataset|
        invariant |batch| <= |dataset|
        invariant forall i :: 0 <= i < |batch| ==> RowsAre(batch[i], original[i], strides[i], a + b)
      {
        var i := |batch|;
        JoinRows(before[i], after[i], original[i], strides[i], a, b);
        batch := batch + [before[i] + after[i]];
      }
    }

    /** data_iterator.cpp, lines 133-148 and 156-169: delivers the next `count` rows of the pass. */
    method Deliver(count: nat) returns (pieces: seq<seq<real>>)
      requires Running() && currentId + count <= nData
      modifies `log, `currentId
      ensures Running() && currentId == old(currentId) + count && |pieces| == |dataset|
      ensures log == old(log) + order[old(currentId)..currentId]
      ensures forall i :: 0 <= i < |pieces| ==>
                RowsAre(pieces[i], original[i], strides[i], order[old(currentId)..currentId])
    {
      hide Mul, RowsAre, IsPermutation, InEpochs, StreamHolds;
      pieces := Take(currentId, count);
      Epochs.Deliver(log, nData, epochs, order, currentId, count);
      log := log + order[currentId..currentId + count];
      currentId := currentId + count;
    }

    /** data_iterator.cpp, lines 150-154: at the end of a pass, reshuffles and starts over. */
    method StartOver(permutation: seq<nat>)
      requires Running() && IsPermutation(permutation) && |permutation| == nData
      modifies `shuffleIds, `order, `epochs, `currentId, dataset
      ensures Valid() && currentId == if old(currentId) == nData then 0 else old(currentId)
      ensures order == if old(currentId) == nData && shuffle then Composed(old(order), permutation) else old(order)
    {
      hide Mul, RowsAre, IsPermutation, StreamHolds, Composed;
      if nData <= currentId {
        ghost var finished := order;
        ShuffleDataset(permutation);
        if shuffle {
          ComposedPermutation(finished, permutation);
        }
        NextEpoch(log, nData, epochs, finished, order);
        epochs := epochs + 1;
        currentId := 0;
      }
    }

    /** The pieces of a batch, before and after the reshuffle. */
    method NextPieces(permutation: seq<nat>) returns (batch: seq<seq<real>>)
      requires Valid() && IsPermutation(permutation) && |permutation| == nData
      modifies this, dataset
      ensures Valid() && |batch| == |dataset|
      ensures var next := old(currentId) + batchSize; currentId == if nData <= next then next - nData else next
      ensures order == if nData <= old(currentId) + batchSize && shuffle then Composed(old(order), permutation)
                       else old(order)
      ensures |order| == |old(order)| == nData
      ensures log == old(log) + if nData <= old(currentId) + batchSize then old(order)[old(currentId)..] + order[..currentId]
                                else order[old(currentId)..old(currentId) + batchSize]
      ensures forall i :: 0 <= i < |batch| ==> RowsAre(batch[i], original[i], strides[i], log[|old(log)|..])
    {
      hide Mul, RowsAre, IsPermutation, InEpochs, StreamHolds;
      var nCount := batchSize;
      if nData <= currentId + batchSize {
        nCount := nData - currentId;
      }
      var before := Deliver(nCount);
      ghost var first := log[|old(log)|..];
      StartOver(permutation);
      var after := Deliver(batchSize - nCount);
      ghost var second := log[|old(log)| + nCount..];
      assert log == old(log) + first + second;
      assert log[|old(log)|..] == first + second;
      batch := JoinPieces(before, after, first, second);
    }

    /** The next batch: what is left of the pass, then, after reshuffling, the start of the next pass.
        The permutation is the one the random generator gives if it is asked. */
    method Next(permutation: seq<nat>) returns (batch: seq<seq<real>>)
      requires Valid() && IsPermutation(permutation) && |permutation| == nData
      modifies this, dataset
      ensures Valid() && |batch| == |dataset|
      ensures var next := old(currentId) + batchSize; currentId == if nData <= next then next - nData else next
      ensures order == if nData <= old(currentId) + batchSize && shuffle then Composed(old(order), permutation)
                       else old(order)
      ensures |log| == |old(log)| + batchSize && log[..|old(log)|] == old(log)
      ensures forall i :: 0 <= i < |batch| ==> RowsAre(batch[i], original[i], strides[i], log[|old(log)|..])
      // row for row
      ensures |order| == |old(order)| == nData && |strides| == |original| == |dataset|
      ensures nData <= old(currentId) + batchSize && shuffle ==>
                forall t :: 0 <= t < nData ==> var p := permutation[t]; p < nData && order[t] == old(order)[p]
      ensures forall m :: |old(log)| <= m < |log| ==>
                var t := old(currentId) + (m - |old(log)|);
                t < 2 * nData && log[m] == if t < nData then old(order)[t] else order[t - nData]
      ensures forall i :: 0 <= i < |batch| ==> |batch[i]| == Mul(batchSize, strides[i])
    {
      hide *;
      RunningFacts(this);
      NewOrder(order, permutation);
      batch := NextPieces(permutation);
      RunningFacts(this);
      NewPart(old(log), log, old(order), order, old(currentId), batchSize);
      LengthsOf(this, batch, log[|old(log)|..]);
    }
  }

  lemma RunningFacts(it: MemoryIterator)
    requires it.Valid()
    ensures |it.order| == it.nData && |it.strides| == |it.original| == |it.dataset| && IsPermutation(it.order)
    ensures it.currentId < it.nData && 0 < it.batchSize <= it.nData
  {
  }

  lemma NewOrder(order: seq<nat>, permutation: seq<nat>)
    requires IsPermutation(permutation) && |permutation| == |order|
    ensures |Composed(order, permutation)| == |order|
    ensures forall t :: 0 <= t < |order| ==> var p := permutation[t]; p < |order| && Composed(order, permutation)[t] == order[p]
  {
  }

  /** What one call adds to the log. */
  lemma NewPart(before: seq<nat>, log: seq<nat>, order: seq<nat>, order': seq<nat>, current: nat, batchSize: nat)
    requires |order'| == |order| && current < |order| && batchSize <= |order|
    requires log == before + if |order| <= current + batchSize then order[current..] + order'[..current + batchSize - |order|]
                             else order'[current..current + batchSize]
    requires |order| > current + batchSize ==> order' == order
    ensures |log| == |before| + batchSize && log[..|before|] == before
    ensures forall m :: |before| <= m < |log| ==>
              var t := current + (m - |before|);
              t < 2 * |order| && log[m] == if t < |order| then order[t] else order'[t - |order|]
    ensures |log[|before|..]| == batchSize && forall k :: 0 <= k < batchSize ==> log[|before|..][k] == log[|before| + k]
  {
  }

  lemma LengthsOf(it: MemoryIterator, batch: seq<seq<real>>, ids: seq<nat>)
    requires |batch| == |it.original| == |it.strides|
    requires forall i :: 0 <= i < |batch| ==> RowsAre(batch[i], it.original[i], it.strides[i], ids)
    ensures forall i :: 0 <= i < |batch| ==> |batch[i]| == Mul(|ids|, it.strides[i])
  {
  }

  /** The part of the log that batch `b` delivered. */
  function BatchIds(log: seq<nat>, batchSize: nat, b: nat): seq<nat> {
    if Mul(b, batchSize) + batchSize <= |log| then log[Mul(b, batchSize)..Mul(b, batchSize) + batchSize] else []
  }

  /** Any number of calls: all streams deliver the same rows, and cut differently, those rows are one
      permutation of the data set after another. */
  method Drain(it: MemoryIterator, permutations: seq<seq<nat>>)
    returns (batches: seq<seq<seq<real>>>, ghost rows: seq<nat>)
    requires it.Valid() && it.log == []
    requires forall p :: 0 <= p < |permutations| ==> IsPermutation(permutations[p]) && |permutations[p]| == it.nData
    modifies it, it.dataset
    ensures |batches| == |permutations| && |rows| == Mul(|batches|, it.batchSize)
    ensures forall b, i :: 0 <= b < |batches| && 0 <= i < |it.dataset| ==>
              |batches[b]| == |it.dataset| == |it.original| == |it.strides|
              && RowsAre(batches[b][i], it.original[i], it.strides[i], BatchIds(rows, it.batchSize, b))
    ensures forall e: nat :: Mul(e, it.nData) + it.nData <= |rows| ==> Epoch(rows, it.nData, e)
  {
    hide Mul, RowsAre, IsPermutation, BatchIds, MemoryIterator.Running;
    batches := [];
    MulUnits(it.batchSize);
    while |batches| < |permutations|
      invariant |batches| <= |permutations| && it.Valid() && |it.log| == Mul(|batches|, it.batchSize)
      invariant forall b :: 0 <= b < |batches| ==> Delivered(it, batches[b], BatchIds(it.log, it.batchSize, b))
    {
      ghost var before := it.log;
      var b := |batches|;
      var batch := it.Next(permutations[b]);
      MulPlus(b, 1, it.batchSize);
      LogGrows(before, it.log, it.batchSize, b);
      SeparateStreams(it);
      batches := batches + [batch];
      assert Delivered(it, batch, BatchIds(it.log, it.batchSize, b));
    }
    rows := it.log;
    AllEpochs(it);
    SeparateStreams(it);
  }

  ghost predicate Delivered(it: MemoryIterator, batch: seq<seq<real>>, ids: seq<nat>) {
    && |batch| == |it.dataset| == |it.original| == |it.strides|
    && forall i :: 0 <= i < |batch| ==> RowsAre(batch[i], it.original[i], it.strides[i], ids)
  }

  lemma LogGrows(before: seq<nat>, after: seq<nat>, batchSize: nat, b: nat)
    requires |before| == Mul(b, batchSize) && |after| == |before| + batchSize && after[..|before|] == before
    ensures BatchIds(after, batchSize, b) == after[|before|..]
    ensures forall c :: 0 <= c < b ==> BatchIds(after, batchSize, c) == BatchIds(before, batchSize, c)
  {
    assert after[..|before|] == before;
    hide Mul;
    forall c | 0 <= c < b
      ensures BatchIds(after, batchSize, c) == BatchIds(before, batchSize, c)
    {
      NextRow(c, b, batchSize);
      var from := Mul(c, batchSize);
      assert after[from..from + batchSize] == after[..|before|][from..from + batchSize];
    }
  }

  lemma AllEpochs(it: MemoryIterator)
    requires it.Valid()
    ensures forall e: nat :: Mul(e, it.nData) + it.nData <= |it.log| ==> Epoch(it.log, it.nData, e)
  {
    forall e: nat | Mul(e, it.nData) + it.nData <= |it.log|
      ensures Epoch(it.log, it.nData, e)
    {
      if e >= it.epochs {
        MulPlus(it.epochs, e - it.epochs, it.nData);
      }
    }
  }

  lemma SeparateStreams(it: MemoryIterator)
    requires it.Valid()
    ensures |it.dataset| == |it.original| == |it.strides|
  {
  }
}
