/** The sliding buffer over one variable's cache files, against the endless stream. */
module RingBuffer {
  import opened Arithmetic
  import opened BufferLevel
  import opened CyclicStream

  class RingBuffer {
    const cacheFiles: seq<seq<Byte>>
    const idxList: seq<nat>
    const shuffle: bool
    const dataSize: nat
    const cacheFileDataSize: nat
    const batchDataSize: nat
    const totalBufferSize: nat
    const buffer: array<Byte>
    const shuffleBuffer: array<Byte>
    var prevIndex: nat
    var current: nat
    var start: nat
    var total: nat
    var fileQueue: seq<seq<Byte>>
    ghost const source: Source
    /** Files loaded so far. */
    ghost var loaded: nat

    ghost predicate Configured() {
      && source.Valid() && source.files == cacheFiles
      && source.rowSize == dataSize && source.FileSize() == cacheFileDataSize > 0
      && source.order == (if shuffle then idxList else Identity(source.rows))
      && batchDataSize > 0 && Fits(cacheFileDataSize, batchDataSize)
      && totalBufferSize == NUM_OF_CACHE_FILE * cacheFileDataSize
      && buffer.Length == totalBufferSize && shuffleBuffer.Length == cacheFileDataSize && buffer != shuffleBuffer
    }

    /** The queue holds the files that come after those loaded, up to the end of the list. */
    ghost predicate QueueAt()
      reads `fileQueue, `loaded
      requires |cacheFiles| > 0
    {
      && |fileQueue| <= |cacheFiles| && fileQueue == cacheFiles[|cacheFiles| - |fileQueue|..]
      && Rem(loaded, |cacheFiles|) == if |fileQueue| == 0 then 0 else |cacheFiles| - |fileQueue|
    }

    /** The first `len` bytes of the buffer are the last ones loaded from the stream. */
    ghost predicate Holds(len: nat)
      reads `loaded, buffer
      requires Configured()
    {
      && len <= buffer.Length && len <= Mul(loaded, cacheFileDataSize)
      && buffer[..len] == Slice(source, Mul(loaded, cacheFileDataSize) - len, len)
    }

    ghost predicate Consistent()
      reads `fileQueue, `loaded, `start, `total, buffer
      requires Configured()
    {
      && QueueAt() && Holds(total)
      && Mul(start, batchDataSize) + total == Mul(loaded, cacheFileDataSize)
    }

    /** The state between calls. */
    ghost predicate Valid()
      reads this, buffer
    {
      && Configured() && Consistent()
      && Level(current, total) == LevelAfter(cacheFileDataSize, batchDataSize, start + current)
      && prevIndex == if start + current == 0 then 0 else start + current - 1
    }

    /** The state after a read, before filling up. */
    ghost predicate Pending()
      reads this, buffer
    {
      && Configured() && Consistent() && current > 0
      && Level(current - 1, total) == LevelAfter(cacheFileDataSize, batchDataSize, start + current - 1)
      && prevIndex == start + current - 1
    }

    /** Takes `rows` rows of `dataSize` bytes in every file, and batches of `batchSize` rows. */
    constructor (files: seq<seq<Byte>>, rows: nat, dataSize: nat, batchSize: nat, idxList: seq<nat>, shuffle: bool)
      requires |files| > 0 && rows > 0 && dataSize > 0 && batchSize > 0
      requires forall f :: 0 <= f < |files| ==> |files[f]| == Mul(rows, dataSize)
      requires shuffle ==> |idxList| == rows && forall t :: 0 <= t < rows ==> idxList[t] < rows
      requires Fits(Mul(rows, dataSize), Mul(batchSize, dataSize))
      ensures Valid() && start + current == 0 && fresh(buffer) && fresh(shuffleBuffer)
      ensures source == Source(files, rows, dataSize, if shuffle then idxList else Identity(rows))
      ensures batchDataSize == Mul(batchSize, dataSize)
    {
      cacheFiles, this.idxList, this.shuffle := files, idxList, shuffle;
      this.dataSize, cacheFileDataSize := dataSize, Mul(rows, dataSize);
      batchDataSize, totalBufferSize := Mul(batchSize, dataSize), Mul(rows, dataSize) * NUM_OF_CACHE_FILE;
      buffer, shuffleBuffer := new Byte[Mul(rows, dataSize) * NUM_OF_CACHE_FILE], new Byte[Mul(rows, dataSize)];
      prevIndex, current, start, total := 0, 0, 0, 0;
      fileQueue := files;
      source := Source(files, rows, dataSize, if shuffle then idxList else Identity(rows));
      loaded := 0;
      new;
      FilePositive(source);
      Multiples(batchSize, dataSize);
      RefilledBounds(cacheFileDataSize, 0);
      FillBuffer(0);
    }

    /** The first `len` bytes of file `f`, its rows in order, lie at `loadSize`. */
    ghost predicate Copied(f: nat, loadSize: nat, len: nat)
      reads buffer
      requires Configured() && f < |cacheFiles|
    {
      && len <= cacheFileDataSize && loadSize + len <= buffer.Length
      && buffer[loadSize..loadSize + len] == ShuffledFile(source, f)[..len]
    }

    /** memcpy of row `s` to the `t`-th place. */
    method CopyRow(t: nat, s: nat, loadSize: nat, ghost f: nat)
      requires Configured() && f < |cacheFiles| && shuffleBuffer[..] == cacheFiles[f]
      requires t < source.rows && s == source.order[t] && loadSize + cacheFileDataSize <= buffer.Length
      requires Copied(f, loadSize, Mul(t, dataSize))
      modifies buffer
      ensures buffer[..loadSize] == old(buffer[..loadSize])
      ensures Copied(f, loadSize, Mul(t + 1, dataSize))
    {
      hide Mul, Source.Valid, Source.FileSize, Fits, ShuffledFile, Identity;
      var d, to, from := dataSize, loadSize + Mul(t, dataSize), Mul(s, dataSize);
      NextRow(t, source.rows, d);
      ShuffledRow(source, f, t);
      ghost var before, content := buffer[..], ShuffledFile(source, f);
      assert before[loadSize..to] == content[..Mul(t, d)] && to - loadSize + d <= |content|;
      assert cacheFiles[f][from..from + d] == content[Mul(t, d)..Mul(t, d) + d];
      forall j | 0 <= j < d {
        buffer[to + j] := shuffleBuffer[from + j];
      }
      assert buffer[to..to + d] == shuffleBuffer[..][from..from + d] == content[Mul(t, d)..Mul(t, d) + d];
      assert buffer[..to] == before[..to];
      Grown(before, buffer[..], loadSize, to, d, content);
    }

    /** Copies one file into the buffer, its rows in order. */
    method LoadFile(file: seq<Byte>, loadSize: nat, ghost f: nat)
      requires Configured() && f < |cacheFiles| && file == cacheFiles[f]
      requires loadSize + cacheFileDataSize <= buffer.Length
      modifies buffer, shuffleBuffer
      ensures buffer[..loadSize] == old(buffer[..loadSize])
      ensures Copied(f, loadSize, cacheFileDataSize)
    {
      if shuffle {
        forall k | 0 <= k < |file| {
          shuffleBuffer[k] := file[k];
        }
        var t := 0;
        while t < |idxList|
          invariant t <= |idxList|
          invariant buffer[..loadSize] == old(buffer[..loadSize]) && shuffleBuffer[..] == file
          invariant Copied(f, loadSize, Mul(t, dataSize))
        {
          CopyRow(t, idxList[t], loadSize, f);
          t := t + 1;
        }
      } else {
        PlainFile(source, f);
        forall k | 0 <= k < |file| {
          buffer[loadSize + k] := file[k];
        }
        assert buffer[loadSize..loadSize + |file|] == file;
      }
    }

    /** Takes the next file from the queue, which starts over when it is empty, and appends it. */
    method AppendFile(loadSize: nat, ghost base: nat)
      requires Configured() && QueueAt() && Holds(loadSize) && loadSize + cacheFileDataSize <= totalBufferSize
      requires Mul(loaded, cacheFileDataSize) - loadSize == base
      modifies `fileQueue, `loaded, buffer, shuffleBuffer
      ensures QueueAt() && Holds(loadSize + cacheFileDataSize) && loaded == old(loaded) + 1
      ensures Mul(loaded, cacheFileDataSize) - (loadSize + cacheFileDataSize) == base
    {
      hide Mul, Rem, Source.Valid, Source.FileSize, Fits, Slice, ShuffledFile;
      if |fileQueue| == 0 {
        fileQueue := fileQueue + cacheFiles;
      }
      var file := fileQueue[0];
      LoadFile(file, loadSize, Rem(loaded, |cacheFiles|));
      fileQueue := fileQueue[1..];
      NextFile(source, base, loadSize, loaded, buffer[..]);
      loaded := loaded + 1;
    }

    /** Appends whole files while there is room for one more, starting over at the end of the list. */
    method FillBuffer(size: nat)
      requires Configured() && QueueAt() && Holds(size)
      modifies `total, `fileQueue, `loaded, buffer, shuffleBuffer
      ensures QueueAt() && total == Refilled(cacheFileDataSize, size) && Holds(total)
      ensures Mul(loaded, cacheFileDataSize) - total == old(Mul(loaded, cacheFileDataSize)) - size
    {
      hide Mul, Rem, Source.Valid, Source.FileSize, Fits, Slice, ShuffledFile;
      var loadSize := size;
      ghost var base := Mul(loaded, cacheFileDataSize) - size;
      while loadSize <= totalBufferSize - cacheFileDataSize
        invariant Configured() && QueueAt() && Holds(loadSize)
        invariant Mul(loaded, cacheFileDataSize) - loadSize == base
        invariant Refilled(cacheFileDataSize, loadSize) == Refilled(cacheFileDataSize, size)
        decreases totalBufferSize - loadSize
      {
        AppendFile(loadSize, base);
        loadSize := loadSize + cacheFileDataSize;
      }
      total := loadSize;
    }

    /** memmove to the front. */
    method MoveDown(from: nat, len: nat)
      requires from + len <= buffer.Length
      modifies buffer
      ensures buffer[..len] == old(buffer[from..from + len])
    {
      forall i | 0 <= i < len {
        buffer[i] := buffer[from + i];
      }
    }

    /** memmove of what is left to the front. */
    method KeepLeft(usedBufferSize: nat)
      requires Configured() && Consistent() && usedBufferSize == Mul(current, batchDataSize) <= total
      modifies buffer
      ensures Configured() && QueueAt() && Holds(total - usedBufferSize)
      ensures Mul(start + current, batchDataSize) + (total - usedBufferSize) == Mul(loaded, cacheFileDataSize)
    {
      hide *;
      LeftHeld(this, total - usedBufferSize);
      MoveDown(usedBufferSize, total - usedBufferSize);
      StillHeld(this, total - usedBufferSize, Mul(start + current, batchDataSize));
    }

    /** Drops what has been read, once it is a whole file or more, and loads files behind the rest. */
    method FillUp()
      requires Pending()
      modifies this, buffer, shuffleBuffer
      ensures Valid() && start + current == old(start + current)
    {
      hide *;
      PendingFacts(this);
      var usedBufferSize := Mul(current, batchDataSize);
      if usedBufferSize < cacheFileDataSize {
        NothingDropped(this);
        return;
      }
      KeepLeft(usedBufferSize);
      FillBuffer(total - usedBufferSize);
      start := start + current;
      current := 0;
      RefilledValid(this);
    }

    /** Hands out the batch after the last one. */
    method ReadBatchData(idx: nat) returns (v: seq<Byte>)
      requires Valid() && idx == start + current
      modifies `prevIndex, `start, `current
      ensures Pending() && start + current == idx + 1
      ensures v == Slice(source, Mul(idx, batchDataSize), batchDataSize)
    {
      hide Mul, Rem, Source.Valid, Source.FileSize, Fits, Slice;
      var blockSize := batchDataSize;
      LevelBounds(cacheFileDataSize, batchDataSize, idx);
      SteadyFits(cacheFileDataSize, batchDataSize, Level(current, total));
      if idx <= prevIndex {
        start := idx;
        current := 0;
      }
      prevIndex := idx;
      var src := Mul(idx - start, blockSize);
      Reading(source, start, current, blockSize, total, buffer[..]);
      v := buffer[src..src + blockSize];
      current := current + 1;
    }
  }

  /** Reading from the start: the i-th batch is the i-th piece of the stream. */
  method ReadBatches(r: RingBuffer, count: nat) returns (batches: seq<seq<Byte>>)
    requires r.Valid() && r.start + r.current == 0
    modifies r, r.buffer, r.shuffleBuffer
    ensures |batches| == count
    ensures forall i :: 0 <= i < count ==>
              batches[i] == Slice(r.source, Mul(i, r.batchDataSize), r.batchDataSize)
  {
    batches := [];
    while |batches| < count
      invariant |batches| <= count
      invariant r.Valid() && r.start + r.current == |batches|
      invariant forall i :: 0 <= i < |batches| ==>
                  batches[i] == Slice(r.source, Mul(i, r.batchDataSize), r.batchDataSize)
    {
      var v := r.ReadBatchData(|batches|);
      r.FillUp();
      batches := batches + [v];
    }
  }

  lemma Grown(before: seq<Byte>, after: seq<Byte>, at: nat, to: nat, d: nat, file: seq<Byte>)
    requires |before| == |after| && at <= to && to + d <= |after| && to - at + d <= |file|
    requires before[at..to] == file[..to - at] && after[..to] == before[..to]
    requires after[to..to + d] == file[to - at..to - at + d]
    ensures after[..at] == before[..at] && after[at..to + d] == file[..to - at + d]
  {
    assert after[at..to] == after[..to][at..] == before[at..to];
    assert after[at..to + d] == after[at..to] + after[to..to + d];
    assert after[..at] == after[..to][..at];
    assert before[..at] == before[..to][..at];
  }

  /** The file just loaded continues the stream. */
  lemma NextFile(s: Source, base: nat, len: nat, loaded: nat, buffer: seq<Byte>)
    requires s.Valid() && base + len == Mul(loaded, s.FileSize()) && len + s.FileSize() <= |buffer|
    requires buffer[..len] == Slice(s, base, len)
    requires buffer[len..len + s.FileSize()] == ShuffledFile(s, Rem(loaded, |s.files|))
    ensures buffer[..len + s.FileSize()] == Slice(s, base, len + s.FileSize())
    ensures Mul(loaded + 1, s.FileSize()) == Mul(loaded, s.FileSize()) + s.FileSize()
    ensures Rem(loaded + 1, |s.files|) == if Rem(loaded, |s.files|) + 1 == |s.files| then 0 else Rem(loaded, |s.files|) + 1
  {
    FileInStream(s, loaded);
    SliceJoin(s, base, len, s.FileSize());
    assert buffer[..len + s.FileSize()] == buffer[..len] + buffer[len..len + s.FileSize()];
    NextRemainder(loaded, |s.files|);
  }

  lemma NextRemainder(k: nat, n: nat)
    requires n > 0
    ensures Rem(k + 1, n) == if Rem(k, n) + 1 == n then 0 else Rem(k, n) + 1
  {
    if k % n + 1 == n {
      DivMod(k + 1, k / n + 1, 0, n);
    } else {
      DivMod(k + 1, k / n, k % n + 1, n);
    }
  }

  /** What a read leaves, spelled out. */
  lemma PendingFacts(r: RingBuffer)
    requires r.Pending()
    ensures r.Configured() && r.Consistent() && r.QueueAt() && r.cacheFileDataSize > 0
    ensures Mul(r.current, r.batchDataSize) <= r.total <= r.buffer.Length && r.buffer != r.shuffleBuffer
    ensures r.prevIndex == r.start + r.current - 1 && r.current > 0
    ensures var used := Mul(r.current, r.batchDataSize);
            LevelAfter(r.cacheFileDataSize, r.batchDataSize, r.start + r.current)
            == if used < r.cacheFileDataSize then Level(r.current, r.total)
               else Level(0, Refilled(r.cacheFileDataSize, r.total - used))
  {
    hide Mul, Rem, Refilled, Source.Valid, Source.FileSize, Fits, Slice;
    LevelBounds(r.cacheFileDataSize, r.batchDataSize, r.start + r.current - 1);
    SteadyFits(r.cacheFileDataSize, r.batchDataSize, Level(r.current - 1, r.total));
  }

  lemma NothingDropped(r: RingBuffer)
    requires r.Configured() && r.Consistent() && r.prevIndex == r.start + r.current - 1 && r.current > 0
    requires Level(r.current, r.total) == LevelAfter(r.cacheFileDataSize, r.batchDataSize, r.start + r.current)
    ensures r.Valid()
  {
    hide Mul, Rem, LevelAfter, Source.Valid, Source.FileSize, Fits, Slice;
  }

  /** The unread bytes continue the stream. */
  lemma LeftHeld(r: RingBuffer, left: nat)
    requires r.Configured() && r.Consistent() && Mul(r.current, r.batchDataSize) + left == r.total
    ensures r.total <= r.buffer.Length && r.source.Valid() && r.QueueAt()
    ensures r.buffer[Mul(r.current, r.batchDataSize)..Mul(r.current, r.batchDataSize) + left]
         == Slice(r.source, Mul(r.start + r.current, r.batchDataSize), left)
    ensures Mul(r.start + r.current, r.batchDataSize) + left == Mul(r.loaded, r.cacheFileDataSize)
  {
    hide Mul, Rem, Source.Valid, Source.FileSize, Fits, Slice;
    Dropped(r.source, r.start, r.current, r.batchDataSize, r.total, r.loaded, r.buffer[..]);
  }

  lemma StillHeld(r: RingBuffer, left: nat, base: nat)
    requires r.Configured() && left <= r.buffer.Length && base + left == Mul(r.loaded, r.cacheFileDataSize)
    requires r.buffer[..left] == Slice(r.source, base, left)
    ensures r.Holds(left)
  {
    hide Mul, Source.Valid, Source.FileSize, Fits, Slice;
  }

  lemma RefilledValid(r: RingBuffer)
    requires r.Configured() && r.QueueAt() && r.Holds(r.total) && r.current == 0 && r.prevIndex == r.start - 1
    requires Mul(r.start, r.batchDataSize) + r.total == Mul(r.loaded, r.cacheFileDataSize)
    requires Level(0, r.total) == LevelAfter(r.cacheFileDataSize, r.batchDataSize, r.start)
    ensures r.Valid()
  {
    hide Mul, Rem, LevelAfter, Source.Valid, Source.FileSize, Fits, Slice, RingBuffer.Holds;
  }

  /** What stays behind after dropping the batches read. */
  lemma Dropped(s: Source, start: nat, current: nat, batch: nat, total: nat, loaded: nat, buffer: seq<Byte>)
    requires s.Valid() && Mul(start, batch) + total == Mul(loaded, s.FileSize()) && total <= |buffer|
    requires buffer[..total] == Slice(s, Mul(start, batch), total) && Mul(current, batch) <= total
    ensures Mul(start + current, batch) == Mul(start, batch) + Mul(current, batch)
    ensures buffer[Mul(current, batch)..total]
         == Slice(s, Mul(start + current, batch), total - Mul(current, batch))
  {
    assert Mul(start + current, batch) == Mul(start, batch) + Mul(current, batch);
    hide *;
    SliceOfSlice(s, Mul(start, batch), total, Mul(current, batch), total);
    assert buffer[..total][Mul(current, batch)..total] == buffer[Mul(current, batch)..total];
  }

  /** Where the next batch lies. */
  lemma Reading(s: Source, start: nat, current: nat, batch: nat, total: nat, buffer: seq<Byte>)
    requires s.Valid() && total <= |buffer| && Mul(current, batch) + batch <= total
    requires buffer[..total] == Slice(s, Mul(start, batch), total)
    ensures buffer[Mul(current, batch)..Mul(current, batch) + batch]
         == Slice(s, Mul(start + current, batch), batch)
  {
    assert Mul(start + current, batch) == Mul(start, batch) + Mul(current, batch);
    hide *;
    var used := Mul(current, batch);
    SliceOfSlice(s, Mul(start, batch), total, used, used + batch);
    assert buffer[..total][used..used + batch] == buffer[used..used + batch];
  }
}
