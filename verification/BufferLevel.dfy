/** How full the ring buffer is from read to read, and for which batch sizes no read leaves the part
    of the buffer that holds data. */
module BufferLevel {
  import opened Arithmetic

  const NUM_OF_CACHE_FILE := 5

  /** Batches read since the last refill, and bytes held after it. */
  datatype Level = Level(current: nat, total: int)

  /** Whole files are loaded while one more fits. */
  function Refilled(file: nat, load: int): (total: int)
    requires file > 0
    decreases NUM_OF_CACHE_FILE * file - load
  {
    if load <= (NUM_OF_CACHE_FILE - 1) * file then Refilled(file, load + file) else load
  }

  function AfterRead(file: nat, batch: nat, level: Level): Level
    requires file > 0
  {
    var current := level.current + 1;
    if Mul(current, batch) < file then Level(current, level.total)
    else Level(0, Refilled(file, level.total - Mul(current, batch)))
  }

  function LevelAfter(file: nat, batch: nat, count: nat): Level
    requires file > 0
  {
    if count == 0 then Level(0, NUM_OF_CACHE_FILE * file) else AfterRead(file, batch, LevelAfter(file, batch, count - 1))
  }

  /** The next read lies inside the data. */
  predicate ReadFits(batch: nat, level: Level) {
    Mul(level.current, batch) + batch <= level.total
  }

  /** A batch is at most four files, or exceeds four files by a divisor of the fifth. */
  predicate Fits(file: nat, batch: nat) {
    batch <= 4 * file || (batch <= 5 * file && batch - 4 * file > 0 && file % (batch - 4 * file) == 0)
  }

  lemma {:induction false} RefilledBounds(file: nat, load: int)
    requires file > 0 && load <= NUM_OF_CACHE_FILE * file
    ensures 4 * file < Refilled(file, load) <= 5 * file
    ensures load <= Refilled(file, load)
    ensures 0 < load < file ==> Refilled(file, load) == load + 4 * file
    ensures load == 0 ==> Refilled(file, load) == 5 * file
    decreases NUM_OF_CACHE_FILE * file - load
  {
    if load <= (NUM_OF_CACHE_FILE - 1) * file {
      RefilledBounds(file, load + file);
      if 0 <= load < file {
        assert Refilled(file, load) == Refilled(file, load + file) == Refilled(file, load + 2 * file)
            == Refilled(file, load + 3 * file) == Refilled(file, load + 4 * file);
      }
    }
  }

  lemma MultipleAtLeast(a: int, x: int)
    requires a > 0 && x > 0 && a % x == 0
    ensures a >= x && (a - x) % x == 0
  {
    if a < x {
      DivMod(a, 0, a, x);
    }
    assert a == (a / x) * x;
    assert (a / x - 1) * x == a - x;
    DivMod(a - x, a / x - 1, 0, x);
  }

  /** What holds between reads. */
  predicate Steady(file: nat, batch: nat, level: Level) {
    && 4 * file < level.total <= 5 * file
    && (level.current == 0 || Mul(level.current, batch) < file)
    && (batch > 4 * file ==> level.current == 0 && (level.total - 4 * file) % (batch - 4 * file) == 0)
  }

  lemma SteadyFits(file: nat, batch: nat, level: Level)
    requires file > 0 && batch > 0 && Fits(file, batch) && Steady(file, batch, level)
    ensures ReadFits(batch, level) && Mul(level.current + 1, batch) == Mul(level.current, batch) + batch
  {
    assert Mul(level.current + 1, batch) == Mul(level.current, batch) + batch;
    if level.current == 0 {
      assert Mul(0, batch) == 0;
      if batch > 4 * file {
        MultipleAtLeast(level.total - 4 * file, batch - 4 * file);
      }
    } else {
      Multiples(level.current, batch);
    }
  }

  lemma SteadyStep(file: nat, batch: nat, level: Level)
    requires file > 0 && batch > 0 && Fits(file, batch) && Steady(file, batch, level)
    ensures Steady(file, batch, AfterRead(file, batch, level))
  {
    SteadyFits(file, batch, level);
    var used := Mul(level.current + 1, batch);
    var load := level.total - used;
    if used >= file {
      RefilledBounds(file, load);
      if batch > 4 * file {
        assert used == batch by { assert Mul(0, batch) == 0; }
        MultipleAtLeast(level.total - 4 * file, batch - 4 * file);
        hide *;
        assert 0 <= load < file;
      }
    } else {
      Multiples(level.current + 1, batch);
    }
  }

  /** Always more than four of the five slots are full, and the next read fits. */
  lemma {:induction false} LevelBounds(file: nat, batch: nat, count: nat)
    requires file > 0 && batch > 0 && Fits(file, batch)
    ensures Steady(file, batch, LevelAfter(file, batch, count))
  {
    if count > 0 {
      LevelBounds(file, batch, count - 1);
      SteadyStep(file, batch, LevelAfter(file, batch, count - 1));
    } else {
      assert Mul(0, batch) == 0;
    }
  }

  /** With batches of more than four files every read refills, and the data left over shrinks. */
  lemma {:induction false} LevelShrinks(file: nat, batch: nat, count: nat)
    requires file > 0 && 4 * file < batch <= 5 * file && Mul(count, batch - 4 * file) < file
    ensures LevelAfter(file, batch, count) == Level(0, 5 * file - Mul(count, batch - 4 * file))
  {
    var x := batch - 4 * file;
    if count > 0 {
      assert Mul(count, x) == Mul(count - 1, x) + x;
      assert Mul(1, batch) == batch;
      LevelShrinks(file, batch, count - 1);
      RefilledBounds(file, file - Mul(count, x));
    } else {
      assert Mul(0, x) == 0;
    }
  }

  /** Every read lies inside the data exactly for these batch sizes. */
  lemma FitsExactly(file: nat, batch: nat)
    requires file > 0 && batch > 0
    ensures (forall count: nat :: ReadFits(batch, LevelAfter(file, batch, count))) <==> Fits(file, batch)
  {
    if Fits(file, batch) {
      forall count: nat
        ensures ReadFits(batch, LevelAfter(file, batch, count))
      {
        LevelBounds(file, batch, count);
        SteadyFits(file, batch, LevelAfter(file, batch, count));
      }
    } else {
      var none: nat := 0;
      assert Mul(0, batch) == 0;
      if batch <= 5 * file {
        var x := batch - 4 * file;
        var c := file / x;
        assert file == c * x + file % x;
        LevelShrinks(file, batch, c);
        assert !ReadFits(batch, LevelAfter(file, batch, c));
      } else {
        assert !ReadFits(batch, LevelAfter(file, batch, none));
      }
    }
  }
}
