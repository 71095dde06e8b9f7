/** What the batch feeding delivers: the rows of the cache files, over and over, as one endless
    stream of bytes.  Within every file the rows come in one fixed order. */
module CyclicStream {
  import opened Arithmetic

  type Byte = b: int | 0 <= b < 256

  /** One variable's cache files: `rows` rows of `rowSize` bytes each. */
  datatype Source = Source(files: seq<seq<Byte>>, rows: nat, rowSize: nat, order: seq<nat>)
  {
    function FileSize(): nat { Mul(rows, rowSize) }

    ghost predicate Valid() {
      && |files| > 0 && rows > 0 && rowSize > 0 && |order| == rows
      && (forall f :: 0 <= f < |files| ==> |files[f]| == FileSize())
      && (forall t :: 0 <= t < rows ==> order[t] < rows)
    }
  }

  ghost predicate IsPermutation(order: seq<nat>) {
    && (forall t :: 0 <= t < |order| ==> order[t] < |order|)
    && (forall t, u :: 0 <= t < u < |order| ==> order[t] != order[u])
  }

  function Identity(rows: nat): (order: seq<nat>)
    ensures |order| == rows && forall t :: 0 <= t < rows ==> order[t] == t
  {
    seq<nat>(rows, t requires 0 <= t < rows => t)
  }

  /** The file and the row in it that stream row `r` comes from.  No row size in sight: all variables
      take row `r` from the same place. */
  function FileOf(files: nat, rows: nat, r: nat): (f: nat)
    requires files > 0 && rows > 0
    ensures f < files
  {
    Div(r, rows) % files
  }

  function RowOf(order: seq<nat>, r: nat): nat
    requires |order| > 0
  {
    order[r % |order|]
  }

  lemma RowInFile(rows: nat, size: nat, q: nat, j: nat)
    requires q < rows && j < size
    ensures q * size + j < Mul(rows, size)
  {
    BelowProduct(q, rows, size);
  }

  /** A byte of one file, with the rows in order. */
  function Shuffled(s: Source, f: nat, k: nat): Byte
    requires s.Valid() && f < |s.files| && k < s.FileSize()
  {
    QuotientBelow(k, s.rows, s.rowSize);
    RowInFile(s.rows, s.rowSize, s.order[Div(k, s.rowSize)], k % s.rowSize);
    s.files[f][s.order[Div(k, s.rowSize)] * s.rowSize + k % s.rowSize]
  }

  /** A whole file, its rows in order. */
  function ShuffledFile(s: Source, f: nat): (bytes: seq<Byte>)
    requires s.Valid() && f < |s.files|
    ensures |bytes| == s.FileSize()
  {
    seq<Byte>(s.FileSize(), k requires 0 <= k < s.FileSize() => Shuffled(s, f, k))
  }

  lemma ShuffledByte(s: Source, f: nat, t: nat, j: nat)
    requires s.Valid() && f < |s.files| && t < s.rows && j < s.rowSize
    ensures Mul(t, s.rowSize) + j < s.FileSize() && Mul(s.order[t], s.rowSize) + j < s.FileSize()
    ensures Shuffled(s, f, Mul(t, s.rowSize) + j) == s.files[f][Mul(s.order[t], s.rowSize) + j]
  {
    RowInFile(s.rows, s.rowSize, t, j);
    RowInFile(s.rows, s.rowSize, s.order[t], j);
    DivMod(Mul(t, s.rowSize) + j, t, j, s.rowSize);
  }

  /** Row `t` of the file is row `order[t]` as it was. */
  lemma ShuffledRow(s: Source, f: nat, t: nat)
    requires s.Valid() && f < |s.files| && t < s.rows
    ensures Mul(t, s.rowSize) + s.rowSize <= s.FileSize() && Mul(s.order[t], s.rowSize) + s.rowSize <= s.FileSize()
    ensures ShuffledFile(s, f)[Mul(t, s.rowSize)..Mul(t, s.rowSize) + s.rowSize]
         == s.files[f][Mul(s.order[t], s.rowSize)..Mul(s.order[t], s.rowSize) + s.rowSize]
  {
    NextRow(t, s.rows, s.rowSize);
    NextRow(s.order[t], s.rows, s.rowSize);
    hide Mul, Shuffled;
    var to, from, d := Mul(t, s.rowSize), Mul(s.order[t], s.rowSize), s.rowSize;
    var a, b := ShuffledFile(s, f)[to..to + d], s.files[f][from..from + d];
    forall j | 0 <= j < d
      ensures a[j] == b[j]
    {
      ShuffledByte(s, f, t, j);
    }
  }

  /** Rows in their own order are the file as it is. */
  lemma PlainFile(s: Source, f: nat)
    requires s.Valid() && f < |s.files| && forall t :: 0 <= t < s.rows ==> s.order[t] == t
    ensures ShuffledFile(s, f) == s.files[f]
  {
    forall k | 0 <= k < s.FileSize()
      ensures Shuffled(s, f, k) == s.files[f][k]
    {
      QuotientBelow(k, s.rows, s.rowSize);
    }
  }

  /** Byte `n` of the endless stream. */
  function At(s: Source, n: nat): Byte
    requires s.Valid()
  {
    FilePositive(s);
    Shuffled(s, Rem(Div(n, s.FileSize()), |s.files|), Rem(n, s.FileSize()))
  }

  lemma FilePositive(s: Source)
    requires s.Valid()
    ensures s.FileSize() > 0
  {
    Multiples(s.rows, s.rowSize);
  }

  function Slice(s: Source, from: nat, len: nat): (bytes: seq<Byte>)
    requires s.Valid()
    ensures |bytes| == len
  {
    seq<Byte>(len, i requires 0 <= i < len => At(s, from + i))
  }

  lemma SliceJoin(s: Source, from: nat, a: nat, b: nat)
    requires s.Valid()
    ensures Slice(s, from, a) + Slice(s, from + a, b) == Slice(s, from, a + b)
  {
  }

  lemma SliceOfSlice(s: Source, from: nat, len: nat, i: nat, j: nat)
    requires s.Valid() && i <= j <= len
    ensures Slice(s, from, len)[i..j] == Slice(s, from + i, j - i)
  {
  }

  /** The stream is one file after another. */
  lemma FileInStream(s: Source, k: nat)
    requires s.Valid()
    ensures Slice(s, Mul(k, s.FileSize()), s.FileSize()) == ShuffledFile(s, Rem(k, |s.files|))
  {
    forall i | 0 <= i < s.FileSize()
      ensures At(s, Mul(k, s.FileSize()) + i) == Shuffled(s, Rem(k, |s.files|), i)
    {
      DivMod(Mul(k, s.FileSize()) + i, k, i, s.FileSize());
    }
  }

  /** Byte `j` of stream row `r`. */
  lemma RowInStream(s: Source, r: nat, j: nat)
    requires s.Valid() && j < s.rowSize
    ensures RowOf(s.order, r) < s.rows && Mul(RowOf(s.order, r), s.rowSize) + j < s.FileSize()
    ensures At(s, Mul(r, s.rowSize) + j)
         == s.files[FileOf(|s.files|, s.rows, r)][Mul(RowOf(s.order, r), s.rowSize) + j]
  {
    var n := r * s.rowSize + j;
    FilePositive(s);
    RowInFile(s.rows, s.rowSize, RowOf(s.order, r), j);
    DivMod(n, r, j, s.rowSize);
    DivDiv(n, s.rowSize, s.rows);
    assert s.rowSize * s.rows == s.FileSize();
    DivMod(n % s.FileSize(), r % s.rows, j, s.rowSize);
  }

  /** The row of the files that stream row `r` is. */
  function RowBytes(s: Source, r: nat): (bytes: seq<Byte>)
    requires s.Valid()
    ensures |bytes| == s.rowSize
  {
    NextRow(RowOf(s.order, r), s.rows, s.rowSize);
    var at := Mul(RowOf(s.order, r), s.rowSize);
    s.files[FileOf(|s.files|, s.rows, r)][at..at + s.rowSize]
  }

  /** A batch is a run of stream rows. */
  lemma BatchRow(s: Source, iter: nat, batchSize: nat, j: nat)
    requires s.Valid() && j < batchSize
    ensures Mul(j, s.rowSize) + s.rowSize <= Mul(batchSize, s.rowSize)
    ensures Slice(s, Mul(iter, Mul(batchSize, s.rowSize)), Mul(batchSize, s.rowSize))
              [Mul(j, s.rowSize)..Mul(j, s.rowSize) + s.rowSize]
         == RowBytes(s, Mul(iter, batchSize) + j)
  {
    var d, r := s.rowSize, Mul(iter, batchSize) + j;
    NextRow(j, batchSize, d);
    RowStart(iter, batchSize, d, j);
    hide *;
    SliceOfSlice(s, Mul(iter, Mul(batchSize, d)), Mul(batchSize, d), Mul(j, d), Mul(j, d) + d);
    RowSlice(s, r);
  }

  /** Byte `n` of batch `iter`, found in the files: byte `n % rowSize` of a row that is `n / rowSize` rows
      after the batch's first. */
  lemma BatchByte(s: Source, iter: nat, batchSize: nat, n: nat)
    requires s.Valid() && n < Mul(batchSize, s.rowSize)
    ensures var r := Mul(iter, batchSize) + Div(n, s.rowSize);
            var f, q := Rem(Div(r, s.rows), |s.files|), s.order[Rem(r, s.rows)];
            && Mul(q, s.rowSize) + Rem(n, s.rowSize) < |s.files[f]|
            && (Slice(s, Mul(iter, Mul(batchSize, s.rowSize)), Mul(batchSize, s.rowSize))[n]
                == s.files[f][Mul(q, s.rowSize) + Rem(n, s.rowSize)])
  {
    var d, j, b := s.rowSize, n / s.rowSize, n % s.rowSize;
    var r := Mul(iter, batchSize) + j;
    QuotientBelow(n, batchSize, d);
    RowStart(iter, batchSize, d, j);
    RowInStream(s, r, b);
    assert Mul(iter, Mul(batchSize, d)) + n == Mul(r, d) + b;
  }

  lemma RowSlice(s: Source, r: nat)
    requires s.Valid()
    ensures Slice(s, Mul(r, s.rowSize), s.rowSize) == RowBytes(s, r)
  {
    var at, file := Mul(RowOf(s.order, r), s.rowSize), s.files[FileOf(|s.files|, s.rows, r)];
    NextRow(RowOf(s.order, r), s.rows, s.rowSize);
    hide Mul, At;
    var x, y := Slice(s, Mul(r, s.rowSize), s.rowSize), RowBytes(s, r);
    forall k | 0 <= k < s.rowSize
      ensures x[k] == y[k]
    {
      RowInStream(s, r, k);
      assert x[k] == At(s, Mul(r, s.rowSize) + k) && y[k] == file[at..at + s.rowSize][k];
    }
  }

  lemma RowStart(iter: nat, batchSize: nat, d: nat, j: nat)
    ensures Mul(iter, Mul(batchSize, d)) + Mul(j, d) == Mul(Mul(iter, batchSize) + j, d)
  {
    assert iter * (batchSize * d) == iter * batchSize * d;
  }

  /** Where stream row `r` comes from. */
  function Place(files: nat, order: seq<nat>, r: nat): (nat, nat)
    requires files > 0 && |order| > 0
  {
    (FileOf(files, |order|, r), RowOf(order, r))
  }

  lemma PlaceInPass(files: nat, order: seq<nat>, pass: nat, i: nat)
    requires files > 0 && |order| > 0 && i < Mul(|order|, files)
    ensures i / |order| < files && i == i / |order| * |order| + i % |order|
    ensures Place(files, order, Mul(pass, Mul(|order|, files)) + i) == (i / |order|, order[i % |order|])
  {
    var rows := |order|;
    var r := Mul(pass, Mul(rows, files)) + i;
    DivMod(r, pass, i, rows * files);
    DivDiv(r, rows, files);
    QuotientBelow(i, files, rows);
    DivMod(i, r / rows % files, r % rows, rows);
  }

  function Below(n: nat): set<nat> { if n == 0 then {} else Below(n - 1) + {n - 1} }

  lemma {:induction false} BelowSize(n: nat)
    ensures |Below(n)| == n && forall k: nat :: k in Below(n) <==> k < n
  {
    if n > 0 {
      BelowSize(n - 1);
    }
  }

  function Members(order: seq<nat>): set<nat> {
    if order == [] then {} else Members(order[..|order| - 1]) + {order[|order| - 1]}
  }

  lemma {:induction false} MembersSize(order: seq<nat>)
    requires forall t, u :: 0 <= t < u < |order| ==> order[t] != order[u]
    ensures |Members(order)| == |order| && forall q: nat :: q in Members(order) <==> q in order
  {
    if order != [] {
      var last := |order| - 1;
      MembersSize(order[..last]);
      assert order == order[..last] + [order[last]];
      assert order[last] !in Members(order[..last]);
    }
  }

  /** A permutation reaches every index. */
  lemma PermutationReaches(order: seq<nat>, q: nat) returns (t: nat)
    requires IsPermutation(order) && q < |order|
    ensures t < |order| && order[t] == q
  {
    MembersSize(order);
    BelowSize(|order|);
    SubsetOfSameSize(Members(order), Below(|order|));
    assert q in Below(|order|);
    t :| 0 <= t < |order| && order[t] == q;
  }

  lemma {:induction false} SubsetOfSameSize(a: set<nat>, b: set<nat>)
    requires a <= b && |a| == |b|
    ensures a == b
  {
    if x :| x in b && x !in a {
      SubsetSize(a, b - {x});
    }
  }

  lemma {:induction false} SubsetSize(a: set<nat>, b: set<nat>)
    requires a <= b
    ensures |a| <= |b|
  {
    if x :| x in a {
      SubsetSize(a - {x}, b - {x});
    }
  }

  function PlaceIn(files: nat, order: seq<nat>, pass: nat, k: nat): (nat, nat)
    requires files > 0 && |order| > 0
  {
    Place(files, order, Mul(pass, Mul(|order|, files)) + k)
  }

  /** One pass over all files visits every row of every file, and none of them twice. */
  lemma PassVisitsEachRowOnce(files: nat, order: seq<nat>, pass: nat, f: nat, q: nat) returns (i: nat)
    requires files > 0 && IsPermutation(order) && f < files && q < |order|
    ensures i < Mul(|order|, files)
    ensures forall k: nat :: k < Mul(|order|, files) ==>
              (PlaceIn(files, order, pass, k) == (f, q) <==> k == i)
  {
    var rows := |order|;
    var t := PermutationReaches(order, q);
    i := f * rows + t;
    BelowProduct(f, files, rows);
    DivMod(i, f, t, rows);
    forall k: nat | k < Mul(rows, files)
      ensures PlaceIn(files, order, pass, k) == (f, q) <==> k == i
    {
      PlaceInPass(files, order, pass, k);
    }
  }
}
