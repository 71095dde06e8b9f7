/** Shapes, sizes and C-contiguous strides, and what narrowing the first dimension cuts out. */
module Shapes {
  import opened Arithmetic

  import ViewTree

  function Product(shape: seq<nat>): nat {
    if shape == [] then 1 else Mul(shape[0], Product(shape[1..]))
  }

  function Strides(shape: seq<nat>): (strides: seq<nat>)
    ensures |strides| == |shape|
  {
    if shape == [] then [] else [Product(shape[1..])] + Strides(shape[1..])
  }

  lemma {:induction false} StrideAt(shape: seq<nat>, i: nat)
    requires i < |shape|
    ensures Strides(shape)[i] == Product(shape[i + 1..])
  {
    if i > 0 {
      StrideAt(shape[1..], i - 1);
      assert shape[1..][i..] == shape[i + 1..];
    }
  }

  /** Works from the last dimension to the first. */
  method GetContiguousStrides(shape: seq<nat>) returns (strides: seq<nat>)
    ensures strides == Strides(shape)
  {
    if |shape| == 0 {
      return [];
    }
    strides := seq(|shape|, _ => 1);
    var i := |shape| - 2;
    assert shape[|shape|..] == [];
    while i >= 0
      invariant -1 <= i <= |shape| - 2 && |strides| == |shape|
      invariant forall j :: 0 <= j <= i ==> strides[j] == 1
      invariant forall j :: i < j < |shape| ==> strides[j] == Product(shape[j + 1..])
    {
      assert shape[i + 1..] == [shape[i + 1]] + shape[i + 2..];
      strides := strides[i := strides[i] * (strides[i + 1] * shape[i + 1])];
      assert strides[i] == Product(shape[i + 1..]);
      i := i - 1;
    }
    forall j | 0 <= j < |shape|
      ensures strides[j] == Strides(shape)[j]
    {
      StrideAt(shape, j);
    }
  }

  // ---- What strides are for --------------------------------------------------------------------

  predicate InShape(index: seq<nat>, shape: seq<nat>) {
    |index| == |shape| && forall i :: 0 <= i < |shape| ==> index[i] < shape[i]
  }

  /** Where the element at `index` lies. */
  function Position(index: seq<nat>, strides: seq<nat>): nat
    requires |index| == |strides|
  {
    if index == [] then 0 else Mul(index[0], strides[0]) + Position(index[1..], strides[1..])
  }

  /** The index of the element at a position. */
  function IndexAt(position: nat, shape: seq<nat>): (index: seq<nat>)
    ensures |index| == |shape|
  {
    if shape == [] then []
    else
      var stride := Product(shape[1..]);
      if stride == 0 then seq(|shape|, _ => 0)
      else [Div(position, stride)] + IndexAt(Rem(position, stride), shape[1..])
  }

  lemma {:induction false} PositionInside(index: seq<nat>, shape: seq<nat>)
    requires InShape(index, shape)
    ensures Position(index, Strides(shape)) < Product(shape)
    ensures IndexAt(Position(index, Strides(shape)), shape) == index
  {
    if shape != [] {
      PositionInside(index[1..], shape[1..]);
      var stride, below := Product(shape[1..]), Position(index[1..], Strides(shape[1..]));
      BelowProduct(index[0], shape[0], stride);
      DivMod(Mul(index[0], stride) + below, index[0], below, stride);
      assert Strides(shape)[1..] == Strides(shape[1..]);
      assert index == [index[0]] + index[1..];
    }
  }

  lemma {:induction false} IndexInside(position: nat, shape: seq<nat>)
    requires position < Product(shape)
    ensures InShape(IndexAt(position, shape), shape)
    ensures Position(IndexAt(position, shape), Strides(shape)) == position
  {
    if shape != [] {
      var stride := Product(shape[1..]);
      assert stride > 0;
      var q, r := Div(position, stride), Rem(position, stride);
      assert position == Mul(q, stride) + r;
      IndexInside(r, shape[1..]);
      QuotientBelow(position, shape[0], stride);
      var index := IndexAt(position, shape);
      assert index[1..] == IndexAt(r, shape[1..]);
      assert Strides(shape)[1..] == Strides(shape[1..]);
      forall i | 0 <= i < |shape|
        ensures index[i] < shape[i]
      {
        if i > 0 {
          assert index[i] == index[1..][i - 1] && shape[i] == shape[1..][i - 1];
        }
      }
    }
  }

  // ---- Narrowing -------------------------------------------------------------------------------

  /** The shape of rows `start` up to `start + length`, and where they begin and how many elements they
      are. */
  function NarrowedShape(shape: seq<nat>, length: nat): seq<nat>
    requires |shape| > 0
  {
    shape[0 := length]
  }

  function NarrowedOffset(shape: seq<nat>, start: nat): nat
    requires |shape| > 0
  {
    Mul(start, Product(shape[1..]))
  }

  /** The narrowed part lies inside the whole. */
  lemma NarrowedInside(shape: seq<nat>, start: nat, length: nat)
    requires |shape| > 0 && start + length <= shape[0]
    ensures NarrowedShape(shape, length)[1..] == shape[1..]
    ensures Product(NarrowedShape(shape, length)) == Mul(length, Product(shape[1..]))
    ensures NarrowedOffset(shape, start) + Product(NarrowedShape(shape, length)) <= Product(shape)
  {
    MulPlus(start, length, Product(shape[1..]));
    MulPlus(start + length, shape[0] - start - length, Product(shape[1..]));
  }

  /** It is exactly the elements with a first index in range, and the part's own strides find them,
      counted from its beginning. */
  lemma NarrowedElements(shape: seq<nat>, start: nat, length: nat, index: seq<nat>)
    requires |shape| > 0 && start + length <= shape[0] && InShape(index, shape)
    ensures var offset, size := NarrowedOffset(shape, start), Product(NarrowedShape(shape, length));
            offset <= Position(index, Strides(shape)) < offset + size <==> start <= index[0] < start + length
    ensures start <= index[0] < start + length ==>
              && InShape(index[0 := index[0] - start], NarrowedShape(shape, length))
              && Position(index[0 := index[0] - start], Strides(NarrowedShape(shape, length)))
                 == Position(index, Strides(shape)) - NarrowedOffset(shape, start)
  {
    NarrowedInside(shape, start, length);
    var inner, below := Product(shape[1..]), Position(index[1..], Strides(shape[1..]));
    PositionInside(index[1..], shape[1..]);
    assert Strides(shape)[1..] == Strides(shape[1..]);
    assert Position(index, Strides(shape)) == Mul(index[0], inner) + below;
    hide Mul;
    if index[0] < start {
      NextRow(index[0], start, inner);
    } else if index[0] < start + length {
      MulPlus(start, index[0] - start, inner);
      NextRow(index[0] - start, length, inner);
      var index', shape' := index[0 := index[0] - start], NarrowedShape(shape, length);
      assert index'[1..] == index[1..] && Strides(shape')[1..] == Strides(shape[1..]);
    } else {
      MulPlus(start, length, inner);
      MulPlus(start + length, index[0] - start - length, inner);
    }
  }

  lemma Nothing(a: nat, d: nat)
    requires d == 0
    ensures Mul(a, d) == 0
  {
  }

  /** Two parts fail the check exactly if rows have elements and the parts share a row, or one is empty and
      strictly inside the other. */
  lemma NarrowedDisjoint(shape: seq<nat>, start: nat, length: nat, start': nat, length': nat)
    requires |shape| > 0 && start + length <= shape[0] && start' + length' <= shape[0]
    ensures ViewTree.RangesClash(NarrowedOffset(shape, start), Product(NarrowedShape(shape, length)),
                     NarrowedOffset(shape, start'), Product(NarrowedShape(shape, length')))
       <==> Product(shape[1..]) > 0 && start < start' + length' && start' < start + length
  {
    var inner := Product(shape[1..]);
    NarrowedInside(shape, start, length);
    NarrowedInside(shape, start', length');
    hide Mul;
    MulPlus(start, length, inner);
    MulPlus(start', length', inner);
    if inner > 0 {
      Ordered(start' + length', start, inner);
      Ordered(start + length, start', inner);
    } else {
      Nothing(start, inner);
      Nothing(start', inner);
      Nothing(length, inner);
      Nothing(length', inner);
    }
  }

  lemma Ordered(a: nat, b: nat, d: nat)
    requires d > 0
    ensures Mul(a, d) <= Mul(b, d) <==> a <= b
  {
    if a < b {
      NextRow(a, b, d);
    } else if b < a {
      NextRow(b, a, d);
    }
  }
}
