/** Bit operations on natural numbers, and their arithmetic meaning. */
module Bits {
  import opened Arithmetic

  function Pow2(n: nat): (p: nat)
    ensures p > 0
  {
    if n == 0 then 1 else 2 * Pow2(n - 1)
  }

  function And(x: nat, y: nat): nat {
    if x == 0 || y == 0 then 0
    else (if x % 2 == 1 && y % 2 == 1 then 1 else 0) + 2 * And(x / 2, y / 2)
  }

  function Or(x: nat, y: nat): nat
    decreases x + y
  {
    if x == 0 then y else if y == 0 then x
    else (if x % 2 == 1 || y % 2 == 1 then 1 else 0) + 2 * Or(x / 2, y / 2)
  }

  function Shl(x: nat, n: nat): nat { x * Pow2(n) }

  function Shr(x: nat, n: nat): nat { Div(x, Pow2(n)) }

  function Low(x: nat, n: nat): nat { x % Pow2(n) }

  lemma Split(x: nat, n: nat)
    ensures x == Shr(x, n) * Pow2(n) + Low(x, n) && Low(x, n) < Pow2(n)
  {
  }

  lemma Joined(q: nat, n: nat, r: nat)
    requires r < Pow2(n)
    ensures Shr(q * Pow2(n) + r, n) == q && Low(q * Pow2(n) + r, n) == r
  {
    DivMod(q * Pow2(n) + r, q, r, Pow2(n));
  }

  lemma {:induction false} PowAdd(a: nat, b: nat)
    ensures Pow2(a + b) == Pow2(a) * Pow2(b)
  {
    if a > 0 {
      PowAdd(a - 1, b);
    }
  }

  lemma {:induction false} PowMonotone(a: nat, b: nat)
    requires a <= b
    ensures Pow2(a) <= Pow2(b) && (a < b ==> 2 * Pow2(a) <= Pow2(b))
  {
    if a < b {
      PowMonotone(a, b - 1);
    }
  }

  lemma AndOdd(x: nat, y: nat)
    ensures And(x, 2 * y + 1) == x % 2 + 2 * And(x / 2, y)
  {
    assert (2 * y + 1) / 2 == y && (2 * y + 1) % 2 == 1;
  }

  lemma {:induction false} AndMask(x: nat, n: nat)
    ensures And(x, Pow2(n) - 1) == x % Pow2(n)
    decreases n
  {
    if n > 0 {
      AndMask(x / 2, n - 1);
      AndOdd(x, Pow2(n - 1) - 1);
      DivDiv(x, 2, Pow2(n - 1));
    }
  }

  lemma {:induction false} AndBit(x: nat, n: nat)
    ensures And(x, Pow2(n)) == (Shr(x, n) % 2) * Pow2(n)
    decreases n
  {
    if x > 0 {
      if n == 0 {
        assert And(x / 2, 0) == 0;
      } else {
        AndBit(x / 2, n - 1);
        DivDiv(x, 2, Pow2(n - 1));
      }
    }
  }

  lemma {:induction false} OrDisjoint(hi: nat, n: nat, lo: nat)
    requires lo < Pow2(n)
    ensures Or(hi * Pow2(n), lo) == hi * Pow2(n) + lo
    decreases n
  {
    if n > 0 && hi > 0 && lo > 0 {
      var m := Pow2(n - 1);
      assert hi * Pow2(n) == 2 * (hi * m);
      assert (2 * (hi * m)) / 2 == hi * m && (2 * (hi * m)) % 2 == 0;
      OrDisjoint(hi, n - 1, lo / 2);
    }
  }

  lemma {:induction false} OrCommutes(x: nat, y: nat)
    ensures Or(x, y) == Or(y, x)
    decreases x + y
  {
    if x > 0 && y > 0 {
      OrCommutes(x / 2, y / 2);
    }
  }

  /** Round to the nearest multiple of 2^n, ties to the even one; the quotient. */
  function NearestEven(x: nat, n: nat): nat {
    var q, r := x / Pow2(n), x % Pow2(n);
    if 2 * r > Pow2(n) || (2 * r == Pow2(n) && q % 2 == 1) then q + 1 else q
  }

  lemma NearestEvenExact(q: nat, n: nat)
    ensures NearestEven(q * Pow2(n), n) == q
  {
    DivMod(q * Pow2(n), q, 0, Pow2(n));
  }

  lemma NearestEvenShifted(c: nat, x: nat, n: nat)
    requires c % 2 == 0
    ensures NearestEven(c * Pow2(n) + x, n) == c + NearestEven(x, n)
  {
    var q, r, m := x / Pow2(n), x % Pow2(n), Pow2(n);
    var y := c * m + x;
    assert y == (c + q) * m + r by {
      assert x == q * m + r;
    }
    DivMod(y, c + q, r, m);
    EvenSum(c, q);
  }

  lemma EvenSum(c: nat, q: nat)
    requires c % 2 == 0
    ensures (c + q) % 2 == q % 2
  {
  }

  lemma NearestEvenMonotone(x: nat, y: nat, n: nat)
    requires x <= y
    ensures NearestEven(x, n) <= NearestEven(y, n)
  {
    DivMonotone(x, y, Pow2(n));
    var m := Pow2(n);
    assert x == (x / m) * m + x % m && y == (y / m) * m + y % m;
  }

  /** The rounding trick: add half, except to an even tie, and cut off. */
  lemma AddHalfRounds(x: nat, n: nat)
    requires n >= 1
    ensures NearestEven(x, n)
         == (if x % Pow2(n + 1) == Pow2(n - 1) then x else x + Pow2(n - 1)) / Pow2(n)
  {
    var m, h := Pow2(n), Pow2(n - 1);
    var q, r := x / m, x % m;
    assert x == q * m + r;
    assert m * 2 == Pow2(n + 1);
    DivDiv(x, m, 2);
    assert x % Pow2(n + 1) == (q % 2) * m + r;
    if x % Pow2(n + 1) != h {
      if r < h {
        DivMod(x + h, q, r + h, m);
      } else {
        DivMod(x + h, q + 1, r - h, m);
      }
    }
  }

  /** Adding one carries out of the low `n` bits or not. */
  lemma Successor(x: nat, n: nat)
    ensures if Low(x, n) + 1 < Pow2(n) then Shr(x + 1, n) == Shr(x, n) && Low(x + 1, n) == Low(x, n) + 1
            else Shr(x + 1, n) == Shr(x, n) + 1 && Low(x + 1, n) == 0
  {
    Split(x, n);
    var q, r := Shr(x, n), Low(x, n);
    if r + 1 < Pow2(n) {
      DivMod(x + 1, q, r + 1, Pow2(n));
    } else {
      DivMod(x + 1, q + 1, 0, Pow2(n));
    }
  }

  lemma RoundingByParts(y: nat, d: nat)
    ensures NearestEven(y, d)
         == if 2 * Low(y, d) > Pow2(d) || (2 * Low(y, d) == Pow2(d) && Shr(y, d) % 2 == 1) then Shr(y, d) + 1 else Shr(y, d)
  {
  }

  lemma LowNext(x: nat, n: nat)
    ensures Low(x, n + 1) == (Shr(x, n) % 2) * Pow2(n) + Low(x, n)
  {
    DivDiv(x, Pow2(n), 2);
    assert Pow2(n) * 2 == Pow2(n + 1);
  }

  lemma ShrShr(x: nat, a: nat, n: nat)
    ensures Shr(x, a + n) == Shr(Shr(x, a), n)
    ensures Low(x, a + n) == Low(Shr(x, a), n) * Pow2(a) + Low(x, a)
  {
    PowAdd(a, n);
    DivDiv(x, Pow2(a), Pow2(n));
  }

  /** Rounding a truncated number differs from rounding the number only if the truncated one is an
      even tie and something was cut off. */
  lemma TruncateThenRound(x: nat, a: nat, n: nat)
    requires n >= 1
    ensures NearestEven(Shr(x, a), n) == NearestEven(x, a + n) <==>
            !(Low(Shr(x, a), n + 1) == Pow2(n - 1) && Low(x, a) > 0)
  {
    var s, l, h := Shr(x, a), Low(x, a), Pow2(n - 1);
    var q, t := Shr(s, n), Low(s, n);
    Split(x, a);
    Split(s, n);
    RoundingByParts(s, n);
    RoundingByParts(x, a + n);
    ShrShr(x, a, n);
    LowNext(s, n);
    PowAdd(a, n);
    assert Pow2(n) == 2 * h;
    hide *;
    CompareHalves(t, l, Pow2(a), h);
    assert Pow2(a + n) == 2 * (h * Pow2(a));
    EvenTie(q, t, h);
  }

  lemma EvenTie(q: nat, t: nat, h: nat)
    requires t < 2 * h
    ensures (q % 2) * (2 * h) + t == h <==> q % 2 == 0 && t == h
  {
  }

  lemma CompareHalves(t: nat, l: nat, g: nat, h: nat)
    requires l < g
    ensures t < h ==> t * g + l < h * g
    ensures t > h ==> t * g + l > h * g
    ensures t == h ==> (t * g + l > h * g <==> l > 0)
    ensures t == h ==> (t * g + l == h * g <==> l == 0)
  {
    if t < h {
      assert (t + 1) * g <= h * g;
    } else if t > h {
      assert (h + 1) * g <= t * g;
    }
  }

  /** The rounded quotient is at most half a step away. */
  lemma NearestEvenClose(x: nat, n: nat)
    ensures var r := NearestEven(x, n) * Pow2(n); 2 * (r - x) <= Pow2(n) && 2 * (x - r) <= Pow2(n)
  {
    Split(x, n);
    RoundingByParts(x, n);
    NextMultiple(Shr(x, n), Pow2(n));
    hide *;
  }

  lemma NextMultiple(q: nat, m: nat)
    ensures (q + 1) * m == q * m + m
  {
  }
}
