/** Binary floating-point formats, conversion between them on bit patterns without sign, and what it
    means in numbers.  All numbers are counted in units of the wide format's smallest subnormal. */
module FloatFormat {
  import opened Arithmetic
  import opened Bits

  /** Exponent and significand widths of a binary interchange format. */
  datatype Format = Format(nexp: nat, nsig: nat)
  {
    /** Width of the whole pattern. */
    function N(): nat { 1 + nexp + nsig }

    function Bias(): nat
      requires nexp >= 1
    {
      Pow2(nexp - 1) - 1
    }

    /** The pattern of infinity; larger ones are NaNs. */
    function Inf(): nat { Mul(Pow2(nexp) - 1, Pow2(nsig)) }

    /** Patterns without their sign. */
    function Magnitudes(): nat { Pow2(nexp + nsig) }
  }

  /** What the conversions need of the wide format `T` and the narrow format `U`: the bound on the
      difference keeps a shift inside an int, and `U`'s subnormals are normal in `T`. */
  ghost predicate Admissible(T: Format, U: Format) {
    && U.nsig >= 1 && U.nexp >= 2 && T.nexp >= 2
    && U.nsig + 1 <= T.nsig <= U.nsig + 29
    && U.Bias() + U.nsig <= T.Bias()
  }

  function Diff(T: Format, U: Format): nat
    requires Admissible(T, U)
  {
    T.nsig - U.nsig
  }

  /** How many binades the formats' smallest normals are apart. */
  function Gap(T: Format, U: Format): nat
    requires Admissible(T, U)
  {
    T.Bias() - U.Bias()
  }

  /** The number of a pattern, in units of the format's smallest subnormal.  Infinity's pattern is
      given the number that would follow the largest finite one. */
  function Number(F: Format, m: nat): nat {
    var e, sig := Shr(m, F.nsig), Low(m, F.nsig);
    if e == 0 then sig else Mul(Pow2(F.nsig) + sig, Pow2(e - 1))
  }

  /** The step from a pattern's number to the next. */
  function Unit(F: Format, m: nat): nat {
    var e := Shr(m, F.nsig);
    if e == 0 then 1 else Pow2(e - 1)
  }

  /** The number of a pattern of `U`, in units of `T`. */
  function NumberIn(T: Format, U: Format, m: nat): nat
    requires Admissible(T, U)
  {
    Mul(Number(U, m), Pow2(Gap(T, U) + Diff(T, U)))
  }

  function Distance(x: nat, y: nat): nat { if x <= y then y - x else x - y }

  /** roundTiesToEven of IEEE 754-2008 section 4.3.1, with overflow as in section 7.4: `r` is a
      pattern of `U` nearest to `x`, and the even one of two that are equally near. */
  ghost predicate IsNearest(T: Format, U: Format, x: nat, r: nat)
    requires Admissible(T, U)
  {
    && r <= U.Inf()
    && forall m :: 0 <= m <= U.Inf() ==>
         && Distance(x, NumberIn(T, U, r)) <= Distance(x, NumberIn(T, U, m))
         && (Distance(x, NumberIn(T, U, r)) == Distance(x, NumberIn(T, U, m)) && m != r ==> r % 2 == 0)
  }

  // ---- Numbers grow with patterns --------------------------------------------------------------

  lemma NumberNext(F: Format, m: nat)
    ensures Number(F, m + 1) == Number(F, m) + Unit(F, m)
  {
    var e, sig := Shr(m, F.nsig), Low(m, F.nsig);
    Successor(m, F.nsig);
    Split(m, F.nsig);
    assert Pow2(0) == 1 && Mul(Pow2(F.nsig) + 0, 1) == Pow2(F.nsig);
    hide Shr, Low, Mul;
    if e > 0 {
      NextInBinade(Pow2(F.nsig), sig, Pow2(e - 1));
    }
  }

  lemma NextInBinade(s: nat, sig: nat, unit: nat)
    ensures Mul(s + sig + 1, unit) == Mul(s + sig, unit) + unit
    ensures s == sig + 1 ==> Mul(s, 2 * unit) == Mul(s + sig, unit) + unit
  {
  }

  lemma {:induction false} NumberMonotone(F: Format, m: nat, k: nat)
    requires m <= k
    ensures Number(F, m) <= Number(F, k) && (m < k ==> Number(F, m) < Number(F, k))
    decreases k
  {
    if m < k {
      NumberMonotone(F, m, k - 1);
      NumberNext(F, k - 1);
    }
  }

  lemma NumberInMonotone(T: Format, U: Format, m: nat, k: nat)
    requires Admissible(T, U) && m <= k
    ensures NumberIn(T, U, m) <= NumberIn(T, U, k) && (m < k ==> NumberIn(T, U, m) < NumberIn(T, U, k))
  {
    NumberMonotone(U, m, k);
    Scale(Number(U, m), Number(U, k), Pow2(Gap(T, U) + Diff(T, U)));
  }

  lemma Scale(a: int, b: int, c: nat)
    requires c > 0
    ensures a < b ==> a * c < b * c
    ensures a <= b ==> a * c <= b * c
  {
  }

  /** It is enough to compare with the two neighbours. */
  lemma NeighboursSuffice(T: Format, U: Format, x: nat, r: nat)
    requires Admissible(T, U) && r <= U.Inf()
    requires r > 0 ==> NumberIn(T, U, r - 1) + NumberIn(T, U, r) <= 2 * x
    requires r > 0 && NumberIn(T, U, r - 1) + NumberIn(T, U, r) == 2 * x ==> r % 2 == 0
    requires r < U.Inf() ==> 2 * x <= NumberIn(T, U, r) + NumberIn(T, U, r + 1)
    requires r < U.Inf() && NumberIn(T, U, r) + NumberIn(T, U, r + 1) == 2 * x ==> r % 2 == 0
    ensures IsNearest(T, U, x, r)
  {
    forall m | 0 <= m <= U.Inf()
      ensures Distance(x, NumberIn(T, U, r)) <= Distance(x, NumberIn(T, U, m))
      ensures Distance(x, NumberIn(T, U, r)) == Distance(x, NumberIn(T, U, m)) && m != r ==> r % 2 == 0
    {
      if m < r {
        NumberInMonotone(T, U, m, r - 1);
        NumberInMonotone(T, U, r - 1, r);
      } else if r < m {
        NumberInMonotone(T, U, r, r + 1);
        NumberInMonotone(T, U, r + 1, m);
      }
    }
  }

  /** There is only one nearest pattern. */
  lemma NearestUnique(T: Format, U: Format, x: nat, r: nat, r': nat)
    requires Admissible(T, U) && IsNearest(T, U, x, r) && IsNearest(T, U, x, r') && r <= r'
    ensures r == r'
  {
    hide NumberIn, Admissible;
    if r < r' {
      assert Distance(x, NumberIn(T, U, r)) == Distance(x, NumberIn(T, U, r'));
      NumberInMonotone(T, U, r, r' - 1);
      NumberInMonotone(T, U, r' - 1, r');
    }
  }

  // ---- Downconversion --------------------------------------------------------------------------

  /** The biased exponent of a pattern without sign. */
  function Exponent(F: Format, m: nat): nat { Shr(m, F.nsig) }

  /** Downconversion of a pattern without sign, by range of the exponent. */
  function Down(T: Format, U: Format, m: nat): nat
    requires Admissible(T, U)
  {
    if m > T.Inf() then U.Inf() + (if Shr(Low(m, T.nsig), Diff(T, U)) == 0 then 1 else Shr(Low(m, T.nsig), Diff(T, U)))
    else if m == T.Inf() || Exponent(T, m) > T.Bias() + U.Bias() then U.Inf()
    else if Exponent(T, m) + U.nsig < Gap(T, U) + 1 then 0
    else if Exponent(T, m) > Gap(T, U) then NearestEven(Rebased(T, U, m), Diff(T, U))
    else NearestEven(Shr(Number(T, m), Gap(T, U)), Diff(T, U))
  }

  /** The pattern with `U`'s exponent bias and all of `T`'s significand bits. */
  function Rebased(T: Format, U: Format, m: nat): nat
    requires Admissible(T, U) && Exponent(T, m) > Gap(T, U)
  {
    Split(m, T.nsig);
    RebaseFits(Exponent(T, m), Gap(T, U), Pow2(T.nsig));
    m - Mul(Gap(T, U), Pow2(T.nsig))
  }

  lemma RebaseFits(e: nat, gap: nat, s: nat)
    requires e >= gap
    ensures e * s >= Mul(gap, s)
  {
  }

  lemma RebaseQuotient(e: nat, gap: nat, s: nat, g: nat, m: nat, y: nat)
    requires e >= gap && m == e * s + g && y == m - Mul(gap, s)
    ensures y == (e - gap) * s + g
  {
  }

  /** Above `q` times 2^diff the wide patterns climb evenly towards the next narrow number. */
  lemma WideBetweenNarrow(T: Format, U: Format, q: nat, t: nat)
    requires Admissible(T, U) && q >= Pow2(U.nsig) && t < Pow2(Diff(T, U))
    ensures Exponent(U, q) >= 1
    ensures var w := Pow2(Gap(T, U) + Exponent(U, q) - 1);
            && Number(T, Mul(Gap(T, U), Pow2(T.nsig)) + q * Pow2(Diff(T, U)) + t) == NumberIn(T, U, q) + t * w
            && NumberIn(T, U, q + 1) == NumberIn(T, U, q) + Pow2(Diff(T, U)) * w
  {
    hide Shr, Low, Mul, Pow2, Admissible;
    var d, gap, e, g := Diff(T, U), Gap(T, U), Exponent(U, q), Low(q, U.nsig);
    AdmissibleFacts(T, U);
    ExponentPositive(q, U.nsig);
    var w := Pow2(gap + e - 1);
    Split(q, U.nsig);
    PowAdd(U.nsig, d);
    PowAdd(e - 1, gap + d);
    PowAdd(gap + e - 1, d);
    assert Pow2(T.nsig) == Pow2(U.nsig) * Pow2(d);
    assert w * Pow2(d) == Pow2(e - 1) * Pow2(gap + d);
    Compose(gap, e, g, Pow2(U.nsig), Pow2(d), t, q);
    Joined(gap + e, T.nsig, g * Pow2(d) + t);
    NumberNext(U, q);
    Grow(Pow2(U.nsig), g, Pow2(d), t, w, Pow2(e - 1), Pow2(gap + d));
  }

  lemma AdmissibleFacts(T: Format, U: Format)
    requires Admissible(T, U)
    ensures Diff(T, U) >= 1 && Diff(T, U) + U.nsig == T.nsig && Gap(T, U) >= U.nsig >= 1
    ensures T.nexp >= 2 && U.nexp >= 2 && Gap(T, U) + U.Bias() == T.Bias() && U.Bias() >= 1
  {
  }

  lemma ExponentPositive(q: nat, n: nat)
    requires q >= Pow2(n)
    ensures Shr(q, n) >= 1
  {
    DivMonotone(Pow2(n), q, Pow2(n));
    DivMod(Pow2(n), 1, 0, Pow2(n));
  }

  lemma Compose(gap: nat, e: nat, g: nat, su: nat, dd: nat, t: nat, q: nat)
    requires q == e * su + g && g < su && t < dd
    ensures Mul(gap, su * dd) + q * dd + t == (gap + e) * (su * dd) + (g * dd + t)
    ensures g * dd + t < su * dd
  {
    Scale(g + 1, su, dd);
    NextMultiple(g, dd);
    Regroup3(gap, e, su, dd, g);
    hide *;
  }

  lemma Regroup3(gap: nat, e: nat, su: nat, dd: nat, g: nat)
    ensures Mul(gap, su * dd) + (e * su + g) * dd == (gap + e) * (su * dd) + g * dd
  {
    assert (e * su + g) * dd == e * (su * dd) + g * dd;
    assert (gap + e) * (su * dd) == gap * (su * dd) + e * (su * dd);
  }

  lemma Grow(su: nat, g: nat, dd: nat, t: nat, w: nat, u: nat, k: nat)
    requires w * dd == u * k
    ensures Mul(su * dd + (g * dd + t), w) == Mul(Mul(su + g, u), k) + t * w
    ensures Mul(Mul(su + g, u) + u, k) == Mul(Mul(su + g, u), k) + dd * w
  {
    assert (su * dd + g * dd) * w == (su + g) * (dd * w) == (su + g) * (u * k) == (su + g) * u * k;
  }

  /** The number lies between two neighbouring narrow ones, at `t` of 2^diff equal steps. */
  lemma RoundedIsNearest(T: Format, U: Format, x: nat, q: nat, t: nat, steps: nat, w: nat)
    requires Admissible(T, U) && q < U.Inf() && w > 0 && t < steps
    requires x == NumberIn(T, U, q) + t * w && NumberIn(T, U, q + 1) == NumberIn(T, U, q) + steps * w
    ensures IsNearest(T, U, x, if 2 * t > steps || (2 * t == steps && q % 2 == 1) then q + 1 else q)
  {
    hide NumberIn, Admissible, IsNearest;
    var up := 2 * t > steps || (2 * t == steps && q % 2 == 1);
    var r := if up then q + 1 else q;
    Scale(2 * t, steps, w);
    Scale(steps, 2 * t, w);
    Scale(t, steps, w);
    Scale(0, t, w);
    assert 2 * (t * w) == (2 * t) * w;
    if up {
      NumberInMonotone(T, U, q + 1, q + 2);
    } else if q > 0 {
      NumberInMonotone(T, U, q - 1, q);
    }
    NeighboursSuffice(T, U, x, r);
  }

  lemma InfIsNext(U: Format, m: nat)
    requires U.nexp >= 1
    ensures m < U.Inf() <==> Exponent(U, m) < Pow2(U.nexp) - 1
  {
    hide Pow2, Shr, Low;
    Split(m, U.nsig);
    var e, s, top := Shr(m, U.nsig), Pow2(U.nsig), Pow2(U.nexp) - 1;
    Carries(e, Low(m, U.nsig), s, top);
  }

  lemma Carries(e: nat, g: nat, s: nat, top: nat)
    requires g < s
    ensures e * s + g < Mul(top, s) <==> e < top
  {
    if e < top {
      assert (e + 1) * s <= top * s;
    } else {
      assert e * s >= top * s;
    }
  }

  /** In `U`'s normal range downconversion rounds to nearest, ties to even, up to and including the
      carry into the next binade and into infinity. */
  lemma NormalRangeNearest(T: Format, U: Format, m: nat)
    requires Admissible(T, U) && m < T.Inf() && Gap(T, U) < Exponent(T, m) <= T.Bias() + U.Bias()
    ensures IsNearest(T, U, Number(T, m), Down(T, U, m))
  {
    hide Shr, Low, Mul, Pow2, Admissible, IsNearest, NumberIn, Number, Format.Bias, Rebased;
    AdmissibleFacts(T, U);
    var d, gap, y := Diff(T, U), Gap(T, U), Rebased(T, U, m);
    var q, t := Shr(y, d), Low(y, d);
    Split(y, d);
    RebasedQuotient(T, U, m);
    WideBetweenNarrow(T, U, q, t);
    RoundedIsNearest(T, U, Number(T, m), q, t, Pow2(d), Pow2(gap + Exponent(U, q) - 1));
    RoundingByParts(y, d);
  }

  lemma RebasedQuotient(T: Format, U: Format, m: nat)
    requires Admissible(T, U) && m < T.Inf() && Gap(T, U) < Exponent(T, m) <= T.Bias() + U.Bias()
    ensures var q := Shr(Rebased(T, U, m), Diff(T, U));
            Pow2(U.nsig) <= q < U.Inf() && m == Mul(Gap(T, U), Pow2(T.nsig)) + Rebased(T, U, m)
  {
    hide Shr, Low, Mul, Pow2, Admissible, Number;
    AdmissibleFacts(T, U);
    var d, gap, e := Diff(T, U), Gap(T, U), Exponent(T, m);
    var y := Rebased(T, U, m);
    Split(m, T.nsig);
    Split(y, d);
    PowAdd(U.nsig, d);
    var q := Shr(y, d);
    BiasIsHalf(U);
    RebaseQuotient(e, gap, Pow2(T.nsig), Low(m, T.nsig), m, y);
    QuotientRange(e - gap, Low(m, T.nsig), Pow2(U.nsig), Pow2(d), q, Low(y, d), y, Pow2(U.nexp) - 1);
  }

  lemma BiasIsHalf(U: Format)
    requires U.nexp >= 1
    ensures 2 * U.Bias() == Pow2(U.nexp) - 2
  {
  }

  lemma QuotientRange(e: nat, g: nat, su: nat, dd: nat, q: nat, t: nat, y: nat, top: nat)
    requires 1 <= e < top && g < su * dd && t < dd && y == e * (su * dd) + g && y == q * dd + t && su > 0
    ensures su <= q < Mul(top, su)
  {
    QuotientBelow(e, g, su * dd, top, y);
    assert top * (su * dd) == (top * su) * dd;
    QuotientAtLeast(q, t, dd, su, y);
    QuotientLess(q, t, dd, top * su, y);
  }

  lemma QuotientBelow(e: nat, g: nat, s: nat, top: nat, y: nat)
    requires 1 <= e < top && g < s && y == e * s + g
    ensures s <= y < top * s
  {
    assert (e + 1) * s <= top * s && 1 * s <= e * s;
  }

  lemma QuotientAtLeast(q: nat, t: nat, dd: nat, lo: nat, y: nat)
    requires y == q * dd + t && t < dd && y >= lo * dd
    ensures q >= lo
  {
    Scale(q + 1, lo, dd);
  }

  lemma QuotientLess(q: nat, t: nat, dd: nat, hi: nat, y: nat)
    requires y == q * dd + t && t < dd && y < hi * dd
    ensures q < hi
  {
    Scale(hi, q, dd);
  }

  // ---- Overflow --------------------------------------------------------------------------------

  /** The number of a pattern whose exponent is at least 1. */
  lemma NumberNormal(F: Format, m: nat)
    requires Exponent(F, m) >= 1
    ensures Number(F, m) == Mul(Pow2(F.nsig) + Low(m, F.nsig), Pow2(Exponent(F, m) - 1))
    ensures Number(F, m) >= Pow2(F.nsig + Exponent(F, m) - 1)
    ensures Number(F, m) < Pow2(F.nsig + Exponent(F, m))
  {
    Split(m, F.nsig);
    var s, g, u := Pow2(F.nsig), Low(m, F.nsig), Pow2(Exponent(F, m) - 1);
    PowAdd(F.nsig, Exponent(F, m) - 1);
    assert Pow2(F.nsig + Exponent(F, m)) == 2 * Pow2(F.nsig + Exponent(F, m) - 1);
    hide *;
    InOneBinade(s, g, u);
  }

  lemma InOneBinade(s: nat, g: nat, u: nat)
    requires g < s && u > 0
    ensures s * u <= Mul(s + g, u) < 2 * (s * u)
  {
    Scale(s, s + g, u);
    Scale(s + g, 2 * s, u);
    assert (2 * s) * u == 2 * (s * u);
  }

  lemma NumberOfInf(T: Format, U: Format)
    requires Admissible(T, U)
    ensures NumberIn(T, U, U.Inf()) == Pow2(T.nsig + 2 * U.Bias() + Gap(T, U)) && U.Inf() > 0
  {
    AdmissibleFacts(T, U);
    BiasIsHalf(U);
    var e := 2 * U.Bias() + 1;
    assert U.Inf() == e * Pow2(U.nsig) + 0;
    Joined(e, U.nsig, 0);
    PowAdd(U.nsig, e - 1);
    PowAdd(U.nsig + (e - 1), Gap(T, U) + Diff(T, U));
    assert e * Pow2(U.nsig) >= 1 * Pow2(U.nsig) by { Scale(1, e, Pow2(U.nsig)); }
  }

  /** Above `U`'s exponents everything finite rounds to infinity. */
  lemma OverflowNearest(T: Format, U: Format, m: nat)
    requires Admissible(T, U) && m < T.Inf() && Exponent(T, m) > T.Bias() + U.Bias()
    ensures Down(T, U, m) == U.Inf() && IsNearest(T, U, Number(T, m), U.Inf())
  {
    AdmissibleFacts(T, U);
    NumberNormal(T, m);
    NumberOfInf(T, U);
    var x := Number(T, m);
    var big := T.nsig + 2 * U.Bias() + Gap(T, U);
    assert big <= T.nsig + Exponent(T, m) - 1;
    hide *;
    PowMonotone(big, T.nsig + Exponent(T, m) - 1);
    NumberInMonotone(T, U, U.Inf() - 1, U.Inf());
    NeighboursSuffice(T, U, x, U.Inf());
  }

  // ---- Gradual underflow -----------------------------------------------------------------------

  /** Up to `U`'s smallest normal the narrow numbers are the multiples of one unit. */
  lemma NumberSubnormal(T: Format, U: Format, q: nat)
    requires Admissible(T, U) && q <= Pow2(U.nsig)
    ensures NumberIn(T, U, q) == q * Pow2(Gap(T, U) + Diff(T, U))
  {
    if q < Pow2(U.nsig) {
      Joined(0, U.nsig, q);
    } else {
      Joined(1, U.nsig, 0);
      assert Pow2(0) == 1;
    }
  }

  lemma SmallestNormalBelowInf(U: Format)
    requires U.nexp >= 2
    ensures Pow2(U.nsig) < U.Inf()
  {
    assert Pow2(U.nexp) >= 4;
    Scale(1, Pow2(U.nexp) - 1, Pow2(U.nsig));
  }

  /** Below `U`'s smallest normal, rounding the quotient is rounding to the nearest pattern. */
  lemma SmallNearest(T: Format, U: Format, x: nat)
    requires Admissible(T, U) && x < Pow2(U.nsig) * Pow2(Gap(T, U) + Diff(T, U))
    ensures IsNearest(T, U, x, NearestEven(x, Gap(T, U) + Diff(T, U)))
  {
    hide Admissible, IsNearest, NumberIn, Shr, Low, Pow2, Gap, Diff;
    AdmissibleFacts(T, U);
    var k := Gap(T, U) + Diff(T, U);
    var q, t := Shr(x, k), Low(x, k);
    Split(x, k);
    QuotientLess(q, t, Pow2(k), Pow2(U.nsig), x);
    NumberSubnormal(T, U, q);
    NumberSubnormal(T, U, q + 1);
    SmallestNormalBelowInf(U);
    assert (q + 1) * Pow2(k) == q * Pow2(k) + Pow2(k) * 1;
    RoundedIsNearest(T, U, x, q, t, Pow2(k), 1);
    RoundingByParts(x, k);
  }

  /** Below the normal range numbers are small. */
  lemma SmallNumber(T: Format, U: Format, m: nat)
    requires Admissible(T, U) && Exponent(T, m) <= Gap(T, U)
    ensures Number(T, m) < Pow2(U.nsig) * Pow2(Gap(T, U) + Diff(T, U))
    ensures Exponent(T, m) + U.nsig < Gap(T, U) + 1 ==> Number(T, m) < Pow2(Gap(T, U) + Diff(T, U))
  {
    AdmissibleFacts(T, U);
    PowAdd(U.nsig, Gap(T, U) + Diff(T, U));
    if Exponent(T, m) >= 1 {
      NumberNormal(T, m);
      var e := Exponent(T, m);
      assert T.nsig + e <= U.nsig + (Gap(T, U) + Diff(T, U));
      hide *;
      PowMonotone(T.nsig + e, U.nsig + (Gap(T, U) + Diff(T, U)));
      if e + U.nsig < Gap(T, U) + 1 {
        PowMonotone(T.nsig + e, Gap(T, U) + Diff(T, U));
      }
    } else {
      Split(m, T.nsig);
      assert Number(T, m) == Low(m, T.nsig);
      hide *;
      PowMonotone(T.nsig, U.nsig + (Gap(T, U) + Diff(T, U)));
      PowMonotone(T.nsig, Gap(T, U) + Diff(T, U));
    }
  }

  /** The shift of float_bits.hpp, line 155: how far the significand moves right below the normal range. */
  function RightShift(T: Format, U: Format, m: nat): nat
    requires Admissible(T, U) && Exponent(T, m) <= Gap(T, U)
  {
    Gap(T, U) + 1 - Exponent(T, m)
  }

  /** The significand with its implied bit. */
  function Significand(F: Format, m: nat): nat { Pow2(F.nsig) + Low(m, F.nsig) }

  /** Shifting the significand is dividing the number. */
  lemma ShiftedSignificand(T: Format, U: Format, m: nat)
    requires Admissible(T, U) && Gap(T, U) + 1 <= Exponent(T, m) + U.nsig && Exponent(T, m) <= Gap(T, U)
    ensures Exponent(T, m) >= 1
    ensures Shr(Number(T, m), Gap(T, U)) == Shr(Significand(T, m), RightShift(T, U, m))
    ensures Low(Number(T, m), Gap(T, U)) > 0 <==> Low(Significand(T, m), RightShift(T, U, m)) > 0
  {
    AdmissibleFacts(T, U);
    var e := Exponent(T, m);
    var x, s, r, gap := Number(T, m), Significand(T, m), RightShift(T, U, m), Gap(T, U);
    NumberNormal(T, m);
    assert x == s * Pow2(e - 1) && gap == (e - 1) + r;
    hide *;
    ShrShr(x, e - 1, r);
    assert s * Pow2(e - 1) + 0 == x;
    Joined(s, e - 1, 0);
    Scale(0, Low(s, r), Pow2(e - 1));
  }

  /** Where downconversion fails to round to nearest: a flushed number above half a unit, or an even
      tie made by cutting off bits that were not all zero. */
  predicate Misrounded(T: Format, U: Format, m: nat)
    requires Admissible(T, U)
  {
    && Exponent(T, m) <= Gap(T, U)
    && if Exponent(T, m) + U.nsig < Gap(T, U) + 1 then
         2 * Number(T, m) > Pow2(Gap(T, U) + Diff(T, U))
       else
         && Diff(T, U) >= 1
         && Low(Shr(Significand(T, m), RightShift(T, U, m)), Diff(T, U) + 1) == Pow2(Diff(T, U) - 1)
         && Low(Significand(T, m), RightShift(T, U, m)) > 0
  }

  /** Downconversion of a finite number is correctly rounded exactly where it is not misrounded. */
  lemma CorrectlyRoundedExactly(T: Format, U: Format, m: nat)
    requires Admissible(T, U) && m < T.Inf()
    ensures IsNearest(T, U, Number(T, m), Down(T, U, m)) <==> !Misrounded(T, U, m)
  {
    AdmissibleFacts(T, U);
    if Exponent(T, m) > T.Bias() + U.Bias() {
      OverflowNearest(T, U, m);
    } else if Exponent(T, m) > Gap(T, U) {
      NormalRangeNearest(T, U, m);
    } else {
      var x, k := Number(T, m), Gap(T, U) + Diff(T, U);
      var r := NearestEven(x, k);
      SmallNumber(T, U, m);
      SmallNearest(T, U, x);
      if Exponent(T, m) + U.nsig < Gap(T, U) + 1 {
        FlushRounds(x, k);
        assert Down(T, U, m) == 0;
        NearestIsOnly(T, U, x, r, 0);
      } else {
        ShiftedSignificand(T, U, m);
        TruncateThenRound(x, Gap(T, U), Diff(T, U));
        NearestIsOnly(T, U, x, r, Down(T, U, m));
      }
    }
  }

  lemma FlushRounds(x: nat, k: nat)
    requires x < Pow2(k)
    ensures NearestEven(x, k) == 0 <==> 2 * x <= Pow2(k)
  {
    DivMod(x, 0, x, Pow2(k));
  }

  lemma NearestIsOnly(T: Format, U: Format, x: nat, r: nat, r': nat)
    requires Admissible(T, U) && IsNearest(T, U, x, r)
    ensures IsNearest(T, U, x, r') <==> r == r'
  {
    hide IsNearest, NumberIn, Admissible;
    if IsNearest(T, U, x, r') {
      if r <= r' {
        NearestUnique(T, U, x, r, r');
      } else {
        NearestUnique(T, U, x, r', r);
      }
    }
  }

  /** Gradual underflow: never off by more than half a unit and the bits cut off; flushing loses
      less than a unit. */
  lemma UnderflowBound(T: Format, U: Format, m: nat)
    requires Admissible(T, U) && m < T.Inf() && Exponent(T, m) <= Gap(T, U)
    ensures var unit := Pow2(Gap(T, U) + Diff(T, U));
            var error := Distance(Number(T, m), NumberIn(T, U, Down(T, U, m)));
            if Exponent(T, m) + U.nsig < Gap(T, U) + 1 then Down(T, U, m) == 0 && error < unit
            else 2 * error < unit + 2 * Pow2(Gap(T, U))
  {
    AdmissibleFacts(T, U);
    SmallNumber(T, U, m);
    var x, gap, d := Number(T, m), Gap(T, U), Diff(T, U);
    if Exponent(T, m) + U.nsig < gap + 1 {
      NumberSubnormal(T, U, 0);
    } else {
      var r := NearestEven(Shr(x, gap), d);
      assert Down(T, U, m) == r;
      hide *;
      ShrShr(x, gap, d);
      Split(x, gap + d);
      QuotientLess(Shr(x, gap + d), Low(x, gap + d), Pow2(gap + d), Pow2(U.nsig), x);
      RoundingByParts(Shr(x, gap), d);
      NumberSubnormal(T, U, r);
      RoundedTwice(x, gap, d);
    }
  }

  /** Cutting off and then rounding. */
  lemma RoundedTwice(x: nat, gap: nat, d: nat)
    ensures 2 * Distance(x, NearestEven(Shr(x, gap), d) * Pow2(gap + d)) < Pow2(gap + d) + 2 * Pow2(gap)
  {
    hide *;
    Split(x, gap);
    NearestEvenClose(Shr(x, gap), d);
    PowAdd(gap, d);
    CloseScaled(Shr(x, gap), NearestEven(Shr(x, gap), d), Pow2(d), Pow2(gap), Low(x, gap), x);
  }

  lemma CloseScaled(s: nat, r: nat, dd: nat, g: nat, l: nat, x: nat)
    requires 2 * (r * dd - s) <= dd && 2 * (s - r * dd) <= dd && l < g && x == s * g + l
    ensures 2 * Distance(x, r * (g * dd)) < g * dd + 2 * g
  {
    ScaleTwice(r * dd, s, dd, g);
    assert r * dd * g == r * (g * dd);
    assert dd * g == g * dd;
    hide *;
    Apart(x, r * (g * dd), s * g, g * dd, g, l);
  }

  lemma ScaleTwice(a: nat, s: nat, dd: nat, g: nat)
    requires 2 * (a - s) <= dd && 2 * (s - a) <= dd
    ensures 2 * (a * g - s * g) <= dd * g && 2 * (s * g - a * g) <= dd * g
  {
    if g > 0 {
      Scale(2 * (a - s), dd, g);
      Scale(2 * (s - a), dd, g);
    }
  }

  lemma Apart(x: nat, a: nat, s: nat, unit: nat, g: nat, l: nat)
    requires 2 * (a - s) <= unit && 2 * (s - a) <= unit && l < g && x == s + l
    ensures 2 * Distance(x, a) < unit + 2 * g
  {
  }
}
