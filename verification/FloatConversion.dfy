/** What the conversions between two binary formats keep: sign, class, order and, when widening, the
    exact number, so that narrowing a widened pattern gives the pattern back. */
module FloatConversion {
  import opened Arithmetic
  import opened Bits
  import opened FloatFormat

  // ---- Order -----------------------------------------------------------------------------------

  /** Where in the narrow format each branch of the downconversion lands. */
  lemma DownRange(T: Format, U: Format, m: nat)
    requires Admissible(T, U) && m <= T.Inf()
    ensures Down(T, U, m) <= U.Inf()
    ensures Exponent(T, m) <= Gap(T, U) ==> m < T.Inf() && Down(T, U, m) <= Pow2(U.nsig)
    ensures Exponent(T, m) > Gap(T, U) ==> Down(T, U, m) >= Pow2(U.nsig)
  {
    AdmissibleFacts(T, U);
    BiasIsHalf(T);
    InfIsNext(T, m);
    SmallestNormalBelowInf(U);
    if Exponent(T, m) <= Gap(T, U) {
      SmallNumber(T, U, m);
      var x, k := Number(T, m), Gap(T, U) + Diff(T, U);
      ShrShr(x, Gap(T, U), Diff(T, U));
      Split(x, k);
      RoundingByParts(Shr(x, Gap(T, U)), Diff(T, U));
      hide *;
      QuotientLess(Shr(x, k), Low(x, k), Pow2(k), Pow2(U.nsig), x);
    } else if m < T.Inf() && Exponent(T, m) <= T.Bias() + U.Bias() {
      RebasedQuotient(T, U, m);
      RoundingByParts(Rebased(T, U, m), Diff(T, U));
    }
  }

  lemma DownMonotone(T: Format, U: Format, m: nat, k: nat)
    requires Admissible(T, U) && m <= k <= T.Inf()
    ensures Down(T, U, m) <= Down(T, U, k)
  {
    AdmissibleFacts(T, U);
    BiasIsHalf(T);
    DownRange(T, U, m);
    DownRange(T, U, k);
    InfIsNext(T, m);
    InfIsNext(T, k);
    DivMonotone(m, k, Pow2(T.nsig));
    assert Exponent(T, m) <= Exponent(T, k);
    NumberMonotone(T, m, k);
    DivMonotone(Number(T, m), Number(T, k), Pow2(Gap(T, U)));
    NearestEvenMonotone(Shr(Number(T, m), Gap(T, U)), Shr(Number(T, k), Gap(T, U)), Diff(T, U));
    if Exponent(T, m) > Gap(T, U) {
      NearestEvenMonotone(Rebased(T, U, m), Rebased(T, U, k), Diff(T, U));
    }
  }

  /** The exact overflow threshold: half way between the largest finite number and the next one. */
  lemma OverflowExactly(T: Format, U: Format, m: nat)
    requires Admissible(T, U) && m < T.Inf()
    ensures U.Inf() > 0 && (Down(T, U, m) == U.Inf() <==>
              2 * Number(T, m) >= NumberIn(T, U, U.Inf() - 1) + NumberIn(T, U, U.Inf()))
  {
    var x, inf := Number(T, m), U.Inf();
    SmallestNormalBelowInf(U);
    DownRange(T, U, m);
    NumberInMonotone(T, U, inf - 1, inf);
    if Exponent(T, m) > Gap(T, U) {
      CorrectlyRoundedExactly(T, U, m);
      InfIsEven(U);
      hide Number, NumberIn, Down, Admissible, Format.Inf;
      if 2 * x >= NumberIn(T, U, inf - 1) + NumberIn(T, U, inf) {
        NeighboursSuffice(T, U, x, inf);
        NearestIsOnly(T, U, x, inf, Down(T, U, m));
      }
    } else {
      SmallNumber(T, U, m);
      NumberSubnormal(T, U, Pow2(U.nsig));
      NumberInMonotone(T, U, Pow2(U.nsig), inf - 1);
    }
  }

  lemma InfIsEven(F: Format)
    requires F.nsig >= 1
    ensures F.Inf() % 2 == 0
  {
    var top, h := Pow2(F.nexp) - 1, Pow2(F.nsig - 1);
    assert top * (2 * h) == 2 * (top * h);
  }

  // ---- Upconversion ----------------------------------------------------------------------------

  /** How often a subnormal's significand is doubled until it reaches the implied bit. */
  function Doublings(F: Format, sig: nat): nat
    requires sig > 0
    decreases Pow2(F.nsig) - sig
  {
    if sig >= Pow2(F.nsig) then 0 else 1 + Doublings(F, 2 * sig)
  }

  lemma {:induction false} Normalised(F: Format, sig: nat)
    requires 0 < sig < 2 * Pow2(F.nsig)
    ensures Pow2(F.nsig) <= sig * Pow2(Doublings(F, sig)) < 2 * Pow2(F.nsig)
    decreases Pow2(F.nsig) - sig
  {
    if sig < Pow2(F.nsig) {
      Normalised(F, 2 * sig);
      assert sig * (2 * Pow2(Doublings(F, 2 * sig))) == 2 * sig * Pow2(Doublings(F, 2 * sig));
    } else {
      assert Pow2(0) == 1;
    }
  }

  lemma {:induction false} FewDoublings(F: Format, sig: nat, k: nat)
    requires sig > 0 && sig * Pow2(k) >= Pow2(F.nsig)
    ensures Doublings(F, sig) <= k
    decreases k
  {
    if sig < Pow2(F.nsig) {
      assert k > 0 by { assert Pow2(0) == 1; }
      assert sig * (2 * Pow2(k - 1)) == 2 * sig * Pow2(k - 1);
      FewDoublings(F, 2 * sig, k - 1);
    }
  }

  /** Upconversion of a pattern without sign, by class. */
  function Up(T: Format, U: Format, h: nat): nat
    requires Admissible(T, U)
  {
    var e, sig := Exponent(U, h), Low(h, U.nsig);
    if e == Pow2(U.nexp) - 1 then T.Inf() + Mul(sig, Pow2(Diff(T, U)))
    else if e == 0 && sig == 0 then 0
    else if e == 0 then
      SubnormalFits(T, U, sig);
      var j := Doublings(U, sig);
      Mul(Gap(T, U) + 1 - j, Pow2(T.nsig)) + Mul(Mul(sig, Pow2(j)) - Pow2(U.nsig), Pow2(Diff(T, U)))
    else Mul(Gap(T, U), Pow2(T.nsig)) + Mul(h, Pow2(Diff(T, U)))
  }

  lemma SubnormalFits(T: Format, U: Format, sig: nat)
    requires Admissible(T, U) && 0 < sig < Pow2(U.nsig)
    ensures Doublings(U, sig) <= U.nsig <= Gap(T, U)
    ensures Mul(sig, Pow2(Doublings(U, sig))) >= Pow2(U.nsig)
  {
    AdmissibleFacts(T, U);
    Normalised(U, sig);
    Scale(1, sig, Pow2(U.nsig));
    FewDoublings(U, sig, U.nsig);
  }

  /** A widened subnormal: its fields, and its number. */
  lemma UpSubnormal(T: Format, U: Format, sig: nat)
    requires Admissible(T, U) && 0 < sig < Pow2(U.nsig)
    ensures Doublings(U, sig) <= U.nsig <= Gap(T, U)
    ensures Exponent(T, Up(T, U, sig)) == Gap(T, U) + 1 - Doublings(U, sig) >= 1
    ensures Significand(T, Up(T, U, sig)) == Mul(sig, Pow2(Diff(T, U))) * Pow2(Doublings(U, sig))
    ensures Number(T, Up(T, U, sig)) == NumberIn(T, U, sig)
  {
    AdmissibleFacts(T, U);
    SubnormalFits(T, U, sig);
    Normalised(U, sig);
    BiasIsHalf(U);
    Joined(0, U.nsig, sig);
    PowAdd(U.nsig, Diff(T, U));
    var j, d, gap := Doublings(U, sig), Diff(T, U), Gap(T, U);
    PowAdd(j, gap - j);
    PowAdd(gap, d);
    var s, dd, p, w := Pow2(U.nsig), Pow2(d), Pow2(j), Pow2(gap - j);
    var f := Mul(sig, p) - s;
    assert Up(T, U, sig) == (gap + 1 - j) * Pow2(T.nsig) + Mul(f, dd);
    assert Number(U, sig) == sig;
    Times(f, s, dd);
    Joined(gap + 1 - j, T.nsig, Mul(f, dd));
    NumberNormal(T, Up(T, U, sig));
    hide *;
    Spread(sig, p, dd, w, s, f);
  }

  lemma Times(f: nat, s: nat, dd: nat)
    requires f < s && dd > 0
    ensures Mul(f, dd) < s * dd
  {
  }

  lemma Spread(sig: nat, p: nat, dd: nat, w: nat, s: nat, f: nat)
    requires f + s == Mul(sig, p)
    ensures s * dd + Mul(f, dd) == Mul(sig, dd) * p
    ensures Mul(s * dd + Mul(f, dd), w) == Mul(sig, p * w * dd)
  {
    assert s * dd + f * dd == (s + f) * dd == (sig * p) * dd == (sig * dd) * p;
    assert ((sig * p) * dd) * w == sig * (p * w * dd);
  }

  /** A widened normal number: its fields, and its number. */
  lemma UpNormal(T: Format, U: Format, h: nat)
    requires Admissible(T, U) && 1 <= Exponent(U, h) < Pow2(U.nexp) - 1
    ensures Exponent(T, Up(T, U, h)) == Gap(T, U) + Exponent(U, h)
    ensures Low(Up(T, U, h), T.nsig) == Mul(Low(h, U.nsig), Pow2(Diff(T, U)))
    ensures Number(T, Up(T, U, h)) == NumberIn(T, U, h)
  {
    AdmissibleFacts(T, U);
    var d, gap, e, g := Diff(T, U), Gap(T, U), Exponent(U, h), Low(h, U.nsig);
    Split(h, U.nsig);
    Scale(1, e, Pow2(U.nsig));
    PowAdd(U.nsig, d);
    WideBetweenNarrow(T, U, h, 0);
    assert Pow2(T.nsig) == Pow2(U.nsig) * Pow2(d);
    Compose(gap, e, g, Pow2(U.nsig), Pow2(d), 0, h);
    Joined(gap + e, T.nsig, g * Pow2(d));
  }

  /** Widening is exact. */
  lemma WideningExact(T: Format, U: Format, h: nat)
    requires Admissible(T, U) && h < U.Inf()
    ensures Up(T, U, h) < T.Inf() && Number(T, Up(T, U, h)) == NumberIn(T, U, h)
  {
    hide Shr, Low, Pow2;
    AdmissibleFacts(T, U);
    InfIsNext(U, h);
    BiasIsHalf(U);
    BiasIsHalf(T);
    InfIsNext(T, Up(T, U, h));
    Split(h, U.nsig);
    if Exponent(U, h) >= 1 {
      UpNormal(T, U, h);
    } else if h > 0 {
      UpSubnormal(T, U, h);
    } else {
      UpZero(T, U);
    }
  }

  lemma UpZero(T: Format, U: Format)
    requires Admissible(T, U)
    ensures Up(T, U, 0) == 0 < T.Inf() && Number(T, 0) == NumberIn(T, U, 0) == 0 && Down(T, U, 0) == 0
    ensures Exponent(T, 0) == 0
  {
    AdmissibleFacts(T, U);
    SmallestNormalBelowInf(T);
    DivMod(0, 0, 0, Pow2(T.nsig));
    DivMod(0, 0, 0, Pow2(U.nsig));
  }

  // ---- Round trip ------------------------------------------------------------------------------

  /** A widened pattern is never where the narrowing misrounds. */
  lemma WidenedNotMisrounded(T: Format, U: Format, h: nat)
    requires Admissible(T, U) && h < U.Inf()
    ensures !Misrounded(T, U, Up(T, U, h))
  {
    hide Shr, Low, Pow2;
    AdmissibleFacts(T, U);
    InfIsNext(U, h);
    Split(h, U.nsig);
    if Exponent(U, h) >= 1 {
      UpNormal(T, U, h);
    } else if h > 0 {
      UpSubnormal(T, U, h);
      var j := Doublings(U, h);
      Joined(Mul(h, Pow2(Diff(T, U))), j, 0);
      assert RightShift(T, U, Up(T, U, h)) == j;
    } else {
      UpZero(T, U);
    }
  }

  lemma ExactIsNearest(T: Format, U: Format, h: nat)
    requires Admissible(T, U) && h <= U.Inf()
    ensures IsNearest(T, U, NumberIn(T, U, h), h)
  {
    hide NumberIn, Admissible, IsNearest;
    if h > 0 {
      NumberInMonotone(T, U, h - 1, h);
    }
    NumberInMonotone(T, U, h, h + 1);
    NeighboursSuffice(T, U, NumberIn(T, U, h), h);
  }

  /** Infinity and NaNs: the significand moves left and back. */
  lemma SpecialRoundTrip(T: Format, U: Format, h: nat)
    requires Admissible(T, U) && U.Inf() <= h < U.Magnitudes()
    ensures T.Inf() <= Up(T, U, h) < T.Magnitudes() && Down(T, U, Up(T, U, h)) == h
    ensures Up(T, U, h) == T.Inf() <==> h == U.Inf()
  {
    AdmissibleFacts(T, U);
    var g, dd := h - U.Inf(), Pow2(Diff(T, U));
    PowAdd(U.nexp, U.nsig);
    PowAdd(T.nexp, T.nsig);
    PowAdd(U.nsig, Diff(T, U));
    assert h == (Pow2(U.nexp) - 1) * Pow2(U.nsig) + g;
    Joined(Pow2(U.nexp) - 1, U.nsig, g);
    Times(g, Pow2(U.nsig), dd);
    assert Up(T, U, h) == (Pow2(T.nexp) - 1) * Pow2(T.nsig) + g * dd;
    Joined(Pow2(T.nexp) - 1, T.nsig, g * dd);
    Joined(g, Diff(T, U), 0);
  }

  /** Narrowing a widened pattern gives the pattern back, NaN payloads included. */
  lemma MagnitudeRoundTrip(T: Format, U: Format, h: nat)
    requires Admissible(T, U) && h < U.Magnitudes()
    ensures Down(T, U, Up(T, U, h)) == h && Up(T, U, h) < T.Magnitudes()
  {
    if h >= U.Inf() {
      SpecialRoundTrip(T, U, h);
    } else {
      WideningExact(T, U, h);
      WidenedNotMisrounded(T, U, h);
      CorrectlyRoundedExactly(T, U, Up(T, U, h));
      ExactIsNearest(T, U, h);
      NearestIsOnly(T, U, NumberIn(T, U, h), h, Down(T, U, Up(T, U, h)));
      InfFits(T);
    }
  }

  lemma InfFits(F: Format)
    ensures F.Inf() + Pow2(F.nsig) == F.Magnitudes()
  {
    PowAdd(F.nexp, F.nsig);
    assert Pow2(F.nexp) * Pow2(F.nsig) == (Pow2(F.nexp) - 1) * Pow2(F.nsig) + Pow2(F.nsig);
  }

  // ---- Whole patterns --------------------------------------------------------------------------

  function Magnitude(F: Format, b: nat): nat { Low(b, F.nexp + F.nsig) }

  /** 1 for negative patterns. */
  function Sign(F: Format, b: nat): nat { Shr(b, F.nexp + F.nsig) }

  predicate IsNaN(F: Format, b: nat) { Magnitude(F, b) > F.Inf() }

  /** The signed number of a pattern, in units of the format's smallest subnormal. */
  function Value(F: Format, b: nat): int {
    var number: int := Number(F, Magnitude(F, b));
    if Sign(F, b) == 0 then number else -number
  }

  /** Downconversion of a whole pattern. */
  function Narrow(T: Format, U: Format, b: nat): nat
    requires Admissible(T, U)
  {
    Mul(Sign(T, b), U.Magnitudes()) + Down(T, U, Magnitude(T, b))
  }

  /** Upconversion of a whole pattern. */
  function Widen(T: Format, U: Format, h: nat): nat
    requires Admissible(T, U)
  {
    Mul(Sign(U, h), T.Magnitudes()) + Up(T, U, Magnitude(U, h))
  }

  /** Downconversion keeps the sign, and gives a NaN exactly for a NaN. */
  lemma NarrowKeepsSign(T: Format, U: Format, b: nat)
    requires Admissible(T, U)
    ensures Sign(U, Narrow(T, U, b)) == Sign(T, b) && Magnitude(U, Narrow(T, U, b)) == Down(T, U, Magnitude(T, b))
    ensures IsNaN(U, Narrow(T, U, b)) <==> IsNaN(T, b)
  {
    var m := Magnitude(T, b);
    InfFits(U);
    InfFits(T);
    Split(b, T.nexp + T.nsig);
    if m <= T.Inf() {
      DownRange(T, U, m);
    } else {
      PayloadFits(T, U, m);
    }
    Joined(Sign(T, b), U.nexp + U.nsig, Down(T, U, m));
  }

  /** A NaN's cut payload is a payload of the narrow format, and never empty. */
  lemma PayloadFits(T: Format, U: Format, m: nat)
    requires Admissible(T, U) && T.Inf() < m < T.Magnitudes()
    ensures U.Inf() < Down(T, U, m) < U.Magnitudes()
  {
    AdmissibleFacts(T, U);
    InfFits(U);
    InfFits(T);
    PowMonotone(0, U.nsig);
    PowAdd(U.nsig, Diff(T, U));
    Split(m, T.nsig);
    var g := Low(m, T.nsig);
    Split(g, Diff(T, U));
    QuotientLess(Shr(g, Diff(T, U)), Low(g, Diff(T, U)), Pow2(Diff(T, U)), Pow2(U.nsig), g);
    assert Pow2(U.nsig) >= 2;
  }

  /** Downconversion preserves the order of all patterns that are not NaNs. */
  lemma NarrowMonotone(T: Format, U: Format, b: nat, c: nat)
    requires Admissible(T, U) && !IsNaN(T, b) && !IsNaN(T, c)
    requires Value(T, b) <= Value(T, c)
    ensures Value(U, Narrow(T, U, b)) <= Value(U, Narrow(T, U, c))
  {
    NarrowKeepsSign(T, U, b);
    NarrowKeepsSign(T, U, c);
    var m, k := Magnitude(T, b), Magnitude(T, c);
    hide Magnitude, Down, Number, Narrow, Sign;
    if Sign(T, b) == 0 && Sign(T, c) == 0 {
      OrderOfMagnitudes(T, U, m, k);
    } else if Sign(T, b) > 0 && Sign(T, c) > 0 {
      OrderOfMagnitudes(T, U, k, m);
    } else if Sign(T, b) == 0 {
      OnlyZero(T, U, m);
      OnlyZero(T, U, k);
    }
  }

  lemma OrderOfMagnitudes(T: Format, U: Format, m: nat, k: nat)
    requires Admissible(T, U) && m <= T.Inf() && k <= T.Inf() && Number(T, m) <= Number(T, k)
    ensures Number(U, Down(T, U, m)) <= Number(U, Down(T, U, k))
  {
    hide Admissible, Down, Number;
    if k < m {
      NumberMonotone(T, k, m);
    } else {
      DownMonotone(T, U, m, k);
      NumberMonotone(U, Down(T, U, m), Down(T, U, k));
    }
  }

  lemma OnlyZero(T: Format, U: Format, m: nat)
    requires Admissible(T, U)
    ensures Number(T, m) == 0 ==> m == 0
    ensures m == 0 ==> Number(U, Down(T, U, m)) == 0
  {
    UpZero(T, U);
    AdmissibleFacts(T, U);
    Joined(0, U.nsig, 0);
    if m > 0 {
      NumberMonotone(T, 0, m);
    }
  }

  /** Upconversion keeps sign, class and number. */
  lemma WidenKeepsValue(T: Format, U: Format, h: nat)
    requires Admissible(T, U)
    ensures Sign(T, Widen(T, U, h)) == Sign(U, h) && Magnitude(T, Widen(T, U, h)) == Up(T, U, Magnitude(U, h))
    ensures IsNaN(T, Widen(T, U, h)) <==> IsNaN(U, h)
    ensures Magnitude(U, h) == U.Inf() <==> Magnitude(T, Widen(T, U, h)) == T.Inf()
    ensures Magnitude(U, h) < U.Inf() ==>
              Value(T, Widen(T, U, h)) == Value(U, h) * Pow2(Gap(T, U) + Diff(T, U))
  {
    var m := Magnitude(U, h);
    Split(h, U.nexp + U.nsig);
    MagnitudeRoundTrip(T, U, m);
    Joined(Sign(U, h), T.nexp + T.nsig, Up(T, U, m));
    var w := Widen(T, U, h);
    assert Sign(T, w) == Sign(U, h) && Magnitude(T, w) == Up(T, U, m);
    Split(m, U.nsig);
    hide *;
    if m < U.Inf() {
      WideningExact(T, U, m);
      Negated(T, U, h, w);
    } else {
      SpecialRoundTrip(T, U, m);
    }
    IsNaNMeans(U, h);
    IsNaNMeans(T, w);
  }

  lemma IsNaNMeans(F: Format, b: nat)
    ensures IsNaN(F, b) <==> Magnitude(F, b) > F.Inf()
  {
  }

  lemma Negated(T: Format, U: Format, h: nat, w: nat)
    requires Admissible(T, U) && Sign(T, w) == Sign(U, h)
    requires Number(T, Magnitude(T, w)) == NumberIn(T, U, Magnitude(U, h))
    ensures Value(T, w) == Value(U, h) * Pow2(Gap(T, U) + Diff(T, U))
  {
    var n: int := Number(U, Magnitude(U, h));
    var k := Pow2(Gap(T, U) + Diff(T, U));
    assert NumberIn(T, U, Magnitude(U, h)) == n * k;
    Opposite(n, k);
    hide Number, Magnitude, Sign, Pow2, NumberIn, Admissible, Gap, Diff;
  }

  lemma Opposite(n: int, k: int)
    ensures (-n) * k == -(n * k)
  {
  }

  /** Narrowing undoes widening, for every pattern of the narrow format. */
  lemma RoundTrip(T: Format, U: Format, h: nat)
    requires Admissible(T, U)
    ensures Narrow(T, U, Widen(T, U, h)) == h
  {
    WidenKeepsValue(T, U, h);
    Split(h, U.nexp + U.nsig);
    MagnitudeRoundTrip(T, U, Magnitude(U, h));
  }

  // ---- A number that is not rounded to nearest --------------------------------------------------

  const FLOAT := Format(8, 23)
  const HALF := Format(5, 10)

  lemma FloatAndHalf()
    ensures Admissible(FLOAT, HALF) && Gap(FLOAT, HALF) == 112 && Diff(FLOAT, HALF) == 13
    ensures FLOAT.Inf() == 255 * 0x80_0000 && HALF.Inf() == 31 * 0x400
  {
    assert Pow2(7) == 128 && Pow2(8) == 256 && Pow2(23) == 0x80_0000;
    assert Pow2(4) == 16 && Pow2(5) == 32 && Pow2(10) == 0x400;
  }

  /** The patterns of zero, one, the largest half, infinity and the smallest half, in both formats. */
  lemma KnownHalves()
    ensures Admissible(FLOAT, HALF)
    ensures Up(FLOAT, HALF, 0) == 0 && Up(FLOAT, HALF, 0x3C00) == 0x3F80_0000 && Up(FLOAT, HALF, 0x7BFF) == 0x477F_E000
    ensures Up(FLOAT, HALF, 0x7C00) == 0x7F80_0000 && Up(FLOAT, HALF, 1) == 0x3380_0000
  {
    FloatAndHalf();
    assert Pow2(23) == 0x80_0000 && Pow2(10) == 0x400 && Pow2(13) == 0x2000 && Pow2(5) == 32;
    assert Shr(0, 10) == 0 && Shr(0x3C00, 10) == 15 && Shr(0x7BFF, 10) == 30 && Shr(0x7C00, 10) == 31 && Shr(1, 10) == 0;
    assert Low(0, 10) == 0 && Low(0x3C00, 10) == 0 && Low(0x7BFF, 10) == 0x3FF && Low(0x7C00, 10) == 0 && Low(1, 10) == 1;
    TenDoublings();
    hide Pow2;
  }

  lemma TenDoublings()
    ensures Doublings(HALF, 1) == 10
  {
    assert Pow2(10) == 0x400 && HALF.nsig == 10;
    hide Pow2;
    assert Doublings(HALF, 1024) == 0;
    assert Doublings(HALF, 512) == 1 && Doublings(HALF, 256) == 2 && Doublings(HALF, 128) == 3;
    assert Doublings(HALF, 64) == 4 && Doublings(HALF, 32) == 5 && Doublings(HALF, 16) == 6;
    assert Doublings(HALF, 8) == 7 && Doublings(HALF, 4) == 8 && Doublings(HALF, 2) == 9;
  }

  /** Just above half way between two subnormal halves, the bits cut off first are what is missing:
      the float is taken for a tie and goes the wrong way. */
  lemma SubnormalMisrounds()
    ensures Admissible(FLOAT, HALF) && Misrounded(FLOAT, HALF, 112 * 0x80_0000 + 8193)
    ensures !IsNearest(FLOAT, HALF, Number(FLOAT, 112 * 0x80_0000 + 8193), Down(FLOAT, HALF, 112 * 0x80_0000 + 8193))
  {
    FloatAndHalf();
    var m := 112 * 0x80_0000 + 8193;
    assert Pow2(23) == 0x80_0000 && Pow2(1) == 2 && Pow2(14) == 0x4000 && Pow2(12) == 0x1000;
    assert Exponent(FLOAT, m) == 112 && Significand(FLOAT, m) == 0x80_0000 + 8193;
    assert RightShift(FLOAT, HALF, m) == 1;
    CorrectlyRoundedExactly(FLOAT, HALF, m);
  }

  // ---- The way back through the wide type's value -----------------------------------------------

  function BitLength(k: nat): nat { if k == 0 then 0 else 1 + BitLength(k / 2) }

  lemma {:induction false} BitLengthBounds(k: nat)
    ensures k < Pow2(BitLength(k)) && (k > 0 ==> Pow2(BitLength(k) - 1) <= k)
  {
    if k > 0 {
      BitLengthBounds(k / 2);
    }
  }

  /** An integer converted to the floating type `F` and back: it keeps nsig + 1 significant bits,
      rounded to nearest, ties to even. */
  function Detour(F: Format, k: nat): nat {
    if BitLength(k) <= F.nsig + 1 then k
    else Mul(NearestEven(k, BitLength(k) - (F.nsig + 1)), Pow2(BitLength(k) - (F.nsig + 1)))
  }

  lemma {:induction false} BitLengthLeast(k: nat, n: nat)
    requires k < Pow2(n)
    ensures BitLength(k) <= n
  {
    BitLengthBounds(k);
    if BitLength(k) > n {
      PowMonotone(n, BitLength(k) - 1);
    }
  }

  /** `k` is a multiple of 2^d. */
  predicate MultipleOf(k: nat, d: nat) { k == Mul(Shr(k, d), Pow2(d)) }

  lemma Multiple(c: nat, d: nat)
    ensures MultipleOf(c * Pow2(d), d) && Shr(c * Pow2(d), d) == c
  {
    DivMod(c * Pow2(d), c, 0, Pow2(d));
  }

  lemma SumOfMultiples(a: nat, b: nat, d: nat)
    requires MultipleOf(a, d) && MultipleOf(b, d)
    ensures MultipleOf(a + b, d)
  {
    var p, q, m := Shr(a, d), Shr(b, d), Pow2(d);
    Multiple(p + q, d);
    assert a == Mul(p, m) && b == Mul(q, m);
    hide Shr, Pow2;
    MulSum(p, q, m);
  }

  lemma MulSum(a: nat, b: nat, c: nat)
    ensures (a + b) * c == Mul(a, c) + Mul(b, c)
  {
  }

  lemma CoarserMultiple(c: nat, n: nat, d: nat)
    requires d <= n
    ensures MultipleOf(Mul(c, Pow2(n)), d)
  {
    PowAdd(n - d, d);
    Multiple(c * Pow2(n - d), d);
    Associate(c, Pow2(n - d), Pow2(d));
    assert Pow2(n) == Pow2(n - d) * Pow2(d);
    hide *;
  }

  lemma Associate(a: nat, b: nat, c: nat)
    ensures a * b * c == Mul(a, b * c)
  {
  }

  /** Widened patterns end in as many zeros as the significand grew. */
  lemma WidenedMultiple(T: Format, U: Format, h: nat)
    requires Admissible(T, U)
    ensures MultipleOf(Widen(T, U, h), Diff(T, U))
  {
    AdmissibleFacts(T, U);
    var d, m := Diff(T, U), Magnitude(U, h);
    var e, sig := Exponent(U, m), Low(m, U.nsig);
    CoarserMultiple(Sign(U, h), T.nexp + T.nsig, d);
    CoarserMultiple(sig, d, d);
    CoarserMultiple(m, d, d);
    CoarserMultiple(Pow2(T.nexp) - 1, T.nsig, d);
    CoarserMultiple(Gap(T, U), T.nsig, d);
    CoarserMultiple(0, d, d);
    Split(m, U.nsig);
    SumOfMultiples(T.Inf(), Mul(sig, Pow2(d)), d);
    SumOfMultiples(Mul(Gap(T, U), Pow2(T.nsig)), Mul(m, Pow2(d)), d);
    if e == 0 && sig > 0 {
      SubnormalFits(T, U, sig);
      var j := Doublings(U, sig);
      CoarserMultiple(Gap(T, U) + 1 - j, T.nsig, d);
      CoarserMultiple(Mul(sig, Pow2(j)) - Pow2(U.nsig), d, d);
      SumOfMultiples(Mul(Gap(T, U) + 1 - j, Pow2(T.nsig)), Mul(Mul(sig, Pow2(j)) - Pow2(U.nsig), Pow2(d)), d);
    }
    SumOfMultiples(Mul(Sign(U, h), T.Magnitudes()), Up(T, U, m), d);
  }

  lemma FinerMultiple(k: nat, d: nat, n: nat)
    requires n <= d && MultipleOf(k, d)
    ensures MultipleOf(k, n)
  {
    CoarserMultiple(Shr(k, d), d, n);
  }

  lemma WidenFits(T: Format, U: Format, h: nat)
    requires Admissible(T, U) && h < Pow2(U.N())
    ensures Widen(T, U, h) < Pow2(T.N())
  {
    WidenKeepsValue(T, U, h);
    var n := U.nexp + U.nsig;
    Split(h, n);
    Split(Widen(T, U, h), T.nexp + T.nsig);
    assert Pow2(U.N()) == 2 * Pow2(n) && Pow2(T.N()) == 2 * Pow2(T.nexp + T.nsig);
    QuotientLess(Sign(U, h), Low(h, n), Pow2(n), 2, h);
    MagnitudeRoundTrip(T, U, Magnitude(U, h));
    var w, k := Widen(T, U, h), Pow2(T.nexp + T.nsig);
    assert w == Sign(U, h) * k + Magnitude(T, w) && Magnitude(T, w) < k;
    hide *;
    Scale(Sign(U, h), 1, k);
  }

  /** The detour loses exactly what is not a multiple of the last bit kept. */
  lemma DetourKeeps(F: Format, k: nat)
    ensures Detour(F, k) == k <==>
            BitLength(k) <= F.nsig + 1 || MultipleOf(k, BitLength(k) - (F.nsig + 1))
  {
    if BitLength(k) > F.nsig + 1 {
      var s := BitLength(k) - (F.nsig + 1);
      Multiple(NearestEven(k, s), s);
      NearestEvenExact(Shr(k, s), s);
    }
  }

  /** The negative number with the smallest odd significand. */
  function OddPattern(U: Format): nat {
    Mul(1, U.Magnitudes()) + Mul(1, Pow2(U.nsig)) + 1
  }

  lemma Regrouped(b: nat, gap: nat, su: nat, dd: nat)
    ensures b * dd + (Mul(gap, su * dd) + Mul(su + 1, dd)) == (b + (gap + 1) * su + 1) * dd
  {
  }

  lemma OddSum(b: nat, g: nat, s: nat)
    ensures (2 * b + g * (2 * s) + 1) % 2 == 1
  {
    assert g * (2 * s) == 2 * (g * s);
  }

  lemma OddIsNoMultiple(c: nat, d: nat, n: nat)
    requires c % 2 == 1 && n > d
    ensures !MultipleOf(c * Pow2(d), n)
  {
    var k := c * Pow2(d);
    if MultipleOf(k, n) {
      var q := Shr(k, n);
      PowAdd(n - d - 1, d);
      PowAdd(n - d, d);
      assert Pow2(n - d) == 2 * Pow2(n - d - 1);
      Regroup(q, Pow2(n - d - 1), Pow2(d));
      DivMod(k, c, 0, Pow2(d));
      DivMod(k, 2 * (q * Pow2(n - d - 1)), 0, Pow2(d));
    }
  }

  lemma Regroup(q: nat, a: nat, dd: nat)
    ensures Mul(q, (2 * a) * dd) == (2 * (q * a)) * dd
  {
  }

  /** The widened odd pattern is an odd number shifted left by no more than the significand grew. */
  lemma OddWidens(T: Format, U: Format)
    requires Admissible(T, U)
    ensures OddPattern(U) < Pow2(U.N())
    ensures var c := Pow2(T.nexp + U.nsig) + (Gap(T, U) + 1) * Pow2(U.nsig) + 1;
            c % 2 == 1 && Widen(T, U, OddPattern(U)) == c * Pow2(Diff(T, U))
  {
    hide Shr, Low, Format.Bias;
    AdmissibleFacts(T, U);
    InfFits(U);
    PowMonotone(1, U.nsig);
    BiasIsHalf(U);
    SmallestNormalBelowInf(U);
    assert Pow2(1) == 2 && Pow2(U.N()) == 2 * U.Magnitudes();
    var m, d := Pow2(U.nsig) + 1, Diff(T, U);
    Joined(1, U.nexp + U.nsig, m);
    Joined(1, U.nsig, 1);
    PowAdd(U.nsig, d);
    PowAdd(T.nexp + U.nsig, d);
    assert Up(T, U, m) == Mul(Gap(T, U), Pow2(T.nsig)) + Mul(m, Pow2(d));
    assert Pow2(T.nexp + U.nsig) == 2 * Pow2(T.nexp + U.nsig - 1) && Pow2(U.nsig) == 2 * Pow2(U.nsig - 1);
    assert Widen(T, U, OddPattern(U)) == T.Magnitudes() + Up(T, U, m);
    hide *;
    Regrouped(Pow2(T.nexp + U.nsig), Gap(T, U), Pow2(U.nsig), Pow2(d));
    OddSum(Pow2(T.nexp + U.nsig - 1), Gap(T, U) + 1, Pow2(U.nsig - 1));
  }

  lemma OddSizes(T: Format, U: Format)
    ensures T.N() - 1 == T.nexp + T.nsig && OddPattern(U) >= U.Magnitudes()
    ensures T.Magnitudes() == Pow2(T.nexp + T.nsig) > 0
  {
  }

  /** The widened odd pattern is negative, so it takes up the whole word. */
  lemma OddLength(T: Format, U: Format)
    requires Admissible(T, U)
    ensures OddPattern(U) < Pow2(U.N()) && BitLength(Widen(T, U, OddPattern(U))) == T.N()
  {
    hide *;
    AdmissibleFacts(T, U);
    OddWidens(T, U);
    OddSizes(T, U);
    var k := Widen(T, U, OddPattern(U));
    WidenFits(T, U, OddPattern(U));
    WidenedNegative(T, U, OddPattern(U));
    BitLengthLeast(k, T.N());
    BitLengthBounds(k);
    if BitLength(k) < T.N() {
      PowMonotone(BitLength(k), T.N() - 1);
    }
  }

  lemma OddWidened(T: Format, U: Format)
    requires Admissible(T, U) && T.nexp > Diff(T, U)
    ensures OddPattern(U) < Pow2(U.N()) && Detour(T, Widen(T, U, OddPattern(U))) != Widen(T, U, OddPattern(U))
  {
    hide *;
    AdmissibleFacts(T, U);
    OddWidens(T, U);
    var k := Widen(T, U, OddPattern(U));
    OddLength(T, U);
    OddSizes(T, U);
    OddIsNoMultiple(Pow2(T.nexp + U.nsig) + (Gap(T, U) + 1) * Pow2(U.nsig) + 1, Diff(T, U), T.nexp);
    DetourKeeps(T, k);
  }

  lemma WidenedNegative(T: Format, U: Format, h: nat)
    requires Admissible(T, U) && h >= U.Magnitudes()
    ensures Widen(T, U, h) >= T.Magnitudes()
  {
    ExponentPositive(h, U.nexp + U.nsig);
    Scale(1, Sign(U, h), T.Magnitudes());
  }

  /** Widened patterns are handed back through a value of the wide type itself.  That loses nothing
      for any pattern exactly if the wide exponent is no wider than the significand grew. */
  lemma DetourLosslessExactly(T: Format, U: Format)
    requires Admissible(T, U)
    ensures (forall h :: 0 <= h < Pow2(U.N()) ==> Detour(T, Widen(T, U, h)) == Widen(T, U, h)) <==>
            T.nexp <= Diff(T, U)
  {
    if T.nexp > Diff(T, U) {
      OddWidened(T, U);
    } else {
      forall h | 0 <= h < Pow2(U.N())
        ensures Detour(T, Widen(T, U, h)) == Widen(T, U, h)
      {
        var k := Widen(T, U, h);
        WidenFits(T, U, h);
        BitLengthLeast(k, T.N());
        WidenedMultiple(T, U, h);
        DetourKeeps(T, k);
        if BitLength(k) > T.nsig + 1 {
          FinerMultiple(k, Diff(T, U), BitLength(k) - (T.nsig + 1));
        }
      }
    }
  }

  /** A half converted to float and back is the same half, all 65536 of them. */
  lemma HalfRoundTrip(h: nat)
    requires h < 0x1_0000
    ensures Admissible(FLOAT, HALF) && Detour(FLOAT, Widen(FLOAT, HALF, h)) == Widen(FLOAT, HALF, h)
    ensures Narrow(FLOAT, HALF, Detour(FLOAT, Widen(FLOAT, HALF, h))) == h
  {
    FloatAndHalf();
    DetourLosslessExactly(FLOAT, HALF);
    assert Pow2(16) == 0x1_0000;
    RoundTrip(FLOAT, HALF, h);
  }
}
