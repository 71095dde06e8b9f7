/** The bit manipulation of the conversions, on words of the formats' widths, against their meaning. */
module FloatBits {
  import opened Arithmetic
  import opened Bits
  import opened FloatFormat
  import opened FloatConversion

  // ---- Fields ----------------------------------------------------------------------------------

  function GetSignificandBits(F: Format, bits: nat): nat { And(bits, Pow2(F.nsig) - 1) }

  function GetSignedExponent(F: Format, bits: nat): int
    requires F.nexp >= 1
  {
    And(Shr(bits, F.nsig), Pow2(F.nexp) - 1) - F.Bias()
  }

  /** The sign of a wide pattern, as a narrow word. */
  function GetSignBitOf(T: Format, U: Format, bits: nat): nat
    requires T.N() >= U.N()
  {
    And(Shr(bits, T.N() - U.N()), Pow2(U.N() - 1))
  }

  /** The sign of a narrow pattern, as a wide word. */
  function GetSignBitFrom(T: Format, U: Format, bits: nat): nat
    requires T.N() >= U.N()
  {
    And(Shl(bits, T.N() - U.N()) % Pow2(T.N()), Pow2(T.N() - 1))
  }

  function SignedExpToBits(U: Format, signedExp: int): nat
    requires U.nexp >= 1 && signedExp + U.Bias() >= 0
  {
    Shl(signedExp + U.Bias(), U.nsig)
  }

  lemma MaskedLow(x: nat, n: nat)
    ensures And(x, Pow2(n) - 1) == Low(x, n)
  {
    AndMask(x, n);
  }

  lemma LowBelow(x: nat, n: nat)
    ensures Low(x, n) < Pow2(n)
  {
  }

  /** The low `n + a` bits are the low `n` bits above the low `a` bits. */
  lemma LowParts(x: nat, a: nat, n: nat)
    ensures Shr(Low(x, n + a), a) == Low(Shr(x, a), n) && Low(Low(x, n + a), a) == Low(x, a)
  {
    hide *;
    assert n + a == a + n;
    ShrShr(x, a, n);
    LowBelow(x, a);
    Joined(Low(Shr(x, a), n), a, Low(x, a));
  }

  /** What the masks and shifts take out of a word. */
  lemma Fields(F: Format, bits: nat)
    requires F.nexp >= 1
    ensures GetSignificandBits(F, bits) == Low(Magnitude(F, bits), F.nsig)
    ensures GetSignedExponent(F, bits) + F.Bias() == Exponent(F, Magnitude(F, bits)) < Pow2(F.nexp)
  {
    hide And, Shr, Low, Pow2, Format.Bias;
    MaskedLow(bits, F.nsig);
    MaskedLow(Shr(bits, F.nsig), F.nexp);
    LowBelow(Shr(bits, F.nsig), F.nexp);
    LowParts(bits, F.nsig, F.nexp);
  }

  lemma SignOf(T: Format, U: Format, bits: nat)
    requires T.N() >= U.N() && bits < Pow2(T.N())
    ensures GetSignBitOf(T, U, bits) == Sign(T, bits) * Pow2(U.N() - 1) && Sign(T, bits) < 2
  {
    AndBit(Shr(bits, T.N() - U.N()), U.N() - 1);
    ShrShr(bits, T.N() - U.N(), U.N() - 1);
    assert T.N() - U.N() + (U.N() - 1) == T.nexp + T.nsig;
    SignBelowTwo(T, bits);
    assert Sign(T, bits) == Shr(Shr(bits, T.N() - U.N()), U.N() - 1);
    hide And, Shr, Pow2, Low, Sign;
  }

  lemma SignBelowTwo(F: Format, bits: nat)
    requires bits < Pow2(F.N())
    ensures Sign(F, bits) < 2
  {
    var n := F.nexp + F.nsig;
    Split(bits, n);
    assert Pow2(F.N()) == 2 * Pow2(n);
    QuotientLess(Shr(bits, n), Low(bits, n), Pow2(n), 2, bits);
  }

  lemma SignFrom(T: Format, U: Format, bits: nat)
    requires T.N() >= U.N() && bits < Pow2(U.N())
    ensures GetSignBitFrom(T, U, bits) == Sign(U, bits) * Pow2(T.N() - 1) && Sign(U, bits) < 2
  {
    var k, n := T.N() - U.N(), U.nexp + U.nsig;
    var w := Shl(bits, k);
    assert n + k == T.N() - 1 && U.N() + k == T.N();
    assert w == Mul(bits, Pow2(k)) && Sign(U, bits) == Shr(bits, n);
    assert GetSignBitFrom(T, U, bits) == And(w % Pow2(T.N()), Pow2(T.N() - 1));
    hide *;
    SignBelowTwo(U, bits);
    PowAdd(U.N(), k);
    Split(bits, n);
    SignShifted(Shr(bits, n), Low(bits, n), bits, n, k);
    Times(bits, Pow2(U.N()), Pow2(k));
    SmallMod(w, Pow2(T.N()));
    AndBit(w, T.N() - 1);
  }

  lemma SignShifted(s: nat, g: nat, bits: nat, n: nat, k: nat)
    requires bits == s * Pow2(n) + g && g < Pow2(n)
    ensures Shr(Mul(bits, Pow2(k)), n + k) == s
  {
    Times(g, Pow2(n), Pow2(k));
    Distribute(s, Pow2(n), g, Pow2(k));
    PowAdd(n, k);
    Joined(s, n + k, g * Pow2(k));
  }

  lemma SmallMod(x: nat, m: nat)
    requires x < m
    ensures x % m == x
  {
  }

  lemma Distribute(s: nat, n: nat, g: nat, k: nat)
    ensures (s * n + g) * k == s * (n * k) + g * k
  {
  }

  // ---- Rounding --------------------------------------------------------------------------------

  /** Adds half a unit of the narrow format unless that is an even tie, so that cutting off the extra
      bits rounds to nearest, ties to even. */
  method RoundTiesToEven(T: Format, U: Format, sigBits: nat) returns (r: nat)
    requires Admissible(T, U) && sigBits < 2 * Pow2(T.nsig)
    ensures Shr(r, Diff(T, U)) == NearestEven(sigBits, Diff(T, U))
  {
    var mask := Shl(1, Diff(T, U) + 1) - 1;
    var tie := Shl(1, Diff(T, U) - 1);
    r := sigBits;
    AdmissibleFacts(T, U);
    AndMask(sigBits, Diff(T, U) + 1);
    AddHalfRounds(sigBits, Diff(T, U));
    PowMonotone(Diff(T, U) - 1, T.nsig);
    PowMonotone(T.nsig + 2, T.N());
    SmallMod(sigBits + tie, Pow2(T.N()));
    hide And, Pow2;
    if And(sigBits, mask) != tie {
      r := (r + tie) % Pow2(T.N());
    }
  }

  // ---- Downconversion --------------------------------------------------------------------------

  function ExpMax(F: Format): int
    requires F.nexp >= 1
  {
    F.Bias()
  }

  function ExpMin(F: Format): int
    requires F.nexp >= 1
  {
    1 - F.Bias()
  }

  lemma Signed(F: Format, s: nat, x: nat)
    requires x < F.Magnitudes()
    ensures Or(s * Pow2(F.N() - 1), x) == Mul(s, F.Magnitudes()) + x
  {
    OrDisjoint(s, F.N() - 1, x);
  }

  /** Sign, exponent and significand do not overlap. */
  lemma WordParts(F: Format)
    ensures F.N() - 1 == F.nexp + F.nsig && F.Magnitudes() == Pow2(F.nexp + F.nsig)
  {
  }

  lemma MulIs(x: nat, y: nat)
    ensures Mul(x, y) == x * y
  {
  }

  /** Sign, exponent and significand of a word, put together: three summands. */
  lemma Summands(s: nat, e: nat, x: nat, y: nat)
    ensures Mul(s, x * y) + Mul(e, y) == (s * x + e) * y
  {
    hide *;
    MulIs(s, x * y);
    MulIs(e, y);
    Distribute(s, x, e, y);
  }

  lemma SignedFields(F: Format, s: nat, e: nat, g: nat)
    requires e < Pow2(F.nexp) && g < Pow2(F.nsig)
    ensures Or(Or(s * Pow2(F.N() - 1), Mul(e, Pow2(F.nsig))), g) == Mul(s, F.Magnitudes()) + (Mul(e, Pow2(F.nsig)) + g)
  {
    hide *;
    var x, y := Pow2(F.nexp), Pow2(F.nsig);
    WordParts(F);
    PowAdd(F.nexp, F.nsig);
    Times(e, x, y);
    Signed(F, s, Mul(e, y));
    Summands(s, e, x, y);
    OrDisjoint(s * x + e, F.nsig, g);
  }

  lemma InfFields(F: Format)
    ensures F.Inf() == Mul(Pow2(F.nexp) - 1, Pow2(F.nsig))
  {
  }

  /** In the normal range: exponent and rounded significand add up, carry included. */
  lemma NormalBits(T: Format, U: Format, m: nat)
    requires Admissible(T, U) && m < T.Inf() && Gap(T, U) < Exponent(T, m) <= T.Bias() + U.Bias()
    ensures Shl(Exponent(T, m) - Gap(T, U), U.nsig) + NearestEven(Low(m, T.nsig), Diff(T, U)) == Down(T, U, m)
  {
    AdmissibleFacts(T, U);
    var a, g, d, s := Exponent(T, m) - Gap(T, U), Low(m, T.nsig), Diff(T, U), Pow2(U.nsig);
    RebasedQuotient(T, U, m);
    Split(m, T.nsig);
    PowAdd(U.nsig, d);
    assert Down(T, U, m) == NearestEven(Rebased(T, U, m), d);
    assert m == Exponent(T, m) * Pow2(T.nsig) + g;
    assert s == 2 * Pow2(U.nsig - 1);
    assert Shl(a, U.nsig) == a * s;
    assert Pow2(T.nsig) == s * Pow2(d);
    hide *;
    EvenProduct(a, Pow2(U.nsig - 1));
    NearestEvenShifted(Mul(a, s), g, d);
    Shifted(a, Gap(T, U), s, Pow2(d), g, m, Rebased(T, U, m));
  }

  lemma EvenProduct(a: nat, h: nat)
    ensures a * (2 * h) % 2 == 0
  {
    assert a * (2 * h) == 2 * (a * h);
  }

  lemma Shifted(a: nat, gap: nat, s: nat, dd: nat, g: nat, m: nat, y: nat)
    requires m == (a + gap) * (s * dd) + g && m == Mul(gap, s * dd) + y
    ensures y == Mul(a, s) * dd + g
  {
    assert (a + gap) * (s * dd) == a * s * dd + gap * (s * dd);
  }

  /** Below it: the significand with its implied bit, shifted and rounded. */
  lemma SubnormalBits(T: Format, U: Format, m: nat)
    requires Admissible(T, U) && Gap(T, U) + 1 <= Exponent(T, m) + U.nsig && Exponent(T, m) <= Gap(T, U)
    requires m < T.Inf()
    ensures Or(Low(m, T.nsig), Pow2(T.nsig)) == Significand(T, m) < 2 * Pow2(T.nsig)
    ensures NearestEven(Shr(Significand(T, m), RightShift(T, U, m)), Diff(T, U)) == Down(T, U, m)
  {
    AdmissibleFacts(T, U);
    ShiftedSignificand(T, U, m);
    Split(m, T.nsig);
    OrDisjoint(1, T.nsig, Low(m, T.nsig));
    OrCommutes(Pow2(T.nsig), Low(m, T.nsig));
    assert 1 * Pow2(T.nsig) == Pow2(T.nsig);
    BiasIsHalf(T);
    InfIsNext(T, m);
  }

  lemma WiderWord(T: Format, U: Format)
    requires Admissible(T, U)
    ensures T.N() > U.N()
  {
    if T.nexp < U.nexp {
      PowMonotone(T.nexp - 1, U.nexp - 1);
    }
  }

  lemma Decoded(T: Format, U: Format, bits: nat)
    requires Admissible(T, U) && bits < Pow2(T.N())
    ensures T.N() > U.N() && GetSignBitOf(T, U, bits) == Mul(Sign(T, bits), Pow2(U.N() - 1))
    ensures GetSignedExponent(T, bits) == Exponent(T, Magnitude(T, bits)) - T.Bias() <= T.Bias() + 1
    ensures GetSignificandBits(T, bits) == Low(Magnitude(T, bits), T.nsig) < Pow2(T.nsig)
    ensures ExpMax(T) == T.Bias() && ExpMax(U) == U.Bias() && ExpMin(U) == 1 - U.Bias()
    ensures Gap(T, U) == T.Bias() - U.Bias()
  {
    WiderWord(T, U);
    SignOf(T, U, bits);
    Fields(T, bits);
    BiasIsHalf(T);
    Split(Magnitude(T, bits), T.nsig);
  }

  /** Wide infinities and NaNs. */
  lemma SpecialPattern(T: Format, U: Format, m: nat)
    requires Admissible(T, U) && m < T.Magnitudes() && Exponent(T, m) == 2 * T.Bias() + 1
    ensures m == T.Inf() + Low(m, T.nsig)
    ensures Shr(Low(m, T.nsig), Diff(T, U)) < Pow2(U.nsig) < Pow2(U.N())
  {
    AdmissibleFacts(T, U);
    BiasIsHalf(T);
    Split(m, T.nsig);
    PowAdd(U.nsig, Diff(T, U));
    var g := Low(m, T.nsig);
    Split(g, Diff(T, U));
    QuotientLess(Shr(g, Diff(T, U)), Low(g, Diff(T, U)), Pow2(Diff(T, U)), Pow2(U.nsig), g);
    PowMonotone(U.nsig, U.N());
  }

  lemma OtherPattern(T: Format, U: Format, m: nat)
    requires Admissible(T, U) && m < T.Magnitudes() && Exponent(T, m) <= 2 * T.Bias()
    ensures m < T.Inf() && Down(T, U, m) <= U.Inf() < U.Magnitudes() < Pow2(U.N())
    ensures Exponent(T, m) > T.Bias() + U.Bias() ==> Down(T, U, m) == U.Inf()
    ensures Exponent(T, m) + U.nsig < Gap(T, U) + 1 ==> Down(T, U, m) == 0
  {
    BiasIsHalf(T);
    InfIsNext(T, m);
    DownRange(T, U, m);
    InfFits(U);
    AdmissibleFacts(T, U);
    assert Pow2(U.N()) == 2 * U.Magnitudes();
  }

  lemma Narrows(T: Format, U: Format, bits: nat)
    requires Admissible(T, U)
    ensures Narrow(T, U, bits) == Mul(Sign(T, bits), U.Magnitudes()) + Down(T, U, Magnitude(T, bits))
    ensures Magnitude(T, bits) < T.Magnitudes() && U.Magnitudes() == Pow2(U.N() - 1)
    ensures bits < Pow2(T.N()) ==> Narrow(T, U, bits) < Pow2(U.N())
  {
    Split(bits, T.nexp + T.nsig);
    NarrowKeepsSign(T, U, bits);
    Split(Narrow(T, U, bits), U.nexp + U.nsig);
    assert Pow2(U.N()) == 2 * Pow2(U.N() - 1);
    if bits < Pow2(T.N()) {
      SignBelowTwo(T, bits);
      Scale(Sign(T, bits), 1, Pow2(U.N() - 1));
    }
  }

  /** Converts a wide pattern to a narrow one. */
  method DownconvertTo(T: Format, U: Format, bits: nat) returns (r: nat)
    requires Admissible(T, U) && bits < Pow2(T.N())
    ensures r == Narrow(T, U, bits) < Pow2(U.N())
  {
    WiderWord(T, U);
    AdmissibleFacts(T, U);
    var tsignBit := GetSignBitOf(T, U, bits);
    var signedExp := GetSignedExponent(T, bits);
    var sigBits := GetSignificandBits(T, bits);
    ghost var s, m, d := Sign(T, bits), Magnitude(T, bits), Diff(T, U);
    Decoded(T, U, bits);
    Narrows(T, U, bits);
    hide *;
    if signedExp == ExpMax(T) + 1 {
      SpecialPattern(T, U, m);
      if sigBits == 0 {
        InfFits(U);
        Signed(U, s, U.Inf());
        SpecialDown(T, U, m);
        return Or(tsignBit, U.Inf());
      }
      SmallMod(Shr(sigBits, d), Pow2(U.N()));
      SpecialDown(T, U, m);
      PowMonotone(0, U.nsig);
      InfFields(U);
      var tsigBits := Shr(sigBits, Diff(T, U)) % Pow2(U.N());
      if tsigBits == 0 {
        tsigBits := tsigBits + 1;
      }
      SignedFields(U, s, Pow2(U.nexp) - 1, tsigBits);
      return Or(Or(tsignBit, U.Inf()), tsigBits);
    }
    OtherPattern(T, U, m);
    Signed(U, s, Down(T, U, m));
    SmallMod(Down(T, U, m), Pow2(U.N()));
    if signedExp > ExpMax(U) {
      return Or(tsignBit, U.Inf());
    }
    if signedExp < ExpMin(U) - U.nsig {
      return tsignBit;
    }
    if signedExp >= ExpMin(U) {
      NormalBits(T, U, m);
      Expands(T, U, m, signedExp);
      sigBits := RoundTiesToEven(T, U, sigBits);
      SmallMod(Shr(sigBits, d), Pow2(U.N()));
      return Or(tsignBit, (SignedExpToBits(U, signedExp) + Shr(sigBits, Diff(T, U)) % Pow2(U.N())) % Pow2(U.N()));
    }
    SubnormalBits(T, U, m);
    sigBits := Or(sigBits, Pow2(T.nsig));
    var rshift := -signedExp + ExpMin(U);
    Expands(T, U, m, signedExp);
    ShrSmaller(sigBits, rshift);
    sigBits := Shr(sigBits, rshift);
    sigBits := RoundTiesToEven(T, U, sigBits);
    r := Or(tsignBit, Shr(sigBits, Diff(T, U)) % Pow2(U.N()));
  }

  lemma SpecialDown(T: Format, U: Format, m: nat)
    requires Admissible(T, U) && m == T.Inf() + Low(m, T.nsig)
    ensures Down(T, U, m) == U.Inf() +
              if Low(m, T.nsig) == 0 then 0
              else if Shr(Low(m, T.nsig), Diff(T, U)) == 0 then 1
              else Shr(Low(m, T.nsig), Diff(T, U))
  {
  }

  lemma Expands(T: Format, U: Format, m: nat, signedExp: int)
    requires Admissible(T, U)
    ensures signedExp + U.Bias() >= 0 ==>
              SignedExpToBits(U, signedExp) == Shl(signedExp + T.Bias() - Gap(T, U), U.nsig)
    ensures Exponent(T, m) <= Gap(T, U) ==> RightShift(T, U, m) == Gap(T, U) + 1 - Exponent(T, m)
  {
  }

  lemma ShrSmaller(x: nat, n: nat)
    ensures Shr(x, n) <= x
  {
    Split(x, n);
    Multiples(Pow2(n), Shr(x, n));
  }

  // ---- Upconversion ----------------------------------------------------------------------------

  lemma DecodedNarrow(T: Format, U: Format, bits: nat)
    requires Admissible(T, U) && bits < Pow2(U.N())
    ensures T.N() > U.N() && GetSignBitFrom(T, U, bits) == Mul(Sign(U, bits), Pow2(T.N() - 1))
    ensures GetSignedExponent(U, bits) == Exponent(U, Magnitude(U, bits)) - U.Bias()
    ensures Exponent(U, Magnitude(U, bits)) <= 2 * U.Bias() + 1 && Pow2(U.nexp) == 2 * U.Bias() + 2
    ensures GetSignificandBits(U, bits) == Low(Magnitude(U, bits), U.nsig) < Pow2(U.nsig)
    ensures ExpMax(U) == U.Bias() && ExpMin(U) == 1 - U.Bias()
    ensures Gap(T, U) == T.Bias() - U.Bias()
    ensures 2 * Pow2(U.nsig) <= Pow2(U.N())
  {
    WiderWord(T, U);
    SignFrom(T, U, bits);
    Fields(U, bits);
    BiasIsHalf(U);
    Split(Magnitude(U, bits), U.nsig);
    PowMonotone(U.nsig, U.N());
  }

  lemma Widens(T: Format, U: Format, h: nat)
    requires Admissible(T, U) && h < Pow2(U.N())
    ensures Widen(T, U, h) == Mul(Sign(U, h), T.Magnitudes()) + Up(T, U, Magnitude(U, h)) < Pow2(T.N())
  {
    WidenFits(T, U, h);
  }

  /** A widened pattern's fields, but for subnormals. */
  lemma UpFields(T: Format, U: Format, h: nat)
    requires Admissible(T, U) && Exponent(U, h) <= 2 * U.Bias() + 1
    ensures var e, sig, d := Exponent(U, h), Low(h, U.nsig), Diff(T, U);
            && sig < Pow2(U.nsig) && Shl(sig, d) == Mul(sig, Pow2(d)) < Pow2(T.nsig)
            && (e == 2 * U.Bias() + 1 ==> Up(T, U, h) == T.Inf() + Mul(sig, Pow2(d)))
            && (1 <= e <= 2 * U.Bias() ==>
                  && Up(T, U, h) == Mul(Gap(T, U) + e, Pow2(T.nsig)) + Mul(sig, Pow2(d))
                  && Gap(T, U) + e < Pow2(T.nexp))
            && (e == 0 ==> h == sig)
  {
    AdmissibleFacts(T, U);
    BiasIsHalf(U);
    BiasIsHalf(T);
    Split(h, U.nsig);
    PowAdd(U.nsig, Diff(T, U));
    var e, sig := Exponent(U, h), Low(h, U.nsig);
    Times(sig, Pow2(U.nsig), Pow2(Diff(T, U)));
    Compose(Gap(T, U), e, sig, Pow2(U.nsig), Pow2(Diff(T, U)), 0, h);
  }

  lemma DoublingStep(F: Format, sig: nat, i: nat)
    requires 0 < sig && Mul(sig, Pow2(i)) < Pow2(F.nsig)
    ensures Doublings(F, Mul(sig, Pow2(i))) == 1 + Doublings(F, Mul(sig, Pow2(i + 1)))
    ensures Shl(Mul(sig, Pow2(i)), 1) == Mul(sig, Pow2(i + 1)) == 2 * Mul(sig, Pow2(i))
  {
  }

  /** Converts a narrow pattern to a wide one.  `T` is the wide format here as everywhere in this file; the
      C++ template takes the two formats in the order from, to. */
  method UpconvertTo(T: Format, U: Format, bits: nat) returns (r: nat)
    requires Admissible(T, U) && bits < Pow2(U.N())
    ensures r == Widen(T, U, bits) < Pow2(T.N())
  {
    WiderWord(T, U);
    AdmissibleFacts(T, U);
    var tsignBit := GetSignBitFrom(T, U, bits);
    var signedExp := GetSignedExponent(U, bits);
    var sigBits := GetSignificandBits(U, bits);
    ghost var s, m, d, sig := Sign(U, bits), Magnitude(U, bits), Diff(T, U), sigBits;
    DecodedNarrow(T, U, bits);
    Widens(T, U, bits);
    UpFields(T, U, m);
    InfFields(T);
    hide *;
    if signedExp == ExpMax(U) + 1 {
      SignedFields(T, s, Pow2(T.nexp) - 1, Shl(sigBits, d));
      return Or(Or(tsignBit, T.Inf()), Shl(sigBits, Diff(T, U)));
    }
    if signedExp == ExpMin(U) - 1 {
      if sigBits == 0 {
        return tsignBit;
      }
      r := UpconvertSubnormal(T, U, tsignBit, sigBits, s);
      return;
    }
    SignedFields(T, s, Gap(T, U) + Exponent(U, m), Shl(sigBits, d));
    r := Or(Or(tsignBit, Shl(signedExp + T.Bias(), T.nsig)), Shl(sigBits, Diff(T, U)));
  }

  /** The loop's test looks at the implied bit. */
  lemma ImpliedBit(F: Format, x: nat)
    requires 0 < x < 2 * Pow2(F.nsig)
    ensures And(x, Pow2(F.nsig)) == 0 <==> x < Pow2(F.nsig)
    ensures x >= Pow2(F.nsig) ==> Doublings(F, x) == 0 && GetSignificandBits(F, x) == x - Pow2(F.nsig)
    ensures 2 * Pow2(F.nsig) <= Pow2(F.N())
  {
    AndBit(x, F.nsig);
    AndMask(x, F.nsig);
    PowMonotone(F.nsig, F.N());
    if x < Pow2(F.nsig) {
      Joined(0, F.nsig, x);
    } else {
      Joined(1, F.nsig, x - Pow2(F.nsig));
    }
  }

  /** The fields the loop ends with. */
  lemma NormalisedFields(T: Format, U: Format, sig: nat)
    requires Admissible(T, U) && 0 < sig < Pow2(U.nsig)
    ensures Doublings(U, sig) <= U.nsig <= Gap(T, U)
    ensures var j, d := Doublings(U, sig), Diff(T, U);
            var e, g := Gap(T, U) + 1 - j, Mul(sig, Pow2(j)) - Pow2(U.nsig);
            && 1 <= j && 0 <= g && e < Pow2(T.nexp)
            && Shl(e, T.nsig) == Mul(e, Pow2(T.nsig)) < Pow2(T.N())
            && Shl(g, d) == Mul(g, Pow2(d)) < Pow2(T.nsig)
            && Up(T, U, sig) == Mul(e, Pow2(T.nsig)) + Mul(g, Pow2(d))
  {
    AdmissibleFacts(T, U);
    SubnormalFits(T, U, sig);
    Normalised(U, sig);
    BiasIsHalf(T);
    BiasIsHalf(U);
    Joined(0, U.nsig, sig);
    var j, d := Doublings(U, sig), Diff(T, U);
    var e, g := Gap(T, U) + 1 - j, Mul(sig, Pow2(j)) - Pow2(U.nsig);
    assert Shl(e, T.nsig) == Mul(e, Pow2(T.nsig)) && Shl(g, d) == Mul(g, Pow2(d));
    assert Up(T, U, sig) == Mul(e, Pow2(T.nsig)) + Mul(g, Pow2(d));
    PowAdd(U.nsig, d);
    PowAdd(T.nexp, T.nsig);
    PowMonotone(T.nexp + T.nsig, T.N());
    hide *;
    Times(e, Pow2(T.nexp), Pow2(T.nsig));
    Times(g, Pow2(U.nsig), Pow2(d));
  }

  /** Shift until normalized, counting the exponent down. */
  method UpconvertSubnormal(T: Format, U: Format, tsignBit: nat, sig: nat, ghost s: nat) returns (r: nat)
    requires Admissible(T, U) && 0 < sig < Pow2(U.nsig) && tsignBit == Mul(s, Pow2(T.N() - 1))
    ensures r == Mul(s, T.Magnitudes()) + Up(T, U, sig)
  {
    var implied, sigBits, texpBits := Pow2(U.nsig), sig, T.Bias() - U.Bias();
    ghost var i := 1;
    NormalisedFields(T, U, sig);
    AdmissibleFacts(T, U);
    ImpliedBit(U, sig);
    DoublingStep(U, sig, 0);
    assert Mul(sig, Pow2(0)) == sig;
    hide *;
    SmallMod(2 * sig, Pow2(U.N()));
    sigBits := Shl(sigBits, 1) % Pow2(U.N());
    ImpliedBit(U, sigBits);
    while And(sigBits, implied) == 0
      invariant 1 <= i <= Doublings(U, sig) && texpBits == Gap(T, U) + 1 - i
      invariant 0 < sigBits == Mul(sig, Pow2(i)) < 2 * implied
      invariant And(sigBits, implied) == 0 <==> sigBits < implied
      invariant Doublings(U, sigBits) + i == Doublings(U, sig)
      decreases implied - sigBits
    {
      DoublingStep(U, sig, i);
      SmallMod(2 * sigBits, Pow2(U.N()));
      sigBits := Shl(sigBits, 1) % Pow2(U.N());
      texpBits := texpBits - 1;
      i := i + 1;
      ImpliedBit(U, sigBits);
    }
    ImpliedBit(U, sigBits);
    SmallMod(Shl(texpBits, T.nsig), Pow2(T.N()));
    texpBits := Shl(texpBits, T.nsig) % Pow2(T.N());
    var tsigBits := Shl(GetSignificandBits(U, sigBits), Diff(T, U));
    SignedFields(T, s, Gap(T, U) + 1 - i, tsigBits);
    r := Or(Or(tsignBit, texpBits), tsigBits);
  }

  // ---- Halves ----------------------------------------------------------------------------------

  method FloatToHalfBits(bits: nat) returns (h: nat)
    requires bits < 0x1_0000_0000
    ensures Admissible(FLOAT, HALF) && h == Narrow(FLOAT, HALF, bits) < 0x1_0000
  {
    FloatAndHalf();
    assert Pow2(32) == 0x1_0000_0000 && Pow2(16) == 0x1_0000;
    h := DownconvertTo(FLOAT, HALF, bits);
  }

  /** The upconversion hands its pattern back as a float value, which becomes an integer again. */
  method HalfBitsToFloat(h: nat) returns (bits: nat)
    requires h < 0x1_0000
    ensures Admissible(FLOAT, HALF) && bits == Widen(FLOAT, HALF, h) < 0x1_0000_0000
    ensures Narrow(FLOAT, HALF, bits) == h
  {
    FloatAndHalf();
    assert Pow2(32) == 0x1_0000_0000 && Pow2(16) == 0x1_0000;
    bits := UpconvertTo(FLOAT, HALF, h);
    HalfRoundTrip(h);
    bits := Detour(FLOAT, bits);
  }
}
