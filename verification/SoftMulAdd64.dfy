/** The fused multiply-add of double-precision numbers up to the rounding step (section 5.4.1 of IEEE 754-2008). */
module SoftMulAdd64 {
  import opened Arith
  import opened Words
  import opened SoftRounding
  import opened SoftJam
  import opened Soft128

  /** The magnitude of the product v (with its point after the upper word) and of the addend c, in that scale. */
  function Scaled128(v: nat, exp: int, l: int): nat
    requires exp - 64 >= l
  {
    v * Pow2(exp - 64 - l)
  }

  function Scaled64(c: nat, exp: int, l: int): nat
    requires exp >= l
  {
    c * Pow2(exp - l)
  }

  /** The significand is normal and settles the rounding of the magnitude n. */
  ghost predicate Settled(exp: int, sig: nat, n: int, l: int) {
    P62 <= sig < W63 && Stands(sig, exp, n, l, 512)
  }

  // ---- building blocks ----

  /** The upper word shifted and jammed, with the lower word jammed in afterwards. */
  lemma JamUpper(v64: nat, v0: nat, s: nat)
    requires v0 < W64
    ensures Or1(Jam(v64, Pow2(s)), v0 != 0) == Jam(v64 * W64 + v0, Pow2(64 + s))
  {
    var p := Pow2(s);
    WordPower(0);
    Pow2Add(64, s);
    QuotientBounds(v64, p);
    FarQuotient(v64, v0, p);
    assert W64 * p == p * W64;
  }

  lemma TopWord(z: U128)
    requires z.Ok()
    ensures Or1(z.v64, z.v0 != 0) == Jam(z.Val(), Pow2(64)) && Pow2(64) == W64
  {
    WordPower(0);
    QuotientUnique(z.Val(), W64, z.v64);
  }

  lemma OrEven(c: nat, w: nat, sticky: bool)
    requires c % 2 == 0
    ensures Or1(c + w, sticky) == c + Or1(w, sticky)
  {
  }

  lemma ScaledWord(c: nat, exp: int, l: int)
    requires exp - 64 >= l
    ensures Scaled128(c * W64, exp, l) == Scaled64(c, exp, l)
  {
    WordPower(0);
    Pow2Add(64, exp - 64 - l);
    assert c * W64 * Pow2(exp - 64 - l) == c * (W64 * Pow2(exp - 64 - l));
  }

  /** Normalizing by at most one place. */
  lemma OnePlace(sig: nat, exp: int, n: int, l: int)
    requires P61 <= sig < W63 && Stands(sig, exp, n, l, 2) && exp - 1 >= l
    ensures if sig < P62 then Settled(exp - 1, 2 * sig, n, l) else Settled(exp, sig, n, l)
  {
    if sig < P62 {
      assert Pow2(1) == 2;
      StandsShifted(sig, exp, n, l, 2, 1);
      assert sig * 2 == 2 * sig;
      StandsCoarser(2 * sig, exp - 1, n, l, 4, 128);
    } else {
      StandsCoarser(sig, exp, n, l, 2, 256);
    }
  }

  // ---- equal signs ----

  /** Adding when the product has the smaller exponent, or the same. */
  lemma AddBelow(v: U128, expP: int, c: nat, expC: int, l: int)
    requires v.Ok() && expP - 64 >= l && expP <= expC && c % 2 == 0
    ensures var s := expC - expP; var w := if s > 0 then Jam(v.v64, Pow2(s)) else v.v64;
      Stands(Or1(c + w, v.v0 != 0), expC, Scaled64(c, expC, l) + Scaled128(v.Val(), expP, l), l, 2)
  {
    var s: nat := expC - expP;
    var w := if s > 0 then Jam(v.v64, Pow2(s)) else v.v64;
    if s == 0 {
      JamByOne(v.v64);
    }
    JamUpper(v.v64, v.v0, s);
    OrEven(c, w, v.v0 != 0);
    StandsExactly(v.Val(), expP - 64, l, 1);
    StandsJammed(v.Val(), expP - 64, Scaled128(v.Val(), expP, l), l, 1, 64 + s, 2);
    StandsSum(Jam(v.Val(), Pow2(64 + s)), expC, Scaled128(v.Val(), expP, l), l, 2, c / 2);
  }

  lemma JamByOne(x: nat)
    ensures Jam(x, Pow2(0)) == x
  {
    QuotientUnique(x, 1, x);
  }

  /** The addend jammed down to the product's exponent. */
  lemma AddendBelow(c: nat, expC: int, expP: int, l: int)
    requires expC < expP && expC - 64 >= l
    ensures Stands(Jam(c * W64, Pow2(expP - expC)), expP - 64, Scaled64(c, expC, l), l, 2)
  {
    StandsExactly(c * W64, expC - 64, l, 1);
    ScaledWord(c, expC, l);
    StandsJammed(c * W64, expC - 64, Scaled64(c, expC, l), l, 1, expP - expC, 2);
  }

  /** Adding when the product has the larger exponent. */
  lemma AddAbove(v: U128, expP: int, c: nat, expC: int, sum: U128, l: int)
    requires v.Ok() && sum.Ok() && expC < expP && expC - 64 >= l && v.Val() % 2 == 0
    requires sum.Val() == v.Val() + Jam(c * W64, Pow2(expP - expC))
    ensures Stands(Or1(sum.v64, sum.v0 != 0), expP, Scaled64(c, expC, l) + Scaled128(v.Val(), expP, l), l, 2)
  {
    var j := Jam(c * W64, Pow2(expP - expC));
    AddendBelow(c, expC, expP, l);
    StandsSum(j, expP - 64, Scaled64(c, expC, l), l, 2, v.Val() / 2);
    TopWord(sum);
    StandsJammed(sum.Val(), expP - 64, Scaled64(c, expC, l) + Scaled128(v.Val(), expP, l), l, 2, 64, 2);
  }

  /** Bounds of the shifted operands. */
  lemma ShiftedSmall(x: nat, s: nat, t: nat, h: nat)
    requires t <= s && x < 2 * h * Pow2(t)
    ensures Jam(x, Pow2(s)) < 2 * h
  {
    hide Jam;
    Pow2Add(t, s - t);
    MulOrder(1, Pow2(s - t), Pow2(t));
    LargerPower(2 * h, Pow2(t), Pow2(s));
    JamBetween(x, Pow2(s), 0, h);
  }

  lemma LargerPower(k: nat, p: nat, q: nat)
    requires p <= q
    ensures k * p <= k * q
  {
    MulNonNegative(k, q - p);
  }

  method SameSignF64(v: U128, expP: int, c: nat, expC: int, ghost l: int) returns (exp: int, sig: nat)
    requires v.Ok() && P61 <= v.v64 < P62 && v.Val() % 2 == 0 && P61 <= c < P62 && c % 2 == 0
    requires expP - 100 >= l && expC - 100 >= l
    ensures l <= exp && (exp <= expP || exp <= expC)
    ensures Settled(exp, sig, Scaled64(c, expC, l) + Scaled128(v.Val(), expP, l), l)
  {
    hide Jam, Stands, Pow2, Settled, Scaled64, Scaled128;
    ghost var n := Scaled64(c, expC, l) + Scaled128(v.Val(), expP, l);
    var expDiff := expP - expC;
    exp := expP;
    if expDiff <= 0 {
      exp := expC;
      AddBelow(v, expP, c, expC, l);
      var w := v.v64;
      if expDiff < 0 {
        w := ShiftRightJam64(v.v64, -expDiff);
        ShiftedOnce(v.v64, -expDiff, P61 / 2);
      }
      sig := Or1(c + w, v.v0 != 0);
    } else {
      AlignedAddend(c, expDiff);
      var c128 := ShiftRightJam128(U128(c, 0), expDiff);
      var sum := Add128(v, c128);
      AddAbove(v, expP, c, expC, sum, l);
      sig := Or1(sum.v64, sum.v0 != 0);
    }
    OnePlace(sig, exp, n, l);
    if sig < P62 {
      exp := exp - 1;
      sig := U64(sig * 2);
    }
  }

  lemma ShiftedOnce(x: nat, s: nat, h: nat)
    requires s >= 1 && x < 2 * h * 2
    ensures Jam(x, Pow2(s)) < 2 * h
  {
    assert Pow2(1) == 2;
    ShiftedSmall(x, s, 1, h);
  }

  /** The aligned addend stays below a half of the product's range. */
  lemma AlignedAddend(c: nat, s: nat)
    requires c < P62 && s >= 1
    ensures U128(c, 0).Ok() && U128(c, 0).Val() == c * W64 && Jam(c * W64, Pow2(s)) < P61 * W64
  {
    assert P61 * W64 == 2 * (P61 / 2 * W64);
    ShiftedOnce(c * W64, s, P61 / 2 * W64);
  }

  // ---- normalizing a difference ----

  /**
   The difference z, its point after the upper word at exponent exp, stands for n: exactly, or only up
   to multiples of the unit, and then its leading bit is near the top.
  */
  ghost predicate Difference(z: U128, exp: int, n: int, l: int, exact: bool) {
    && z.Ok() && z.Val() > 0 && z.v64 < P62 && exp - 199 >= l
    && (exact ==> n == Scaled128(z.Val(), exp, l))
    && (!exact ==> Stands(z.Val(), exp - 64, n, l, 2 * W64) && z.v64 >= P61 / 2)
  }

  /** The upper word is empty: the lower one holds the exact difference. */
  lemma LowWordLeft(z: U128, exp: int, n: int, l: int, exact: bool, s: nat)
    requires Difference(z, exp, n, l, exact) && z.v64 == 0 && s <= 63 && P62 <= z.v0 * Pow2(s) < W63
    ensures Settled(exp - 64 - s, z.v0 * Pow2(s), n, l)
  {
    StandsExactly(z.v0, exp - 64, l, 1);
    StandsShifted(z.v0, exp - 64, n, l, 1, s);
    ExactStands(z.v0, exp - 64, n, l, s);
  }

  lemma ExactStands(x: nat, e: int, n: int, l: int, s: nat)
    requires e - s >= l && n == x * Pow2(e - l)
    ensures Stands(x * Pow2(s), e - s, n, l, 512)
    ensures n == x * Pow2(s) * Pow2(e - s - l)
  {
    Pow2Add(s, e - s - l);
    StandsExactly(x * Pow2(s), e - s, l, 512);
    hide Pow2, Stands;
    Factors(x, Pow2(s), Pow2(e - s - l));
  }

  lemma Factors(x: int, y: int, z: int)
    ensures x * y * z == x * (y * z)
  {
  }

  lemma LowWordRight(z: U128, exp: int, n: int, l: int, exact: bool)
    requires Difference(z, exp, n, l, exact) && z.v64 == 0 && z.v0 >= W63
    ensures Settled(exp - 63, Jam(z.v0, Pow2(1)), n, l)
  {
    assert Pow2(1) == 2;
    StandsExactly(z.v0, exp - 64, l, 1);
    StandsJammed(z.v0, exp - 64, n, l, 1, 1, 2);
    StandsCoarser(Jam(z.v0, 2), exp - 63, n, l, 2, 256);
    JamBetween(z.v0, 2, P61, P62);
  }

  /** The usual case: shift left, then jam the lower word. */
  lemma HighWord(z: U128, exp: int, n: int, l: int, exact: bool, s: nat, w: U128)
    requires Difference(z, exp, n, l, exact) && 1 <= s <= 63 && P62 <= z.v64 * Pow2(s) < W63
    requires w.Ok() && w.Val() == z.Val() * Pow2(s) && w.v64 < W63
    ensures Settled(exp - s, Or1(w.v64, w.v0 != 0), n, l)
  {
    hide Jam, Pow2, Stands;
    TopWord(w);
    UpperAtLeast(z, s, w);
    if exact {
      ExactStands(z.Val(), exp - 64, n, l, s);
      StandsExactly(w.Val(), exp - 64 - s, l, 1);
      StandsJammed(w.Val(), exp - 64 - s, n, l, 1, 64, 2);
      StandsCoarser(Or1(w.v64, w.v0 != 0), exp - s, n, l, 2, 256);
    } else {
      InexactShift(z.v64, s);
      StandsShifted(z.Val(), exp - 64, n, l, 2 * W64, s);
      UnitDivides(s);
      StandsJammed(w.Val(), exp - 64 - s, n, l, 2 * W64 * Pow2(s), 64, 16);
      StandsCoarser(Or1(w.v64, w.v0 != 0), exp - s, n, l, 16, 32);
    }
  }

  lemma UpperAtLeast(z: U128, s: nat, w: U128)
    requires z.Ok() && w.Ok() && w.Val() == z.Val() * Pow2(s) && z.v64 * Pow2(s) >= P62
    ensures w.v64 >= P62
  {
    MulNonNegative(z.v0, Pow2(s));
    assert z.Val() * Pow2(s) == z.v64 * Pow2(s) * W64 + z.v0 * Pow2(s);
  }

  lemma InexactShift(a: nat, s: nat)
    requires a >= P61 / 2 && a * Pow2(s) < W63
    ensures s <= 2
  {
    if s >= 3 {
      assert Pow2(3) == 8;
      Pow2Add(3, s - 3);
      MulOrder(1, Pow2(s - 3), 8);
      LargerPower(a, 8, Pow2(s));
    }
  }

  lemma UnitDivides(s: nat)
    requires s <= 2
    ensures (16 * Pow2(64)) % (2 * W64 * Pow2(s)) == 0
  {
    WordPower(0);
    assert Pow2(0) == 1 && Pow2(1) == 2 && Pow2(2) == 4;
  }

  method NormalizeF64(z0: U128, exp0: int, ghost n: int, ghost l: int, ghost exact: bool) returns (exp: int, sig: nat)
    requires Difference(z0, exp0, n, l, exact)
    ensures l <= exp <= exp0 && Settled(exp, sig, n, l)
  {
    hide Jam, Stands, Pow2, Settled, Difference, Or1;
    DifferenceFacts(z0, exp0, n, l, exact);
    var z := z0;
    exp := exp0;
    if z.v64 == 0 {
      exp := exp - 64;
      z := U128(z.v0, 0);
    }
    var zeros: int := CountLeadingZeros64(z.v64);
    var shiftCount := zeros - 1;
    exp := exp - shiftCount;
    LeadingBit(z.v64, zeros);
    if shiftCount < 0 {
      sig := ShortShiftRightJam64(z.v64, -shiftCount);
      sig := Or1(sig, z.v0 != 0);
      LowWordRight(z0, exp0, n, l, exact);
      OrNothing(Jam(z.v64, Pow2(1)));
    } else {
      ghost var unshifted := z;
      z := ShortShiftLeft128(z, shiftCount);
      sig := z.v64;
      sig := Or1(sig, z.v0 != 0);
      if z0.v64 == 0 {
        LowWordLeft(z0, exp0, n, l, exact, shiftCount);
        LowIsZero(z, z0.v0, Pow2(shiftCount));
      } else {
        HighBound(z0, shiftCount, z);
        HighWord(z0, exp0, n, l, exact, shiftCount, z);
      }
    }
  }

  lemma DifferenceFacts(z: U128, exp: int, n: int, l: int, exact: bool)
    requires Difference(z, exp, n, l, exact)
    ensures z.Ok() && z.v64 < P62 && (z.v64 > 0 || z.v0 > 0) && exp - 199 >= l
  {
  }

  lemma OrNothing(x: nat)
    ensures Or1(x, false) == x
  {
  }

  lemma LowIsZero(z: U128, x: nat, p: nat)
    requires z.Ok() && z.Val() == U128(x, 0).Val() * p
    ensures z.v64 == x * p && z.v0 == 0 && Or1(z.v64, z.v0 != 0) == x * p
  {
    assert x * W64 * p == x * p * W64;
    MulNonNegative(x, p);
  }

  /** The shift brings the leading bit to bit 62. */
  lemma LeadingBit(a: nat, zeros: nat)
    requires 0 < a < W64 && zeros <= 63 && W63 <= a * Pow2(zeros) < W64
    ensures zeros == 0 ==> a >= W63
    ensures zeros > 0 ==> P62 <= a * Pow2(zeros - 1) < W63
    ensures a < P62 ==> zeros >= 2
  {
    assert Pow2(0) == 1 && Pow2(1) == 2;
    if zeros > 0 {
      assert a * (2 * Pow2(zeros - 1)) == 2 * (a * Pow2(zeros - 1));
    }
  }

  lemma HighBound(z: U128, s: nat, w: U128)
    requires z.Ok() && w.Ok() && w.Val() == z.Val() * Pow2(s) && z.v64 * Pow2(s) < W63 && s <= 63
    ensures w.v64 < W63
  {
    var p := Pow2(s);
    WordPower(s);
    WordPower(63);
    assert Pow2(1) == 2;
    hide Pow2;
    TopFits(z.v64, p, Pow2(64 - s), s);
    MulOrder(z.Val(), (z.v64 + 1) * W64, p);
    NextUpper(z.v64, p);
  }

  lemma NextUpper(v: int, p: int)
    ensures (v + 1) * W64 * p == (v * p + p) * W64
  {
    assert (v + 1) * W64 * p == ((v + 1) * p) * W64;
    assert (v + 1) * p == v * p + p;
  }

  /** A multiple of p below the top bit leaves room for p more. */
  lemma TopFits(a: nat, p: nat, r: nat, s: nat)
    requires p == Pow2(s) && s <= 63 && a * p < W63
    ensures a * p + p <= W63
  {
    WordPower(63);
    assert Pow2(1) == 2;
    Pow2Add(s, 63 - s);
    var q := Pow2(63 - s);
    assert q * p == W63 by { assert p * q == W63; assert q * p == p * q; }
    MulOrder(a, q, p);
    MulOrder(q, a, p);
  }

  // ---- opposite signs ----

  /** Only the upper word of the product is shifted; the lower one is left in place. */
  lemma MixedBelow(v: U128, s: nat)
    requires v.Ok()
    ensures SameSide(Jam(v.v64, Pow2(s)) * W64 + v.v0, v.Val(), Pow2(s), 2 * W64)
  {
    hide Pow2, SameSide;
    MixedShift(v.v64, v.v0, Pow2(s));
  }

  lemma MixedShift(v64: nat, v0: nat, p: nat)
    requires p > 0 && v0 < W64
    ensures SameSide(Jam(v64, p) * W64 + v0, v64 * W64 + v0, p, 2 * W64)
  {
    hide SameSide;
    var q, r := v64 / p, v64 % p;
    QuotientBounds(v64, p);
    MixedProducts(v64, v0, q, r, p);
    if r == 0 && v0 == 0 {
      SameValue(Jam(v64, p) * W64 + v0, v64 * W64 + v0, p, 2 * W64);
    } else {
      MixedBounds(v64, v0, q, r, p);
      MixedGap(v64 * W64 + v0, q, r * W64 + v0, p);
      SameGap(Jam(v64, p) * W64 + v0, v64 * W64 + v0, p, 2 * W64, q / 2);
    }
  }

  lemma MixedProducts(v64: nat, v0: nat, q: nat, r: nat, p: nat)
    requires v64 == q * p + r
    ensures v64 * W64 + v0 == q * W64 * p + (r * W64 + v0)
  {
    assert q * W64 * p == (q * p) * W64;
  }

  lemma MixedGap(n: int, q: nat, rest: int, p: nat)
    requires n == q * W64 * p + rest && 0 < rest < p * W64 && p > 0
    ensures var m := q / 2; m * (2 * W64) * p < n < (m + 1) * (2 * W64) * p
  {
    var m := q / 2;
    MulOrder(m * (2 * W64), q * W64, p);
    MulOrder((q + 1) * W64, (m + 1) * (2 * W64), p);
    assert (q + 1) * W64 * p == q * W64 * p + p * W64;
  }

  lemma MixedBounds(v64: nat, v0: nat, q: nat, r: nat, p: nat)
    requires p > 0 && v0 < W64 && v64 == q * p + r && r < p && q == v64 / p && r == v64 % p && (r != 0 || v0 != 0)
    ensures var m := q / 2; var w := Jam(v64, p) * W64 + v0; m * (2 * W64) < w < (m + 1) * (2 * W64)
    ensures 0 < r * W64 + v0 < p * W64
  {
    MulOrder(r + 1, p, W64);
  }

  lemma ExactHalf(v: U128)
    requires v.Ok() && v.Val() % 2 == 0
    ensures Pow2(1) == 2 && Jam(v.Val(), 2) * 2 == v.Val()
  {
    assert Pow2(1) == 2;
  }

  lemma HalfScaled(v: nat, w: nat, expP: int, expC: int, l: int)
    requires w * 2 == v && expC == expP + 1 && expP - 64 >= l
    ensures Scaled128(w, expC, l) == Scaled128(v, expP, l)
  {
    assert Pow2(expC - 64 - l) == 2 * Pow2(expP - 64 - l);
    assert w * (2 * Pow2(expP - 64 - l)) == w * 2 * Pow2(expP - 64 - l);
  }

  lemma ScaledDifference(a: nat, b: nat, exp: int, l: int)
    requires exp - 64 >= l && a >= b
    ensures Scaled128(a - b, exp, l) == Scaled128(a, exp, l) - Scaled128(b, exp, l)
  {
    assert (a - b) * Pow2(exp - 64 - l) == a * Pow2(exp - 64 - l) - b * Pow2(exp - 64 - l);
  }

  /** The addend has the exponent next above: nothing is lost. */
  lemma AddendNextAbove(v: U128, expP: int, c: nat, z: U128, l: int)
    requires v.Ok() && v.v64 < P62 && v.Val() % 2 == 0 && P61 <= c < P62 && expP - 200 >= l && z.Ok()
    requires z.Val() == c * W64 - Jam(v.Val(), 2)
    ensures Difference(z, expP + 1, Scaled64(c, expP + 1, l) - Scaled128(v.Val(), expP, l), l, true)
  {
    ExactHalf(v);
    var w := Jam(v.Val(), 2);
    ScaledWord(c, expP + 1, l);
    HalfScaled(v.Val(), w, expP, expP + 1, l);
    ScaledDifference(c * W64, w, expP + 1, l);
  }

  /** The addend has a much larger exponent: the lower word stands for something smaller than it says. */
  lemma AddendFarAbove(v: U128, expP: int, c: nat, expC: int, z: U128, l: int)
    requires v.Ok() && v.v64 < P62 && P61 <= c < P62 && c % 2 == 0 && expP - 200 >= l && expC - expP >= 2 && z.Ok()
    requires z.Val() == c * W64 - (Jam(v.v64, Pow2(expC - expP)) * W64 + v.v0)
    ensures Difference(z, expC, Scaled64(c, expC, l) - Scaled128(v.Val(), expP, l), l, false)
  {
    hide Jam;
    var s := expC - expP;
    var w := Jam(v.v64, Pow2(s)) * W64 + v.v0;
    var p := Scaled128(v.Val(), expP, l);
    assert Pow2(2) == 4;
    ShiftedSmall(v.v64, s, 2, P61 / 4);
    MixedBelow(v, s);
    StandsExactly(v.Val(), expP - 64, l, 1);
    Compose(w, v.Val(), Pow2(s), 2 * W64, p, Pow2(expP - 64 - l), 1, 2 * W64 * Pow2(s));
    Pow2Add(expP - 64 - l, s);
    StandsSum(w, expC - 64, p, l, 2 * W64, c / 2);
    assert c / 2 * (2 * W64) == c * W64;
    ScaledWord(c, expC, l);
  }

  /** The product has the exponent next above: nothing is lost. */
  lemma ProductNextAbove(v: U128, expP: int, c: nat, z: U128, l: int)
    requires v.Ok() && v.v64 < P62 && c < P62 && expP - 201 >= l && z.Ok() && z.Val() > 0
    requires z.Val() == v.Val() - Jam(c * W64, 2)
    ensures Difference(z, expP, Scaled128(v.Val(), expP, l) - Scaled64(c, expP - 1, l), l, true)
  {
    var j := Jam(c * W64, 2);
    ExactHalf(U128(c, 0));
    ScaledWord(c, expP - 1, l);
    HalfScaled(c * W64, j, expP - 1, expP, l);
    ScaledDifference(v.Val(), j, expP, l);
  }

  /** The product has a larger exponent by two or more. */
  lemma ProductFarAbove(v: U128, expP: int, c: nat, expC: int, z: U128, l: int)
    requires v.Ok() && P61 <= v.v64 < P62 && v.Val() % 2 == 0 && c < P62 && expC - 200 >= l &&
      expP - expC >= 2 && z.Ok()
    requires z.Val() == v.Val() - Jam(c * W64, Pow2(expP - expC))
    ensures Difference(z, expP, Scaled128(v.Val(), expP, l) - Scaled64(c, expC, l), l, false)
  {
    hide Jam, Stands, Pow2, Scaled128, Scaled64;
    var j := Jam(c * W64, Pow2(expP - expC));
    FourfoldSmall(c * W64, expP - expC);
    AddendBelow(c, expC, expP, l);
    StandsSum(j, expP - 64, Scaled64(c, expC, l), l, 2, v.Val() / 2);
    ScaledIs(v.Val(), expP, l);
    StandsCoarser(z.Val(), expP - 64, Scaled128(v.Val(), expP, l) - Scaled64(c, expC, l), l, 2, W64);
  }

  lemma FourfoldSmall(x: nat, s: nat)
    requires x < P62 * W64 && s >= 2
    ensures Jam(x, Pow2(s)) < P61 / 2 * W64
  {
    assert Pow2(2) == 4;
    ShiftedSmall(x, s, 2, P61 / 4 * W64);
  }

  lemma ScaledIs(v: nat, exp: int, l: int)
    requires exp - 64 >= l && v % 2 == 0
    ensures v / 2 * 2 * Pow2(exp - 64 - l) == Scaled128(v, exp, l)
  {
  }

  lemma ProductAbove(v: U128, expP: int, c: nat, expC: int, z: U128, l: int)
    requires v.Ok() && P61 <= v.v64 < P62 && v.Val() % 2 == 0 && c < P62 && expC - 200 >= l &&
      expP - expC >= 1 && z.Ok()
    requires z.Val() == v.Val() - Jam(c * W64, Pow2(expP - expC))
    ensures Difference(z, expP, Scaled128(v.Val(), expP, l) - Scaled64(c, expC, l), l, expP - expC == 1)
  {
    hide Jam, Difference;
    AlignedAddend(c, expP - expC);
    if expP - expC == 1 {
      assert Pow2(1) == 2;
      ProductNextAbove(v, expP, c, z, l);
    } else {
      ProductFarAbove(v, expP, c, expC, z, l);
    }
  }

  /** Equal exponents: the exact difference, whichever way round. */
  lemma SameExponent(v: U128, exp: int, c: nat, l: int)
    requires v.Ok() && v.v64 < P62 && c < P62 && exp - 200 >= l
    ensures var p, a := Scaled128(v.Val(), exp, l), Scaled64(c, exp, l);
      && (v.Val() > c * W64 ==> p > a) && (v.Val() == c * W64 ==> p == a) && (v.Val() < c * W64 ==> p < a)
      && (forall z: U128 :: z.Ok() && z.Val() == v.Val() - c * W64 && z.Val() > 0 ==>
          Difference(z, exp, p - a, l, true))
      && (forall z: U128 :: z.Ok() && z.Val() == c * W64 - v.Val() && z.Val() > 0 ==>
          Difference(z, exp, a - p, l, true))
  {
    ScaledWord(c, exp, l);
    MulOrder(v.Val(), c * W64, Pow2(exp - 64 - l));
    MulOrder(c * W64, v.Val(), Pow2(exp - 64 - l));
    if v.Val() >= c * W64 {
      ScaledDifference(v.Val(), c * W64, exp, l);
    } else {
      ScaledDifference(c * W64, v.Val(), exp, l);
    }
  }

  lemma DifferencePositive(z: U128, exp: int, n: int, l: int, exact: bool)
    requires Difference(z, exp, n, l, exact)
    ensures n > 0
  {
    if exact {
      MulSign(z.Val(), Pow2(exp - 64 - l));
    } else {
      StandsPositive(z.Val(), exp - 64, n, l, 2 * W64);
    }
  }

  /** Reading the wrapped difference of the upper words. */
  lemma UpperDifference(v: U128, c: nat)
    requires v.Ok() && v.v64 < P62 && c < P62
    ensures var z := U128(U64(v.v64 - c), v.v0);
      && z.Ok() && (z.v64 == 0 && z.v0 == 0 <==> v.Val() == c * W64)
      && (z.v64 >= W63 <==> v.Val() < c * W64)
      && (v.Val() >= c * W64 ==> z.Val() == v.Val() - c * W64)
      && (v.Val() < c * W64 ==> Sub128(U128(0, 0), z).Val() == c * W64 - v.Val())
  {
    if v.v64 < c {
      assert U64(v.v64 - c) == W64 + v.v64 - c;
    }
  }

  method OppositeSignF64(v: U128, expP: int, c: nat, expC: int, ghost l: int)
    returns (cancelled: bool, addendLarger: bool, exp: int, sig: nat)
    requires v.Ok() && P61 <= v.v64 < P62 && v.Val() % 2 == 0 && P61 <= c < P62 && c % 2 == 0
    requires expP - 200 >= l && expC - 200 >= l
    ensures var p, a := Scaled128(v.Val(), expP, l), Scaled64(c, expC, l);
      && (cancelled <==> p == a) && (!cancelled ==> (addendLarger <==> a > p))
      && (!cancelled ==> l <= exp && (exp <= expP || exp <= expC))
      && (!cancelled ==> Settled(exp, sig, if a > p then a - p else p - a, l))
  {
    hide Jam, Stands, Pow2, Settled, Difference, Scaled128, Scaled64, Or1;
    var expDiff := expP - expC;
    cancelled, addendLarger, exp, sig := false, false, expP, 0;
    ghost var p: int := Scaled128(v.Val(), expP, l);
    ghost var a: int := Scaled64(c, expC, l);
    ghost var n: int, exact: bool := p - a, true;
    var z: U128;
    if expDiff < 0 {
      exp := expC;
      addendLarger := true;
      n := a - p;
      exact := expDiff == -1;
      var w: U128;
      BelowAddend(v, c, -expDiff);
      if expDiff < -1 {
        w := U128(ShiftRightJam64(v.v64, -expDiff), v.v0);
        z := Sub128(U128(c, 0), w);
        AddendFarAbove(v, expP, c, expC, z, l);
      } else {
        w := ShiftWords(v, 1);
        z := Sub128(U128(c, 0), w);
        AddendNextAbove(v, expP, c, z, l);
      }
    } else if expDiff == 0 {
      UpperDifference(v, c);
      SameExponent(v, expP, c, l);
      z := U128(U64(v.v64 - c), v.v0);
      if z.v64 == 0 && z.v0 == 0 {
        cancelled := true;
        return;
      }
      if z.v64 >= W63 {
        addendLarger := true;
        n := a - p;
        z := Sub128(U128(0, 0), z);
      }
    } else {
      exact := expDiff == 1;
      AlignedAddend(c, expDiff);
      z := Sub128(v, ShiftRightJam128(U128(c, 0), expDiff));
      ProductAbove(v, expP, c, expC, z, l);
    }
    DifferencePositive(z, exp, n, l, exact);
    exp, sig := NormalizeF64(z, exp, n, l, exact);
  }

  /** The product shifted below the addend is smaller than it. */
  lemma BelowAddend(v: U128, c: nat, s: nat)
    requires v.Ok() && v.v64 < P62 && v.Val() % 2 == 0 && P61 <= c < P62 && s >= 1
    ensures U128(c, 0).Ok() && U128(c, 0).Val() == c * W64 && Pow2(1) == 2
    ensures Jam(v.Val(), 2) <= c * W64
    ensures s >= 2 ==> Jam(v.v64, Pow2(s)) * W64 + v.v0 <= c * W64 && Jam(v.v64, Pow2(s)) < W64
  {
    ExactHalf(v);
    assert Pow2(2) == 4;
    if s >= 2 {
      ShiftedSmall(v.v64, s, 2, P61 / 4);
    }
  }

  // ---- the whole operation ----

  /** The fields of a number, and for a finite one the significand and exponent they stand for. */
  datatype Double = Double(sign: bool, exp: nat, frac: nat) {
    predicate IsFinite() { exp < 0x7FF && frac < P52 }
    function Sig(): nat { if exp == 0 then frac else P52 + frac }
    function Exp(): nat { if exp == 0 then 1 else exp }
  }

  /** The result: the addend unchanged, a zero whose sign the rounding mode decides, or something to round. */
  datatype Result = Addend | ExactZero | ToRound(negative: bool, exp: int, sig: nat)

  /** Two to the SCALE is a unit of which everything here is a multiple. */
  const SCALE: int := -3000

  function ProductOf(a: Double, b: Double): nat {
    a.Sig() * b.Sig() * 0x10_0000 * Pow2(a.Exp() + b.Exp() - 0x3FE - 64 - SCALE)
  }

  function AddendOf(c: Double): nat { c.Sig() * 512 * Pow2(c.Exp() - SCALE) }

  function Signed(negative: bool, magnitude: nat): int { if negative then 0 - magnitude else magnitude }

  /** The exact value of a * b + c, in units of two to the SCALE. */
  function ExactSum(a: Double, b: Double, c: Double): int {
    Signed(a.sign != b.sign, ProductOf(a, b)) + Signed(c.sign, AddendOf(c))
  }

  /** softfloat_normSubnormalF64Sig: the same value with the leading bit in place. */
  method NormSubnormalF64Sig(sig: nat) returns (exp: int, z: nat)
    requires 0 < sig < P52
    ensures P52 <= z < 2 * P52 && -51 <= exp <= 0 && z == sig * Pow2(1 - exp)
  {
    var shiftCount: int := CountLeadingZeros64(sig) - 11;
    SubnormalShift(sig, shiftCount + 11);
    exp := 1 - shiftCount;
    z := U64(sig * Pow2(shiftCount));
  }

  lemma SubnormalShift(sig: nat, n: nat)
    requires 0 < sig < P52 && n <= 63 && W63 <= sig * Pow2(n) < W64
    ensures n >= 12 && P52 <= sig * Pow2(n - 11) < 2 * P52
  {
    Pow2Small();
    Pow2Add(1, 10);
    assert Pow2(1) == 2;
    if n <= 11 {
      Pow2Add(n, 11 - n);
      hide Pow2;
      MulOrder(1, Pow2(11 - n), Pow2(n));
      ProductsCommute(Pow2(11 - n), Pow2(n));
      LargerPower(sig, Pow2(n), 2048);
    } else {
      Pow2Add(11, n - 11);
      hide Pow2;
      Times2048(sig, Pow2(n - 11));
    }
  }

  lemma Times2048(sig: nat, p: nat)
    ensures sig * (2048 * p) == 2048 * (sig * p)
  {
  }

  /** A significand and exponent that stand for the number x. */
  ghost predicate Denotes(sig: nat, exp: int, x: Double) {
    P52 <= sig < 2 * P52 && -51 <= exp < 0x7FF && exp <= x.Exp() && sig == x.Sig() * Pow2(x.Exp() - exp)
  }

  method Normal(x: Double) returns (exp: int, sig: nat)
    requires x.IsFinite() && x.Sig() > 0
    ensures Denotes(sig, exp, x)
  {
    exp, sig := x.exp, x.frac;
    if exp == 0 {
      exp, sig := NormSubnormalF64Sig(sig);
    } else {
      sig := sig + P52;
    }
  }

  lemma NormalAddend(c: Double, exp: int, sig: nat)
    requires Denotes(sig, exp, c)
    ensures Scaled64(sig * 512, exp, SCALE) == AddendOf(c)
  {
    Pow2Add(c.Exp() - exp, exp - SCALE);
    var s, p, q := c.Sig(), Pow2(c.Exp() - exp), Pow2(exp - SCALE);
    assert s * p * 512 * q == s * 512 * (p * q);
  }

  lemma NormalProduct(a: Double, b: Double, expA: int, sigA: nat, expB: int, sigB: nat)
    requires Denotes(sigA, expA, a) && Denotes(sigB, expB, b)
    ensures Scaled128(sigA * 1024 * (sigB * 1024), expA + expB - 0x3FE, SCALE) == ProductOf(a, b)
  {
    var e := expA + expB - 0x3FE - 64 - SCALE;
    var p, q, r := Pow2(a.Exp() - expA), Pow2(b.Exp() - expB), Pow2(e);
    Pow2Add(a.Exp() - expA, b.Exp() - expB);
    Pow2Add(a.Exp() - expA + b.Exp() - expB, e);
    hide Pow2;
    FourFactors(a.Sig(), b.Sig(), p, q, r);
  }

  lemma FourFactors(s: int, t: int, p: int, q: int, r: int)
    ensures s * p * 1024 * (t * q * 1024) * r == s * t * 0x10_0000 * (p * q * r)
  {
    var u, v := s * p, t * q;
    assert u * 1024 * (v * 1024) == u * v * 0x10_0000;
    assert u * v == (s * t) * (p * q) by {
      assert s * p * (t * q) == s * (p * (t * q));
      assert p * (t * q) == t * (p * q);
      assert s * (t * (p * q)) == s * t * (p * q);
    }
    Regroup(s * t, p * q, r);
  }

  lemma Regroup(x: int, y: int, r: int)
    ensures x * y * 0x10_0000 * r == x * 0x10_0000 * (y * r)
  {
    assert x * y * 0x10_0000 == x * 0x10_0000 * y;
    assert x * 0x10_0000 * y * r == x * 0x10_0000 * (y * r);
  }

  /** The product of the shifted significands, its point behind the upper word. */
  lemma ProductRange(sigA: nat, sigB: nat)
    requires P52 <= sigA < 2 * P52 && P52 <= sigB < 2 * P52
    ensures var v := sigA * 1024 * (sigB * 1024); P61 / 2 * W64 <= v < P62 * W64 && v % 2 == 0
  {
    BothRanges(sigA, sigB);
    ScaledProduct(sigA, sigB);
  }

  lemma ScaledProduct(x: int, y: int)
    ensures x * 1024 * (y * 1024) == x * y * 0x10_0000
  {
  }

  lemma BothRanges(x: nat, y: nat)
    requires P52 <= x < 2 * P52 && P52 <= y < 2 * P52
    ensures P52 * P52 <= x * y < 4 * (P52 * P52)
  {
    MulOrder(P52, x, y);
    MulOrder(x, 2 * P52, y);
    MulOrder(P52, y, P52);
    MulOrder(y, 2 * P52, 2 * P52);
    assert P52 * y == y * P52 && 2 * P52 * y == y * (2 * P52);
  }

  lemma Doubled(v: nat, exp: int, l: int)
    requires exp - 65 >= l
    ensures Scaled128(2 * v, exp - 1, l) == Scaled128(v, exp, l)
  {
    assert Pow2(exp - 64 - l) == 2 * Pow2(exp - 65 - l);
    assert 2 * v * Pow2(exp - 65 - l) == v * (2 * Pow2(exp - 65 - l));
  }

  /** The product with its leading bit at one of two places, and its exponent. */
  method ProductF64(expA: int, sigA: nat, expB: int, sigB: nat, ghost a: Double, ghost b: Double)
      returns (v: U128, expZ: int)
    requires Denotes(sigA, expA, a) && Denotes(sigB, expB, b)
    ensures v.Ok() && P61 <= v.v64 < P62 && v.Val() % 2 == 0 && SCALE + 500 <= expZ < 0x1000
    ensures Scaled128(v.Val(), expZ, SCALE) == ProductOf(a, b)
  {
    hide Pow2, Scaled128, ProductOf, Denotes, U64, Add128;
    DenotesRange(sigA, expA, a);
    DenotesRange(sigB, expB, b);
    expZ := expA + expB - 0x3FE;
    var sigA1, sigB1 := U64(sigA * 1024), U64(sigB * 1024);
    ProductRange(sigA, sigB);
    NormalProduct(a, b, expA, sigA, expB, sigB);
    v := Mul64To128(sigA1, sigB1);
    DoubledWord(v);
    if v.v64 < P61 {
      Doubled(v.Val(), expZ, SCALE);
      expZ := expZ - 1;
      v := Add128(v, v);
    }
  }

  /** The double word, or twice it, has its leading bit in place. */
  lemma DoubledWord(v: U128)
    requires v.Ok() && P61 / 2 * W64 <= v.Val() < P62 * W64
    ensures P61 / 2 <= v.v64 < P62
    ensures v.v64 < P61 ==>
      var w := Add128(v, v); w.Ok() && w.Val() == 2 * v.Val() && P61 <= w.v64 < P62 && w.Val() % 2 == 0
  {
    if v.v64 < P61 {
      assert v.Val() + v.Val() < W128;
      var w := Add128(v, v);
      hide Add128;
      assert P61 * W64 <= w.Val() < P62 * W64;
    }
  }

  lemma DenotesRange(sig: nat, exp: int, x: Double)
    requires Denotes(sig, exp, x)
    ensures P52 <= sig < 2 * P52 && -51 <= exp < 0x7FF
  {
  }

  /** Without an addend the product only has to be shifted one place. */
  lemma ProductAlone(v: U128, exp: int, l: int)
    requires v.Ok() && P61 <= v.v64 < P62 && exp - 100 >= l
    ensures Settled(exp - 1, 2 * v.v64 + (if v.v0 != 0 then 1 else 0), Scaled128(v.Val(), exp, l), l)
  {
    var z := 2 * v.v64 + if v.v0 != 0 then 1 else 0;
    WordPower(0);
    Pow2Add(exp - 64 - l, 63);
    WordPower(63);
    assert Pow2(1) == 2;
    assert Pow2(exp - 1 - l) == Pow2(exp - 64 - l) * W63;
    hide Pow2, SameSide;
    StickySide(v, Pow2(exp - 64 - l));
    StandsCoarser(z, exp - 1, Scaled128(v.Val(), exp, l), l, 2, 256);
  }

  /** The upper word and a sticky bit lie where the double word does. */
  lemma StickySide(v: U128, q: nat)
    requires v.Ok() && q > 0
    ensures SameSide(2 * v.v64 + (if v.v0 != 0 then 1 else 0), v.Val() * q, q * W63, 2)
  {
    hide SameSide;
    HalfWord(v.v64, q);
    if v.v0 == 0 {
      SameValue(2 * v.v64, v.Val() * q, q * W63, 2);
    } else {
      HalfWord(v.v64 + 1, q);
      MulOrder(v.v64 * W64, v.Val(), q);
      MulOrder(v.Val(), (v.v64 + 1) * W64, q);
      SameGap(2 * v.v64 + 1, v.Val() * q, q * W63, 2, v.v64);
    }
  }

  lemma HalfWord(h: nat, q: nat)
    ensures h * W64 * q == 2 * h * (q * W63) && h * 2 * (q * W63) == h * W64 * q
  {
    assert h * W64 * q == (h * q) * W64;
    assert 2 * h * (q * W63) == (h * q) * (2 * W63);
  }

  /**
   softfloat_mulAddF64 for finite operands and no operation flag.  What is rounded settles the rounding
   of the exact sum, and an exact zero is returned only where the sum is zero.
  */
  method MulAddF64(a: Double, b: Double, c: Double) returns (r: Result)
    requires a.IsFinite() && b.IsFinite() && c.IsFinite()
    ensures match r
      case Addend =>
        ProductOf(a, b) == 0 && (c.Sig() == 0 ==> c.sign == (a.sign != b.sign))
      case ExactZero =>
        ExactSum(a, b, c) == 0 && (ProductOf(a, b) == 0 ==> AddendOf(c) == 0 && (a.sign != b.sign) != c.sign)
      case ToRound(negative, exp, sig) =>
        && ProductOf(a, b) > 0 && SCALE <= exp < 0x1000 && (negative <==> ExactSum(a, b, c) < 0)
        && Settled(exp, sig, if negative then 0 - ExactSum(a, b, c) else ExactSum(a, b, c), SCALE)
  {
    hide Pow2, Scaled128, Scaled64, Settled, ProductOf, AddendOf, Denotes;
    var signZ := a.sign != b.sign;
    if (a.exp == 0 && a.frac == 0) || (b.exp == 0 && b.frac == 0) {
      NoProduct(a, b);
      if c.exp == 0 && c.frac == 0 && signZ != c.sign {
        NoAddend(c);
        return ExactZero;
      }
      return Addend;
    }
    SomeProduct(a, b);
    var expA, sigA := Normal(a);
    var expB, sigB := Normal(b);
    var v, expZ := ProductF64(expA, sigA, expB, sigB, a, b);
    if c.exp == 0 && c.frac == 0 {
      NoAddend(c);
      ProductAlone(v, expZ, SCALE);
      SettledPositive(expZ - 1, 2 * v.v64 + (if v.v0 != 0 then 1 else 0), ProductOf(a, b), SCALE);
      return ToRound(signZ, expZ - 1, U64(v.v64 * 2) + if v.v0 != 0 then 1 else 0);
    }
    var expC, sigC := Normal(c);
    NormalAddend(c, expC, sigC);
    AddendRange(c, expC, sigC);
    sigC := U64(sigC * 512);
    if signZ == c.sign {
      var exp, sig := SameSignF64(v, expZ, sigC, expC, SCALE);
      SettledPositive(exp, sig, ProductOf(a, b) + AddendOf(c), SCALE);
      return ToRound(signZ, exp, sig);
    } else {
      var cancelled, addendLarger, exp, sig := OppositeSignF64(v, expZ, sigC, expC, SCALE);
      if cancelled {
        return ExactZero;
      }
      return ToRound(if addendLarger then c.sign else signZ, exp, sig);
    }
  }

  lemma SomeProduct(a: Double, b: Double)
    requires a.Sig() > 0 && b.Sig() > 0
    ensures ProductOf(a, b) > 0
  {
    hide Pow2;
    MulSign(a.Sig(), b.Sig());
    MulSign(a.Sig() * b.Sig() * 0x10_0000, Pow2(a.Exp() + b.Exp() - 0x3FE - 64 - SCALE));
  }

  lemma NoProduct(a: Double, b: Double)
    requires a.Sig() == 0 || b.Sig() == 0
    ensures ProductOf(a, b) == 0
  {
  }

  lemma NoAddend(c: Double)
    requires c.Sig() == 0
    ensures AddendOf(c) == 0
  {
  }

  lemma AddendRange(c: Double, exp: int, sig: nat)
    requires Denotes(sig, exp, c)
    ensures P61 <= sig * 512 < P62 && (sig * 512) % 2 == 0 && SCALE + 500 <= exp < 0x1000
  {
  }

  lemma SettledPositive(exp: int, sig: nat, n: int, l: int)
    requires Settled(exp, sig, n, l)
    ensures n > 0
  {
    StandsPositive(sig, exp, n, l, 512);
  }
}
