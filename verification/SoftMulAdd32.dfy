/** The fused multiply-add of single-precision numbers up to the rounding step (section 5.4.1 of IEEE 754-2008). */
module SoftMulAdd32 {
  import opened Arith
  import opened Words
  import opened SoftRounding
  import opened SoftJam
  import opened Soft128

  /**
   The magnitude of the product v (with its point after the upper half word) and of the addend c, in units
   of two to the l.
  */
  function ScaledWide(v: nat, exp: int, l: int): nat
    requires exp - 32 >= l
  {
    v * Pow2(exp - 32 - l)
  }

  function Scaled(c: nat, exp: int, l: int): nat
    requires exp >= l
  {
    c * Pow2(exp - l)
  }

  /** The significand is normal and settles the rounding of the magnitude n. */
  ghost predicate Settled(exp: int, sig: nat, n: int, l: int) {
    P30 <= sig < P31 && Stands(sig, exp, n, l, 64)
  }

  // ---- building blocks ----

  lemma HalfWord()
    ensures Pow2(32) == W32 && Pow2(31) == P31
  {
    Pow2Small();
    Pow2Add(31, 1);
    assert Pow2(1) == 2;
  }

  lemma ScaledUpper(c: nat, exp: int, l: int)
    requires exp - 32 >= l
    ensures ScaledWide(c * W32, exp, l) == Scaled(c, exp, l)
  {
    HalfWord();
    Pow2Add(32, exp - 32 - l);
    assert c * W32 * Pow2(exp - 32 - l) == c * (W32 * Pow2(exp - 32 - l));
  }

  /** Normalizing by at most one place. */
  lemma OnePlace(sig: nat, exp: int, n: int, l: int)
    requires P29 <= sig < P31 && Stands(sig, exp, n, l, 2) && exp - 1 >= l
    ensures if sig < P30 then Settled(exp - 1, 2 * sig, n, l) else Settled(exp, sig, n, l)
  {
    if sig < P30 {
      assert Pow2(1) == 2;
      StandsShifted(sig, exp, n, l, 2, 1);
      assert sig * 2 == 2 * sig;
      StandsCoarser(2 * sig, exp - 1, n, l, 4, 16);
    } else {
      StandsCoarser(sig, exp, n, l, 2, 32);
    }
  }

  lemma LargerPower(k: nat, p: nat, q: nat)
    requires p <= q
    ensures k * p <= k * q
  {
    MulNonNegative(k, q - p);
  }

  lemma ShiftedSmall(x: nat, s: nat, t: nat, h: nat)
    requires t <= s && x < 2 * h * Pow2(t)
    ensures Jam(x, Pow2(s)) < 2 * h
  {
    hide Jam;
    Pow2Add(t, s - t);
    MulOrder(1, Pow2(s - t), Pow2(t));
    LargerPower(2 * h, Pow2(t), Pow2(s));
    JamBetween(x, Pow2(s), 0, h);
  }

  /** A jammed operand at the other operand's exponent. */
  lemma Aligned(v: nat, exp: int, s: nat, l: int)
    requires exp - 32 >= l
    ensures Stands(Jam(v, Pow2(s)), exp + s - 32, ScaledWide(v, exp, l), l, 2)
  {
    StandsExactly(v, exp - 32, l, 1);
    StandsJammed(v, exp - 32, ScaledWide(v, exp, l), l, 1, s, 2);
  }

  // ---- equal signs ----

  lemma AddBelow(v: nat, expP: int, c: nat, expC: int, l: int)
    requires expP - 32 >= l && expP <= expC && c % 2 == 0
    ensures Stands(c + Jam(v, Pow2(32 + expC - expP)), expC, Scaled(c, expC, l) + ScaledWide(v, expP, l), l, 2)
  {
    Aligned(v, expP, 32 + expC - expP, l);
    StandsSum(Jam(v, Pow2(32 + expC - expP)), expC, ScaledWide(v, expP, l), l, 2, c / 2);
  }

  lemma AddAbove(v: nat, expP: int, c: nat, expC: int, l: int)
    requires expC < expP && expC - 32 >= l && v % 2 == 0
    ensures Stands(Jam(v + Jam(c * W32, Pow2(expP - expC)), Pow2(32)), expP,
      Scaled(c, expC, l) + ScaledWide(v, expP, l), l, 2)
  {
    hide Jam, Pow2;
    var j := Jam(c * W32, Pow2(expP - expC));
    Aligned(c * W32, expC, expP - expC, l);
    ScaledUpper(c, expC, l);
    StandsSum(j, expP - 32, Scaled(c, expC, l), l, 2, v / 2);
    StandsJammed(v + j, expP - 32, Scaled(c, expC, l) + ScaledWide(v, expP, l), l, 2, 32, 2);
  }

  method SameSignF32(v: nat, expP: int, c: nat, expC: int, ghost l: int) returns (exp: int, sig: nat)
    requires P29 * W32 <= v < P30 * W32 && v % 2 == 0 && P29 <= c < P30 && c % 2 == 0
    requires expP - 100 >= l && expC - 100 >= l
    ensures l <= exp && (exp <= expP || exp <= expC)
    ensures Settled(exp, sig, Scaled(c, expC, l) + ScaledWide(v, expP, l), l)
  {
    hide Jam, Stands, Pow2;
    ghost var n := Scaled(c, expC, l) + ScaledWide(v, expP, l);
    var expDiff := expP - expC;
    if expDiff <= 0 {
      exp := expC;
      AddBelow(v, expP, c, expC, l);
      BelowRange(v, 32 - expDiff);
      sig := c + ShiftRightJam64(v, 32 - expDiff);
    } else {
      exp := expP;
      AddAbove(v, expP, c, expC, l);
      AboveRange(v, c, expDiff);
      var sig64Z := U64(v + ShiftRightJam64(U64(c * W32), expDiff));
      sig := ShortShiftRightJam64(sig64Z, 32);
    }
    OnePlace(sig, exp, n, l);
    if sig < P30 {
      exp := exp - 1;
      sig := U64(sig * 2);
    }
  }

  lemma BelowRange(v: nat, s: nat)
    requires v < P30 * W32 && s >= 32
    ensures Jam(v, Pow2(s)) < P30
  {
    HalfWord();
    ShiftedSmall(v, s, 32, P30 / 2);
  }

  lemma AboveRange(v: nat, c: nat, s: nat)
    requires P29 * W32 <= v < P30 * W32 && c < P30 && s >= 1
    ensures Jam(c * W32, Pow2(s)) < P29 * W32
    ensures P29 <= Jam(v + Jam(c * W32, Pow2(s)), Pow2(32)) < P31
  {
    assert Pow2(1) == 2;
    ShiftedSmall(c * W32, s, 1, P29 / 2 * W32);
    HalfWord();
    JamBetween(v + Jam(c * W32, Pow2(s)), W32, P29 / 2, P30);
  }

  // ---- opposite signs ----

  /**
   The difference z stands for n: exactly, or only up to multiples of two, and then its leading bit is near
   the top.
  */
  ghost predicate Difference(z: nat, exp: int, n: int, l: int, exact: bool) {
    && 0 < z < P30 * W32 && exp - 100 >= l
    && (exact ==> n == ScaledWide(z, exp, l))
    && (!exact ==> Stands(z, exp - 32, n, l, 2) && z >= P29 / 2 * W32)
  }

  lemma DifferencePositive(z: nat, exp: int, n: int, l: int, exact: bool)
    requires Difference(z, exp, n, l, exact)
    ensures n > 0
  {
    if exact {
      MulSign(z, Pow2(exp - 32 - l));
    } else {
      StandsPositive(z, exp - 32, n, l, 2);
    }
  }

  lemma NormalizedRight(z: nat, exp: int, n: int, l: int, exact: bool, s: nat)
    requires Difference(z, exp, n, l, exact) && P30 * Pow2(s) <= z < P31 * Pow2(s)
    ensures Settled(exp - 32 + s, Jam(z, Pow2(s)), n, l)
  {
    hide Jam;
    if exact {
      StandsExactly(z, exp - 32, l, 2);
    }
    MulTwo(Pow2(s));
    StandsJammed(z, exp - 32, n, l, 2, s, 2);
    StandsCoarser(Jam(z, Pow2(s)), exp - 32 + s, n, l, 2, 32);
    JamBetween(z, Pow2(s), P29, P30);
  }

  lemma MulTwo(p: nat)
    ensures (2 * p) % 2 == 0
  {
  }

  lemma NormalizedLeft(z: nat, exp: int, n: int, l: int, exact: bool, s: nat)
    requires Difference(z, exp, n, l, exact) && P30 <= z * Pow2(s) < P31 && exp - 32 - s >= l
    ensures Settled(exp - 32 - s, z * Pow2(s), n, l)
  {
    LeftIsExact(z, s);
    Pow2Add(s, exp - 32 - s - l);
    Factors(z, Pow2(s), Pow2(exp - 32 - s - l));
    StandsExactly(z * Pow2(s), exp - 32 - s, l, 64);
    hide Pow2, Stands;
  }

  lemma Factors(x: nat, y: nat, z: nat)
    ensures x * y * z == x * (y * z)
  {
  }

  /** Only a small difference is shifted left. */
  lemma LeftIsExact(z: nat, s: nat)
    requires z * Pow2(s) < P31
    ensures z < P31
  {
    LargerPower(z, 1, Pow2(s));
  }

  method NormalizeF32(z: nat, exp0: int, ghost n: int, ghost l: int, ghost exact: bool) returns (exp: int, sig: nat)
    requires Difference(z, exp0, n, l, exact)
    ensures l <= exp <= exp0 && Settled(exp, sig, n, l)
  {
    hide Jam, Stands, Pow2, Settled;
    var zeros: int := CountLeadingZeros64(z);
    LeadingBit(z, zeros);
    var shiftCount := zeros - 1;
    exp := exp0 - shiftCount;
    shiftCount := shiftCount - 32;
    if shiftCount < 0 {
      sig := ShortShiftRightJam64(z, -shiftCount);
      NormalizedRight(z, exp0, n, l, exact, -shiftCount);
    } else {
      sig := U64(z * Pow2(shiftCount));
      NormalizedLeft(z, exp0, n, l, exact, shiftCount);
    }
  }

  /** Where the leading bit goes. */
  lemma LeadingBit(z: nat, zeros: nat)
    requires 0 < z < P30 * W32 && zeros <= 63 && W63 <= z * Pow2(zeros) < W64
    ensures zeros >= 2
    ensures zeros < 33 ==> P30 * Pow2(33 - zeros) <= z < P31 * Pow2(33 - zeros)
    ensures zeros >= 33 ==> P30 <= z * Pow2(zeros - 33) < P31
  {
    FewZeros(z, zeros);
    if zeros < 33 {
      LeadingRight(z, Pow2(zeros), Pow2(33 - zeros)) by {
        Pow2Add(zeros, 33 - zeros);
        DoubleWord();
      }
    } else {
      LeadingLeft(z, Pow2(zeros), Pow2(zeros - 33)) by {
        Pow2Add(33, zeros - 33);
        DoubleWord();
      }
    }
  }

  lemma DoubleWord()
    ensures Pow2(33) == 2 * W32
  {
    HalfWord();
  }

  lemma FewZeros(z: nat, zeros: nat)
    requires z < P30 * W32 && W63 <= z * Pow2(zeros)
    ensures zeros >= 2
  {
    assert Pow2(0) == 1 && Pow2(1) == 2;
  }

  lemma LeadingRight(z: nat, p: nat, q: nat)
    requires W63 <= z * p < W64 && p * q == 2 * W32 && p > 0
    ensures P30 * q <= z < P31 * q
  {
    assert P30 * q * p == P30 * (p * q) && P31 * q * p == P31 * (p * q);
    MulOrder(z, P30 * q, p);
    MulOrder(P31 * q, z, p);
  }

  lemma LeadingLeft(z: nat, p: nat, q: nat)
    requires W63 <= z * p < W64 && p == 2 * W32 * q
    ensures P30 <= z * q < P31
  {
    assert z * (2 * W32 * q) == 2 * W32 * (z * q);
  }

  lemma ScaledDifference(a: nat, b: nat, exp: int, l: int)
    requires exp - 32 >= l && a >= b
    ensures ScaledWide(a - b, exp, l) == ScaledWide(a, exp, l) - ScaledWide(b, exp, l)
  {
    assert (a - b) * Pow2(exp - 32 - l) == a * Pow2(exp - 32 - l) - b * Pow2(exp - 32 - l);
  }

  lemma HalfScaled(v: nat, exp: int, l: int)
    requires v % 2 == 0 && exp - 32 >= l
    ensures Pow2(1) == 2 && Jam(v, 2) * 2 == v && ScaledWide(Jam(v, 2), exp + 1, l) == ScaledWide(v, exp, l)
  {
    assert Pow2(1) == 2;
    var w := Jam(v, 2);
    assert Pow2(exp + 1 - 32 - l) == 2 * Pow2(exp - 32 - l);
    assert w * (2 * Pow2(exp - 32 - l)) == w * 2 * Pow2(exp - 32 - l);
  }

  /**
   Taking the operand with the smaller exponent, jammed, from the one with the larger: both have their point
   in the same place.
  */
  lemma Subtracted(x: nat, expX: int, y: nat, expY: int, l: int)
    requires P29 * W32 <= x < P30 * W32 && x % 2 == 0 && 0 < y < P30 * W32 && y % 2 == 0 && expY < expX &&
      expY - 150 >= l
    ensures var j := Jam(y, Pow2(expX - expY));
      j < x && Difference(x - j, expX, ScaledWide(x, expX, l) - ScaledWide(y, expY, l), l, expX - expY == 1)
  {
    var s := expX - expY;
    var j := Jam(y, Pow2(s));
    if s == 1 {
      HalfScaled(y, expY, l);
      ScaledDifference(x, j, expX, l);
    } else {
      assert Pow2(2) == 4;
      hide Jam, Pow2;
      ShiftedSmall(y, s, 2, P29 / 4 * W32);
      Aligned(y, expY, s, l);
      StandsSum(j, expX - 32, ScaledWide(y, expY, l), l, 2, x / 2);
    }
  }

  /** Equal exponents: the exact difference, whichever way round. */
  lemma SameExponent(x: nat, y: nat, exp: int, l: int)
    requires x < P30 * W32 && y < P30 * W32 && exp - 150 >= l
    ensures var p, a := ScaledWide(x, exp, l), ScaledWide(y, exp, l);
      && (x > y ==> p > a && Difference(x - y, exp, p - a, l, true))
      && (x == y ==> p == a)
      && (x < y ==> p < a && Difference(y - x, exp, a - p, l, true))
  {
    if x > y {
      ScaledDifference(x, y, exp, l);
      MulSign(x - y, Pow2(exp - 32 - l));
    } else if x < y {
      ScaledDifference(y, x, exp, l);
      MulSign(y - x, Pow2(exp - 32 - l));
    }
  }

  /** The difference of the larger and the smaller magnitude, unless they cancel. */
  method DifferenceF32(v: nat, expP: int, c: nat, expC: int, ghost l: int)
    returns (sig64Z: nat, addendLarger: bool, exp: int)
    requires P29 * W32 <= v < P30 * W32 && v % 2 == 0 && P29 * W32 <= c < P30 * W32 && c % 2 == 0
    requires expP - 200 >= l && expC - 200 >= l
    ensures var p, a := ScaledWide(v, expP, l), ScaledWide(c, expC, l); var exact := -1 <= expP - expC <= 1;
      if sig64Z == 0 then p == a
      else if addendLarger then Difference(sig64Z, exp, a - p, l, exact)
      else Difference(sig64Z, exp, p - a, l, exact)
    ensures exp == expP || exp == expC
  {
    hide Jam, Stands, Pow2, Difference, ScaledWide, U64;
    var expDiff := expP - expC;
    addendLarger, exp := false, expP;
    if expDiff < 0 {
      addendLarger, exp := true, expC;
      Subtracted(c, expC, v, expP, l);
      sig64Z := c - ShiftRightJam64(v, -expDiff);
    } else if expDiff == 0 {
      SameExponent(v, c, expP, l);
      WrappedSign(v, c);
      sig64Z := U64(v - c);
      if sig64Z >= W63 {
        addendLarger := true;
        sig64Z := U64(0 - sig64Z);
      }
    } else {
      Subtracted(v, expP, c, expC, l);
      sig64Z := v - ShiftRightJam64(c, expDiff);
    }
  }

  lemma AddendWord(c: nat)
    requires P29 <= c < P30
    ensures U64(c * W32) == c * W32 && P29 * W32 <= c * W32 < P30 * W32 && (c * W32) % 2 == 0
  {
    assert P29 * W32 <= c * W32 < P30 * W32 < W64;
    assert U64(c * W32) == c * W32;
    EvenProduct(c);
  }

  lemma EvenProduct(c: nat)
    ensures (c * W32) % 2 == 0
  {
    assert c * W32 == 2 * (c * 0x8000_0000);
  }

  method OppositeSignF32(v: nat, expP: int, c: nat, expC: int, ghost l: int)
    returns (cancelled: bool, addendLarger: bool, exp: int, sig: nat)
    requires P29 * W32 <= v < P30 * W32 && v % 2 == 0 && P29 <= c < P30
    requires expP - 200 >= l && expC - 200 >= l
    ensures var p, a := ScaledWide(v, expP, l), Scaled(c, expC, l);
      && (cancelled <==> p == a) && (!cancelled ==> (addendLarger <==> a > p))
      && (!cancelled ==> l <= exp && (exp <= expP || exp <= expC))
      && (!cancelled ==> Settled(exp, sig, if a > p then a - p else p - a, l))
  {
    hide Jam, Stands, Pow2, Settled, Difference, ScaledWide, Scaled, U64;
    var sig64Z: nat;
    sig, cancelled := 0, false;
    ScaledUpper(c, expC, l);
    AddendWord(c);
    var sig64C := U64(c * W32);
    ghost var exact := -1 <= expP - expC <= 1;
    sig64Z, addendLarger, exp := DifferenceF32(v, expP, sig64C, expC, l);
    if sig64Z == 0 {
      cancelled := true;
      return;
    }
    ghost var p: int := ScaledWide(v, expP, l);
    ghost var a: int := Scaled(c, expC, l);
    ghost var n: int := if addendLarger then a - p else p - a;
    DifferencePositive(sig64Z, exp, n, l, exact);
    exp, sig := NormalizeF32(sig64Z, exp, n, l, exact);
  }

  lemma WrappedSign(x: nat, y: nat)
    requires x < P30 * W32 && y < P30 * W32
    ensures U64(x - y) >= W63 <==> x < y
    ensures U64(x - y) == 0 <==> x == y
    ensures x >= y ==> U64(x - y) == x - y
    ensures x < y ==> U64(0 - U64(x - y)) == y - x
  {
    if x < y {
      assert U64(x - y) == W64 + x - y;
    }
  }

  // ---- the whole operation ----

  /** A finite number: its fields, and the significand and exponent they stand for. */
  datatype Finite = Finite(sign: bool, exp: nat, frac: nat) {
    predicate Ok() { exp < 0xFF && frac < P23 }
    function Sig(): nat { if exp == 0 then frac else P23 + frac }
    function Exp(): nat { if exp == 0 then 1 else exp }
  }

  /** The result: the addend unchanged, a zero whose sign the rounding mode decides, or something to round. */
  datatype Result = Addend | ExactZero | ToRound(negative: bool, exp: int, sig: nat)

  /** Two to the SCALE is a unit of which everything here is a multiple. */
  const SCALE: int := -1000

  function ProductOf(a: Finite, b: Finite): nat {
    a.Sig() * b.Sig() * 0x4000 * Pow2(a.Exp() + b.Exp() - 0x7E - 32 - SCALE)
  }

  function AddendOf(c: Finite): nat { c.Sig() * 64 * Pow2(c.Exp() - SCALE) }

  function Signed(negative: bool, magnitude: nat): int { if negative then 0 - magnitude else magnitude }

  /** The exact value of a * b + c, in units of two to the SCALE. */
  function ExactSum(a: Finite, b: Finite, c: Finite): int {
    Signed(a.sign != b.sign, ProductOf(a, b)) + Signed(c.sign, AddendOf(c))
  }

  /** softfloat_normSubnormalF32Sig: the same value with the leading bit in place. */
  method NormSubnormalF32Sig(sig: nat) returns (exp: int, z: nat)
    requires 0 < sig < P23
    ensures P23 <= z < 2 * P23 && -22 <= exp <= 0 && z == sig * Pow2(1 - exp)
  {
    var zeros: int := CountLeadingZeros32(sig);
    var shiftCount := zeros - 8;
    SubnormalShift(sig, zeros);
    exp := 1 - shiftCount;
    z := U64(sig * Pow2(shiftCount));
  }

  lemma SubnormalShift(sig: nat, n: nat)
    requires 0 < sig < P23 && n <= 31 && P31 <= sig * Pow2(n) < W32
    ensures n >= 9 && P23 <= sig * Pow2(n - 8) < 2 * P23
  {
    assert Pow2(8) == 256;
    if n <= 8 {
      Pow2Add(n, 8 - n);
      MulOrder(1, Pow2(8 - n), Pow2(n));
      LargerPower(sig, Pow2(n), 256);
    } else {
      Pow2Add(8, n - 8);
      DivideOut(sig, Pow2(n - 8));
    }
  }

  lemma DivideOut(sig: nat, p: nat)
    requires P31 <= sig * (256 * p) < W32
    ensures P23 <= sig * p < 2 * P23
  {
    assert sig * (256 * p) == 256 * (sig * p);
  }

  /** A significand and exponent that stand for the number x. */
  ghost predicate Denotes(sig: nat, exp: int, x: Finite) {
    P23 <= sig < 2 * P23 && -22 <= exp < 0xFF && exp <= x.Exp() && sig == x.Sig() * Pow2(x.Exp() - exp)
  }

  method Normal(x: Finite) returns (exp: int, sig: nat)
    requires x.Ok() && x.Sig() > 0
    ensures Denotes(sig, exp, x)
  {
    exp, sig := x.exp, x.frac;
    if exp == 0 {
      exp, sig := NormSubnormalF32Sig(sig);
    } else {
      sig := sig + P23;
    }
  }

  lemma NormalAddend(c: Finite, exp: int, sig: nat)
    requires Denotes(sig, exp, c)
    ensures Scaled(sig * 64, exp, SCALE) == AddendOf(c)
  {
    Pow2Add(c.Exp() - exp, exp - SCALE);
    var s, p, q := c.Sig(), Pow2(c.Exp() - exp), Pow2(exp - SCALE);
    hide Pow2;
    Regrouped(s, p, q);
  }

  lemma Regrouped(s: nat, p: nat, q: nat)
    ensures s * p * 64 * q == s * 64 * (p * q)
  {
    assert s * p * q == s * (p * q);
  }

  lemma NormalProduct(a: Finite, b: Finite, expA: int, sigA: nat, expB: int, sigB: nat)
    requires Denotes(sigA, expA, a) && Denotes(sigB, expB, b)
    ensures ScaledWide(sigA * 128 * (sigB * 128), expA + expB - 0x7E, SCALE) == ProductOf(a, b)
  {
    var e := expA + expB - 0x7E - 32 - SCALE;
    var p, q, r := Pow2(a.Exp() - expA), Pow2(b.Exp() - expB), Pow2(e);
    Pow2Add(a.Exp() - expA, b.Exp() - expB);
    Pow2Add(a.Exp() - expA + b.Exp() - expB, e);
    hide Pow2;
    FourFactors(a.Sig(), b.Sig(), p, q, r);
  }

  lemma FourFactors(s: int, t: int, p: int, q: int, r: int)
    ensures s * p * 128 * (t * q * 128) * r == s * t * 0x4000 * (p * q * r)
  {
    var u, v := s * p, t * q;
    assert u * 128 * (v * 128) == u * v * 0x4000;
    assert u * v == (s * t) * (p * q) by {
      assert s * p * (t * q) == s * (p * (t * q));
      assert p * (t * q) == t * (p * q);
      assert s * (t * (p * q)) == s * t * (p * q);
    }
    Regroup(s * t, p * q, r);
  }

  lemma Regroup(x: int, y: int, r: int)
    ensures x * y * 0x4000 * r == x * 0x4000 * (y * r)
  {
    assert x * y * 0x4000 == x * 0x4000 * y;
    assert x * 0x4000 * y * r == x * 0x4000 * (y * r);
  }

  /** The product of the shifted significands. */
  lemma ProductRange(x: nat, y: nat)
    requires P23 <= x < 2 * P23 && P23 <= y < 2 * P23
    ensures var v := x * 128 * (y * 128); P29 / 2 * W32 <= v < P30 * W32 && v % 2 == 0
  {
    BothRanges(x, y);
    ScaledProduct(x, y);
  }

  lemma ScaledProduct(x: int, y: int)
    ensures x * 128 * (y * 128) == x * y * 0x4000
  {
  }

  lemma BothRanges(x: nat, y: nat)
    requires P23 <= x < 2 * P23 && P23 <= y < 2 * P23
    ensures P23 * P23 <= x * y < 4 * (P23 * P23)
  {
    MulOrder(P23, x, y);
    MulOrder(x, 2 * P23, y);
  }

  lemma Doubled(v: nat, exp: int, l: int)
    requires exp - 33 >= l
    ensures ScaledWide(2 * v, exp - 1, l) == ScaledWide(v, exp, l)
  {
    assert Pow2(exp - 32 - l) == 2 * Pow2(exp - 33 - l);
    assert 2 * v * Pow2(exp - 33 - l) == v * (2 * Pow2(exp - 33 - l));
  }

  lemma DenotesRange(sig: nat, exp: int, x: Finite)
    requires Denotes(sig, exp, x)
    ensures P23 <= sig < 2 * P23 && -22 <= exp < 0xFF
  {
  }

  /** The product with its leading bit at one of two places, and its exponent. */
  method ProductF32(expA: int, sigA: nat, expB: int, sigB: nat, ghost a: Finite, ghost b: Finite)
      returns (sigProd: nat, expProd: int)
    requires Denotes(sigA, expA, a) && Denotes(sigB, expB, b)
    ensures P29 * W32 <= sigProd < P30 * W32 && sigProd % 2 == 0 && SCALE + 500 <= expProd < 0x200
    ensures ScaledWide(sigProd, expProd, SCALE) == ProductOf(a, b)
  {
    hide Pow2, ScaledWide, ProductOf, Denotes;
    DenotesRange(sigA, expA, a);
    DenotesRange(sigB, expB, b);
    expProd := expA + expB - 0x7E;
    ProductRange(sigA, sigB);
    NormalProduct(a, b, expA, sigA, expB, sigB);
    sigProd := U64(sigA * 128 * (sigB * 128));
    if sigProd < P29 * W32 {
      Doubled(sigProd, expProd, SCALE);
      expProd := expProd - 1;
      sigProd := U64(sigProd * 2);
    }
  }

  /** Without an addend the product only has to be shifted. */
  lemma ProductAlone(v: nat, exp: int, l: int)
    requires P29 * W32 <= v < P30 * W32 && exp - 100 >= l
    ensures Settled(exp - 1, Jam(v, Pow2(31)), ScaledWide(v, exp, l), l)
  {
    hide Jam;
    Aligned(v, exp, 31, l);
    StandsCoarser(Jam(v, Pow2(31)), exp - 1, ScaledWide(v, exp, l), l, 2, 32);
    HalfWord();
    JamBetween(v, P31, P29, P30);
  }

  /**
   softfloat_mulAddF32 for finite operands and no operation flag.  What is rounded settles the rounding
   of the exact sum, and an exact zero is returned only where the sum is zero.
  */
  method MulAddF32(a: Finite, b: Finite, c: Finite) returns (r: Result)
    requires a.Ok() && b.Ok() && c.Ok()
    ensures match r
      case Addend =>
        ProductOf(a, b) == 0 && (c.Sig() == 0 ==> c.sign == (a.sign != b.sign))
      case ExactZero =>
        ExactSum(a, b, c) == 0 && (ProductOf(a, b) == 0 ==> AddendOf(c) == 0 && (a.sign != b.sign) != c.sign)
      case ToRound(negative, exp, sig) =>
        && ProductOf(a, b) > 0 && SCALE <= exp < 0x200 && (negative <==> ExactSum(a, b, c) < 0)
        && Settled(exp, sig, if negative then 0 - ExactSum(a, b, c) else ExactSum(a, b, c), SCALE)
  {
    hide Pow2, ScaledWide, Scaled, Settled, ProductOf, AddendOf, Denotes, Jam;
    var signProd := a.sign != b.sign;
    if (a.exp == 0 && a.frac == 0) || (b.exp == 0 && b.frac == 0) {
      NoProduct(a, b);
      if c.exp == 0 && c.frac == 0 && signProd != c.sign {
        NoAddend(c);
        return ExactZero;
      }
      return Addend;
    }
    SomeProduct(a, b);
    var expA, sigA := Normal(a);
    var expB, sigB := Normal(b);
    var sigProd, expProd := ProductF32(expA, sigA, expB, sigB, a, b);
    if c.exp == 0 && c.frac == 0 {
      NoAddend(c);
      ProductAlone(sigProd, expProd, SCALE);
      SettledPositive(expProd - 1, Jam(sigProd, Pow2(31)), ProductOf(a, b), SCALE);
      return ToRound(signProd, expProd - 1, ShortShiftRightJam64(sigProd, 31));
    }
    var expC, sigC := Normal(c);
    NormalAddend(c, expC, sigC);
    AddendRange(c, expC, sigC);
    sigC := U64(sigC * 64);
    if signProd == c.sign {
      var exp, sig := SameSignF32(sigProd, expProd, sigC, expC, SCALE);
      SettledPositive(exp, sig, ProductOf(a, b) + AddendOf(c), SCALE);
      return ToRound(signProd, exp, sig);
    } else {
      var cancelled, addendLarger, exp, sig := OppositeSignF32(sigProd, expProd, sigC, expC, SCALE);
      if cancelled {
        return ExactZero;
      }
      return ToRound(if addendLarger then c.sign else signProd, exp, sig);
    }
  }

  lemma SomeProduct(a: Finite, b: Finite)
    requires a.Sig() > 0 && b.Sig() > 0
    ensures ProductOf(a, b) > 0
  {
    hide Pow2;
    MulSign(a.Sig(), b.Sig());
    MulSign(a.Sig() * b.Sig() * 0x4000, Pow2(a.Exp() + b.Exp() - 0x7E - 32 - SCALE));
  }

  lemma NoProduct(a: Finite, b: Finite)
    requires a.Sig() == 0 || b.Sig() == 0
    ensures ProductOf(a, b) == 0
  {
  }

  lemma NoAddend(c: Finite)
    requires c.Sig() == 0
    ensures AddendOf(c) == 0
  {
  }

  lemma AddendRange(c: Finite, exp: int, sig: nat)
    requires Denotes(sig, exp, c)
    ensures P29 <= sig * 64 < P30 && (sig * 64) % 2 == 0 && SCALE + 500 <= exp < 0xFF
  {
  }

  lemma SettledPositive(exp: int, sig: nat, n: int, l: int)
    requires Settled(exp, sig, n, l)
    ensures n > 0
  {
    StandsPositive(sig, exp, n, l, 64);
  }
}
