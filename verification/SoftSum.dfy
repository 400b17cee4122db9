/**
 Addition and subtraction of double-precision words as a whole: special operands, subnormal ones, and
 the exact sum rounded and packed (section 5.4.1 of IEEE 754-2008).
*/
module SoftSum {
  import opened Arith
  import opened Words
  import opened SoftRounding
  import opened SoftJam
  import opened Soft128
  import opened SoftWord
  import opened SoftOrder
  import opened SoftRoundPack
  import opened SoftMulAdd64
  import opened SoftValue
  import SoftBasic

  /** The exact sum, in units of two to the SCALE. */
  function TotalOf(a: Double, b: Double): int
    requires a.exp < 0x7FF && b.exp < 0x7FF
  {
    Signed(a.sign, AddendOf(a)) + Signed(b.sign, AddendOf(b))
  }

  function AddWord(mode: Mode, a: Double, b: Double): int
    requires a.exp <= 0x7FF && b.exp <= 0x7FF
  {
    if IsNaN(a) || IsNaN(b) || (IsInfinite(a) && IsInfinite(b) && a.sign != b.sign) then DEFAULT_NAN
    else if IsInfinite(a) then Infinity(a.sign)
    else if IsInfinite(b) then Infinity(b.sign)
    else
      var total := TotalOf(a, b);
      if total < 0 then RoundedWord(mode, true, -total, 1)
      else if total > 0 then RoundedWord(mode, false, total, 1)
      else if a.sign == b.sign then Zero(a.sign)
      else Zero(mode.Down?)
  }

  /**
   The word holds the sum of the two numbers, rounded; a zero sum has the common sign, or else the sign that the mode
   rounds small values to.
  */
  ghost predicate IsSum(mode: Mode, a: Double, b: Double, ui: int) {
    0 <= ui < W64 && var x, z := Value(a) + Value(b), Unpack(ui);
      if x == 0 then IsZero(z) && z.sign == if a.sign == b.sign then a.sign else mode.Down?
      else RoundsTo(mode, x < 0, if x < 0 then -x else x, 1, z)
  }

  /** The word of the sum is the sum, rounded by the order of the format. */
  lemma SumRounds(mode: Mode, a: Double, b: Double)
    requires a.IsFinite() && b.IsFinite()
    ensures IsSum(mode, a, b, AddWord(mode, a, b))
  {
    var x := Value(a) + Value(b);
    assert TotalOf(a, b) == x;
    hide RoundedWord, RoundsTo, AddendOf, Unpack, TotalOf, Value;
    if x != 0 {
      RoundedWordRounds(mode, x < 0, if x < 0 then -x else x, 1);
    } else {
      ZeroUnpacks(if a.sign == b.sign then a.sign else mode.Down?);
    }
  }

  lemma ZeroUnpacks(negative: bool)
    ensures 0 <= Zero(negative) < W64 && IsZero(Unpack(Zero(negative))) && Unpack(Zero(negative)).sign == negative
  {
    PackUnpacks(Double(negative, 0, 0));
  }

  // ---- equal signs ----

  /** softfloat_addMagsF64: the operands are taken to have the sign signZ. */
  method AddMagsF64(mode: Mode, uiA: nat, uiB: nat, signZ: bool) returns (uiZ: int)
    requires uiA < W64 && uiB < W64 && signZ == Unpack(uiA).sign
    ensures uiZ == AddWord(mode, Unpack(uiA), Unpack(uiB).(sign := signZ))
  {
    hide RoundedWord, Word, SameSide, PackedBits, Unpack, Pow2, TotalOf, Stands, SoftBasic.Weight, Representable;
    var a, b := Unpack(uiA), Unpack(uiB);
    UnpackPacks(uiA);
    UnpackPacks(uiB);
    InfiniteWord(uiA);
    if a.exp == 0x7FF || b.exp == 0x7FF {
      if a.exp == b.exp {
        return if a.frac != 0 || b.frac != 0 then DEFAULT_NAN else uiA;
      }
      if a.exp < b.exp {
        return if b.frac != 0 then DEFAULT_NAN else Infinity(signZ);
      }
      return if a.frac != 0 then DEFAULT_NAN else uiA;
    }
    var r := SoftBasic.AddMagsF64(a.exp, a.frac, b.exp, b.frac);
    match r {
      case Packed(bits) =>
        uiZ := (if signZ then W63 else 0) + bits;
        SubnormalSum(mode, a, b, bits);
      case ToRound(exp, sig) =>
        ghost var n := AddendOf(a) + AddendOf(b);
        SumSettles(mode, a, b, exp, sig);
        var flags;
        uiZ, flags := RoundPackF64(mode, signZ, exp, sig, n, 1 * Pow2(exp - SCALE));
    }
  }

  lemma InfiniteWord(ui: nat)
    requires ui < W64
    ensures IsInfinite(Unpack(ui)) ==> ui == Infinity(Unpack(ui).sign)
  {
  }

  lemma WeightOf(x: Double, l: int)
    requires x.exp < 0x7FF && l <= 0
    ensures SoftBasic.Weight(x.exp, x.frac, P52) == x.Sig() * Pow2(x.Exp())
    ensures x.Sig() * 512 * Pow2(x.Exp() - l) == SoftBasic.Weight(x.exp, x.frac, P52) * 512 * Pow2(-l)
  {
    assert Pow2(1) == 2;
    Pow2Add(x.Exp(), -l);
    var s, p, q := x.Sig(), Pow2(x.Exp()), Pow2(-l);
    hide Pow2;
    assert s * 512 * (p * q) == s * p * 512 * q;
  }

  lemma SumSettles(mode: Mode, a: Double, b: Double, exp: int, sig: nat)
    requires a.IsFinite() && b.IsFinite() && P62 <= sig < W63
    requires Stands(sig, exp,
      (SoftBasic.Weight(a.exp, a.frac, P52) + SoftBasic.Weight(b.exp, b.frac, P52)) * 512, 0, 512)
    ensures var n := AddendOf(a) + AddendOf(b); var c := b.(sign := a.sign);
      && 0 <= exp && SameSide(sig, n, 1 * Pow2(exp - SCALE), 512)
      && AddWord(mode, a, c) == Word(mode, a.sign, exp, n, 1 * Pow2(exp - SCALE))
  {
    var w := SoftBasic.Weight(a.exp, a.frac, P52) + SoftBasic.Weight(b.exp, b.frac, P52);
    var j := Pow2(0 - SCALE);
    WeightOf(a, SCALE);
    WeightOf(b, SCALE);
    Pow2Add(exp, 0 - SCALE);
    StandsPositive(sig, exp, w * 512, 0, 512);
    SameFraction(sig, w * 512, Pow2(exp), 512, j);
    hide SameSide, Pow2, Stands, SoftBasic.Weight, RoundedWord, Word;
    assert w * 512 * j == AddendOf(a) + AddendOf(b);
    SettledWord(mode, a.sign, exp, sig, AddendOf(a) + AddendOf(b), 1);
    MulSign(w * 512, j);
  }

  /** The word of the sum of two subnormal numbers is the sum of the words. */
  lemma SubnormalSum(mode: Mode, a: Double, b: Double, bits: nat)
    requires a.IsFinite() && b.IsFinite() && bits < 2 * P52
    requires 2 * bits == SoftBasic.Weight(a.exp, a.frac, P52) + SoftBasic.Weight(b.exp, b.frac, P52)
    ensures AddWord(mode, a, b.(sign := a.sign)) == (if a.sign then W63 else 0) + bits
  {
    var z := if bits < P52 then Double(a.sign, 0, bits) else Double(a.sign, 1, bits - P52);
    InUnits(a);
    InUnits(b);
    InUnits(z);
    assert Pow2(1) == 2;
    assert SoftBasic.Weight(z.exp, z.frac, P52) == 2 * bits;
    var j := Pow2(0 - SCALE);
    hide Pow2, RoundedWord, SoftBasic.Weight, AddendOf;
    Distributes(SoftBasic.Weight(a.exp, a.frac, P52), SoftBasic.Weight(b.exp, b.frac, P52), j);
    assert AddendOf(z) == AddendOf(a) + AddendOf(b);
    if bits > 0 {
      AddendRoundsToItself(mode, z);
      MulSign(2 * bits * 512, j);
    }
  }

  lemma InUnits(x: Double)
    requires x.exp < 0x7FF
    ensures AddendOf(x) == SoftBasic.Weight(x.exp, x.frac, P52) * 512 * Pow2(0 - SCALE)
  {
    WeightOf(x, SCALE);
  }

  lemma Distributes(a: int, b: int, k: int)
    ensures (a + b) * 512 * k == a * 512 * k + b * 512 * k
  {
  }

  // ---- opposite signs ----

  /** The smaller operand before it is aligned. */
  function Unaligned(y: Double): nat { y.frac * 1024 + if y.exp != 0 then P62 else y.frac * 1024 }

  lemma UnalignedIs(y: Double, l: int)
    requires y.exp < 0x7FF && y.frac < P52 && l <= 0
    ensures Unaligned(y) < W63 && Unaligned(y) % 2 == 0
    ensures Unaligned(y) * Pow2(y.exp - l) == 2 * (y.Sig() * 512 * Pow2(y.Exp() - l))
  {
    UnalignedFacts(y);
    var p, q := Pow2(y.exp - l), Pow2(y.Exp() - l);
    assert y.exp == 0 ==> q == 2 * p;
    hide Pow2, Unaligned;
    Units(Unaligned(y), y.Sig(), p, q);
  }

  lemma UnalignedFacts(y: Double)
    requires y.exp < 0x7FF && y.frac < P52
    ensures Unaligned(y) < W63 && Unaligned(y) % 2 == 0
    ensures Unaligned(y) == if y.exp == 0 then 2048 * y.Sig() else 1024 * y.Sig()
  {
    Even(Unaligned(y), y.frac * 512 + if y.exp != 0 then P61 else y.frac * 512);
  }

  lemma Even(x: int, h: int)
    requires x == h * 2
    ensures x % 2 == 0
  {
    ModZero(h, 2);
  }

  lemma Units(u: int, sig: int, p: int, q: int)
    requires (u == 2048 * sig && q == 2 * p) || (u == 1024 * sig && q == p)
    ensures u * p == 2 * (sig * 512 * q)
  {
    var t := sig * p;
    if u == 2048 * sig && q == 2 * p {
      assert u * p == 2048 * t;
      assert sig * 512 * q == 1024 * t;
    } else {
      assert u * p == 1024 * t;
      assert sig * 512 * q == 512 * t;
    }
  }

  /** The aligned smaller operand, and what is left of the larger one. */
  lemma AlignedDifference(x: Double, y: Double, l: int)
    requires x.IsFinite() && y.IsFinite() && y.exp < x.exp && l <= -200
    ensures var sy := Jam(Unaligned(y), Pow2(x.exp - y.exp)); var sz := P62 + x.frac * 1024 - sy;
      && 0 <= sy < P62 && 0 < sz < W63
      && Stands(sz, x.exp, 2 * (x.Sig() * 512 * Pow2(x.exp - l)) - 2 * (y.Sig() * 512 * Pow2(y.Exp() - l)), l, 2)
      && (x.exp - y.exp >= 2 ==> sz > P61)
      && (x.exp - y.exp == 1 ==> sy * 2 == Unaligned(y))
  {
    var s := x.exp - y.exp;
    var u := Unaligned(y);
    var sy := Jam(u, Pow2(s));
    UnalignedIs(y, l);
    StandsExactly(u, y.exp, l, 1);
    StandsJammed(u, y.exp, u * Pow2(y.exp - l), l, 1, s, 2);
    var c := x.Sig() * 512;
    StandsSum(sy, x.exp, u * Pow2(y.exp - l), l, 2, c);
    assert c * 2 * Pow2(x.exp - l) == 2 * (x.Sig() * 512 * Pow2(x.exp - l));
    JamSmall(u, s);
    assert Pow2(1) == 2;
  }

  lemma JamSmall(u: nat, s: nat)
    requires u < W63 && s >= 1
    ensures 0 <= Jam(u, Pow2(s)) < P62 && (s >= 2 ==> Jam(u, Pow2(s)) < P61)
  {
    assert Pow2(1) == 2 && Pow2(2) == 4;
    ShiftedOnce(u, s, P61);
    if s >= 2 {
      ShiftedSmall(u, s, 2, P61 / 2);
    }
  }

  /** Normalizing the difference of operands with different exponents. */
  lemma DifferenceSettles(x: Double, y: Double, l: int)
    requires x.IsFinite() && y.IsFinite() && y.exp < x.exp && l <= -200
    ensures var sz := P62 + x.frac * 1024 - Jam(Unaligned(y), Pow2(x.exp - y.exp));
      var n := x.Sig() * 512 * Pow2(x.exp - l) - y.Sig() * 512 * Pow2(y.Exp() - l);
      && 0 < sz < W63 && n > 0
      && SameSide(sz * Pow2(NormShift(sz)), n, 1 * Pow2(x.exp - 1 - NormShift(sz) - l), 512)
  {
    var sz := P62 + x.frac * 1024 - Jam(Unaligned(y), Pow2(x.exp - y.exp));
    var n := x.Sig() * 512 * Pow2(x.exp - l) - y.Sig() * 512 * Pow2(y.Exp() - l);
    AlignedDifference(x, y, l);
    UnalignedIs(y, l);
    var k := NormShift(sz);
    StandsPositive(sz, x.exp, 2 * n, l, 2);
    hide Stands, Jam, Pow2, SameSide, NormShift;
    if k <= 1 {
      OneStep(sz, x.exp, 2 * n, l, k);
    } else {
      FarShift(sz, k);
      assert x.exp == y.exp + 1;
      ExactDifference(x, Unaligned(y), y.exp, l, sz);
      assert sz * Pow2(x.exp - l) == 2 * n;
      ExactlyNormalized(sz, x.exp, k, l);
    }
    HalfUnits(sz * Pow2(k), x.exp - k, n, l);
  }

  lemma HalfUnits(z: int, e: int, n: int, l: int)
    requires Stands(z, e, 2 * n, l, 512) && e - 1 >= l
    ensures SameSide(z, n, 1 * Pow2(e - 1 - l), 512)
  {
    assert Pow2(e - l) == 2 * Pow2(e - 1 - l);
    SameFraction(z, n, Pow2(e - 1 - l), 512, 2);
  }

  lemma OneStep(sz: nat, exp: int, n: int, l: int, k: nat)
    requires Stands(sz, exp, n, l, 2) && k <= 1 && exp - k >= l
    ensures Stands(sz * Pow2(k), exp - k, n, l, 512)
  {
    assert Pow2(0) == 1 && Pow2(1) == 2;
    StandsShifted(sz, exp, n, l, 2, k);
    StandsCoarser(sz * Pow2(k), exp - k, n, l, 2 * Pow2(k), if k == 0 then 256 else 128);
  }

  lemma FarShift(sz: nat, k: nat)
    requires k >= 2 && sz * Pow2(k) < W63
    ensures sz < P61
  {
    assert Pow2(2) == 4;
    Pow2Add(2, k - 2);
    MulOrder(1, Pow2(k - 2), 4);
    LargerPower(sz, 4, Pow2(k));
  }

  lemma ExactDifference(x: Double, u: nat, e: int, l: int, sz: int)
    requires e >= l && u % 2 == 0 && sz == x.Sig() * 1024 - u / 2
    ensures sz * Pow2(e + 1 - l) == 2 * (x.Sig() * 512 * Pow2(e + 1 - l)) - u * Pow2(e - l)
  {
    var p := Pow2(e - l);
    assert Pow2(e + 1 - l) == 2 * p;
    assert (x.Sig() * 1024 - u / 2) * (2 * p) == 2 * (x.Sig() * 512 * (2 * p)) - u / 2 * (2 * p);
    assert u / 2 * (2 * p) == u * p;
  }

  lemma ExactlyNormalized(sz: nat, exp: int, k: nat, l: int)
    requires exp - k >= l
    ensures Stands(sz * Pow2(k), exp - k, sz * Pow2(exp - l), l, 512)
  {
    Pow2Add(k, exp - k - l);
    StandsExactly(sz * Pow2(k), exp - k, l, 512);
    hide Pow2, Stands;
    Factors(sz, Pow2(k), Pow2(exp - k - l));
  }

  /** Operands with the same exponent leave an exact difference. */
  lemma EqualSettles(x: Double, y: Double, l: int)
    requires x.IsFinite() && y.IsFinite() && y.exp == x.exp && y.frac < x.frac && l <= -200
    ensures var sz := x.frac * 1024 - y.frac * 1024;
      var n := x.Sig() * 512 * Pow2(x.Exp() - l) - y.Sig() * 512 * Pow2(y.Exp() - l);
      && 0 < sz < W63 && n > 0
      && SameSide(sz * Pow2(NormShift(sz)), n, 1 * Pow2(x.Exp() - 1 - NormShift(sz) - l), 512)
  {
    var f := x.frac - y.frac;
    var sz := f * 1024;
    var p := Pow2(x.Exp() - 1 - l);
    assert Pow2(x.Exp() - l) == 2 * p;
    assert x.Sig() * 512 * (2 * p) - y.Sig() * 512 * (2 * p) == f * 1024 * p;
    MulSign(f * 1024, p);
    ExactlyNormalized(sz, x.Exp() - 1, NormShift(sz), l);
    hide NormShift;
  }

  /** The word of a difference that is not zero. */
  lemma DifferenceWord(mode: Mode, a: Double, b: Double, aLarger: bool)
    requires a.IsFinite() && b.IsFinite()
    requires if aLarger then AddendOf(a) > AddendOf(b) else AddendOf(a) < AddendOf(b)
    ensures AddWord(mode, a, b.(sign := !a.sign)) ==
      if aLarger then RoundedWord(mode, a.sign, AddendOf(a) - AddendOf(b), 1)
      else RoundedWord(mode, !a.sign, AddendOf(b) - AddendOf(a), 1)
  {
    hide RoundedWord, Pow2;
  }

  /** What the branch for the larger first operand hands on, and the one for the larger second operand. */
  lemma LargerExponent(mode: Mode, a: Double, b: Double, aLarger: bool)
    requires a.IsFinite() && b.IsFinite() && if aLarger then b.exp < a.exp else a.exp < b.exp
    ensures var (x, y) := if aLarger then (a, b) else (b, a);
      var sz := P62 + x.frac * 1024 - Jam(Unaligned(y), Pow2(x.exp - y.exp)); var n := AddendOf(x) - AddendOf(y);
      && 0 < sz < W63 && n > 0 && 0 <= Jam(Unaligned(y), Pow2(x.exp - y.exp))
      && SameSide(sz * Pow2(NormShift(sz)), n, 1 * Pow2(x.exp - 1 - NormShift(sz) - SCALE), 512)
      && AddWord(mode, a, b.(sign := !a.sign)) == RoundedWord(mode, a.sign == aLarger, n, 1)
      && Unaligned(y) == U64(y.frac * 1024 + if y.exp != 0 then P62 else y.frac * 1024)
  {
    hide SameSide, Pow2, Jam, RoundedWord, AddWord, NormShift;
    var (x, y) := if aLarger then (a, b) else (b, a);
    DifferenceSettles(x, y, SCALE);
    UnalignedIs(y, SCALE);
    DifferenceWord(mode, a, b, aLarger);
  }

  lemma SameExponent(mode: Mode, a: Double, b: Double, aLarger: bool)
    requires a.IsFinite() && b.IsFinite() && a.exp == b.exp && if aLarger then b.frac < a.frac else a.frac < b.frac
    ensures var (x, y) := if aLarger then (a, b) else (b, a);
      var sz := x.frac * 1024 - y.frac * 1024; var n := AddendOf(x) - AddendOf(y);
      && 0 < sz < W63 && n > 0
      && SameSide(sz * Pow2(NormShift(sz)), n, 1 * Pow2(x.Exp() - 1 - NormShift(sz) - SCALE), 512)
      && AddWord(mode, a, b.(sign := !a.sign)) == RoundedWord(mode, a.sign == aLarger, n, 1)
  {
    hide SameSide, Pow2, RoundedWord, AddWord, NormShift;
    var (x, y) := if aLarger then (a, b) else (b, a);
    EqualSettles(x, y, SCALE);
    DifferenceWord(mode, a, b, aLarger);
  }

  lemma NoDifference(mode: Mode, a: Double, b: Double)
    requires a.IsFinite() && b.IsFinite() && a.exp == b.exp && a.frac == b.frac
    ensures AddWord(mode, a, b.(sign := !a.sign)) == Zero(mode.Down?)
  {
    hide RoundedWord, Pow2;
  }

  /** Finite operands with different exponents: the smaller one is aligned. */
  method UnequalDifference(mode: Mode, a: Double, b: Double) returns (uiZ: int)
    requires a.IsFinite() && b.IsFinite() && a.exp != b.exp
    ensures uiZ == AddWord(mode, a, b.(sign := !a.sign))
  {
    hide RoundedWord, Word, SameSide, PackedBits, Pow2, TotalOf, Jam, AddWord, AddendOf, Unaligned, U64, NormShift;
    var expDiff := a.exp - b.exp;
    var sigA, sigB: nat := a.frac * 1024, b.frac * 1024;
    LargerExponent(mode, a, b, expDiff > 0);
    if expDiff > 0 {
      sigB := U64(sigB + if b.exp != 0 then P62 else sigB);
      sigB := ShiftRightJam64(sigB, expDiff);
      uiZ := NormRoundPackF64(mode, a.sign, a.exp - 1, sigA + P62 - sigB, AddendOf(a) - AddendOf(b), 1);
    } else {
      sigA := U64(sigA + if a.exp != 0 then P62 else sigA);
      sigA := ShiftRightJam64(sigA, -expDiff);
      uiZ := NormRoundPackF64(mode, !a.sign, b.exp - 1, sigB + P62 - sigA, AddendOf(b) - AddendOf(a), 1);
    }
  }

  /** Finite operands with the same exponent. */
  method EqualDifference(mode: Mode, a: Double, b: Double) returns (uiZ: int)
    requires a.IsFinite() && b.IsFinite() && a.exp == b.exp
    ensures uiZ == AddWord(mode, a, b.(sign := !a.sign))
  {
    hide RoundedWord, Word, SameSide, PackedBits, Pow2, TotalOf, AddWord, AddendOf, NormShift;
    var sigA, sigB: nat := a.frac * 1024, b.frac * 1024;
    var expZ := if a.exp == 0 then 1 else a.exp;
    if sigB < sigA {
      SameExponent(mode, a, b, true);
      uiZ := NormRoundPackF64(mode, a.sign, expZ - 1, sigA - sigB, AddendOf(a) - AddendOf(b), 1);
    } else if sigA < sigB {
      SameExponent(mode, a, b, false);
      uiZ := NormRoundPackF64(mode, !a.sign, expZ - 1, sigB - sigA, AddendOf(b) - AddendOf(a), 1);
    } else {
      NoDifference(mode, a, b);
      return Zero(mode.Down?);
    }
  }

  /** softfloat_subMagsF64: the operands are taken to have opposite signs, the first one signZ. */
  method SubMagsF64(mode: Mode, uiA: nat, uiB: nat, signZ: bool) returns (uiZ: int)
    requires uiA < W64 && uiB < W64 && signZ == Unpack(uiA).sign
    ensures uiZ == AddWord(mode, Unpack(uiA), Unpack(uiB).(sign := !signZ))
  {
    hide PackedBits, Unpack, AddWord;
    var a, b := Unpack(uiA), Unpack(uiB);
    UnpackPacks(uiA);
    UnpackPacks(uiB);
    InfiniteWord(uiA);
    SpecialWord(mode, a, b);
    if a.exp == 0x7FF {
      return if a.frac != 0 || b.exp == 0x7FF then DEFAULT_NAN else uiA;
    }
    if b.exp == 0x7FF {
      return if b.frac != 0 then DEFAULT_NAN else Infinity(!signZ);
    }
    if a.exp == b.exp {
      uiZ := EqualDifference(mode, a, b);
    } else {
      uiZ := UnequalDifference(mode, a, b);
    }
  }

  lemma SpecialWord(mode: Mode, a: Double, b: Double)
    requires a.exp <= 0x7FF && b.exp <= 0x7FF
    ensures a.exp == 0x7FF || b.exp == 0x7FF ==>
      AddWord(mode, a, b.(sign := !a.sign)) ==
        if IsNaN(a) || IsNaN(b) || (IsInfinite(a) && IsInfinite(b)) then DEFAULT_NAN
        else if a.exp == 0x7FF then Infinity(a.sign) else Infinity(!a.sign)
  {
    hide Infinity;
  }

  // ---- f64_add and f64_sub ----

  /** f64_add: the correctly rounded sum. */
  method AddF64(mode: Mode, uiA: nat, uiB: nat) returns (uiZ: int)
    requires uiA < W64 && uiB < W64
    ensures uiZ == AddWord(mode, Unpack(uiA), Unpack(uiB))
    ensures Unpack(uiA).IsFinite() && Unpack(uiB).IsFinite() ==> IsSum(mode, Unpack(uiA), Unpack(uiB), uiZ)
  {
    hide AddWord, IsSum;
    if Unpack(uiA).IsFinite() && Unpack(uiB).IsFinite() {
      SumRounds(mode, Unpack(uiA), Unpack(uiB));
    }
    var signA, signB := Unpack(uiA).sign, Unpack(uiB).sign;
    if signA == signB {
      uiZ := AddMagsF64(mode, uiA, uiB, signA);
    } else {
      uiZ := SubMagsF64(mode, uiA, uiB, signA);
    }
  }

  /** f64_sub: the correctly rounded difference. */
  method SubF64(mode: Mode, uiA: nat, uiB: nat) returns (uiZ: int)
    requires uiA < W64 && uiB < W64
    ensures var b := Unpack(uiB); uiZ == AddWord(mode, Unpack(uiA), b.(sign := !b.sign))
    ensures var a, b := Unpack(uiA), Unpack(uiB);
      a.IsFinite() && b.IsFinite() ==> IsSum(mode, a, b.(sign := !b.sign), uiZ)
  {
    hide AddWord, IsSum;
    var b := Unpack(uiB);
    if Unpack(uiA).IsFinite() && b.IsFinite() {
      SumRounds(mode, Unpack(uiA), b.(sign := !b.sign));
    }
    var signA, signB := Unpack(uiA).sign, Unpack(uiB).sign;
    if signA == signB {
      uiZ := SubMagsF64(mode, uiA, uiB, signA);
    } else {
      uiZ := AddMagsF64(mode, uiA, uiB, signA);
    }
  }
}
