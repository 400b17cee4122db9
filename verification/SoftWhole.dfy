/**
 Division and multiplication of double-precision words as a whole: special operands, subnormal ones,
 and the exact result rounded and packed (sections 5.4.1 and 7.2 of IEEE 754-2008).
*/
module SoftWhole {
  import opened Arith
  import opened Words
  import opened SoftRounding
  import opened SoftJam
  import opened Soft128
  import opened SoftWord
  import opened SoftOrder
  import opened SoftRoundPack
  import opened SoftMulAdd64
  import opened SoftValue
  import SoftBasic
  import SoftDivide64

  // ---- division ----

  /** The magnitude of a / b as a fraction, in units of two to the SCALE. */
  function QuotientOf(a: Double, b: Double): nat
    requires a.exp < 0x7FF && b.exp < 0x7FF
  {
    a.Sig() * Pow2(a.Exp() - b.Exp() + 1084 - SCALE)
  }

  function QuotientWord(mode: Mode, a: Double, b: Double): int
    requires a.exp <= 0x7FF && b.exp <= 0x7FF
  {
    var sign := a.sign != b.sign;
    if IsNaN(a) || IsNaN(b) || (IsInfinite(a) && IsInfinite(b)) || (IsZero(a) && IsZero(b)) then DEFAULT_NAN
    else if IsInfinite(a) || IsZero(b) then Infinity(sign)
    else if IsInfinite(b) || IsZero(a) then Zero(sign)
    else RoundedWord(mode, sign, QuotientOf(a, b), b.Sig())
  }

  /** The word holds the quotient of the two numbers, rounded. */
  ghost predicate IsQuotient(mode: Mode, a: Double, b: Double, ui: int) {
    0 <= ui < W64 && AddendOf(b) > 0 &&
    RoundsTo(mode, a.sign != b.sign, AddendOf(a) * AddendOf(ONE), AddendOf(b), Unpack(ui))
  }

  predicate IsNumber(x: Double) { x.IsFinite() && !IsZero(x) }

  lemma QuotientIs(a: Double, b: Double)
    requires a.IsFinite() && b.IsFinite()
    ensures QuotientOf(a, b) * AddendOf(b) == AddendOf(a) * AddendOf(ONE) * b.Sig()
  {
    QuotientScale(a.Sig(), a.Exp(), b.Sig(), b.Exp(), SCALE);
    assert ONE.Sig() == P52 && ONE.Exp() == 0x3FF;
    hide Pow2;
  }

  lemma QuotientScale(s: nat, e: nat, t: nat, f: nat, l: int)
    requires l <= -3000 && e <= 0x7FF && f <= 0x7FF
    ensures e - f + 1084 - l >= 0
    ensures s * Pow2(e - f + 1084 - l) * (t * 512 * Pow2(f - l)) ==
      s * 512 * Pow2(e - l) * (P52 * 512 * Pow2(0x3FF - l)) * t
  {
    Pow2Add(e - f + 1084 - l, f - l);
    Pow2Add(61, e - l);
    Pow2Add(61 + e - l, 0x3FF - l);
    WordPower(61);
    assert Pow2(3) == 8;
    var x, y, u, v := Pow2(e - f + 1084 - l), Pow2(f - l), Pow2(e - l), Pow2(0x3FF - l);
    assert x * y == P61 * u * v;
    hide Pow2;
    FourFactors(s, x, t, y, u, v);
  }

  lemma FourFactors(s: int, x: int, t: int, y: int, u: int, v: int)
    requires x * y == P61 * u * v
    ensures s * x * (t * 512 * y) == s * 512 * u * (P52 * 512 * v) * t
  {
    assert s * x * (t * 512 * y) == s * t * 512 * (x * y) by {
      Regroup4(s, x, t * 512, y);
      assert s * (t * 512) == s * t * 512;
    }
    assert s * 512 * u * (P52 * 512 * v) * t == s * t * 512 * (P61 * u * v) by {
      Regroup4(s * 512, u, P52 * 512, v);
      assert s * 512 * (P52 * 512) * (u * v) * t == s * t * 512 * (P61 * (u * v));
    }
  }

  lemma Regroup4(p: int, x: int, q: int, y: int)
    ensures p * x * (q * y) == p * q * (x * y)
  {
  }

  /** The quotient word is the quotient of the numbers, rounded by the order of the format. */
  lemma QuotientRounds(mode: Mode, a: Double, b: Double)
    requires IsNumber(a) && IsNumber(b)
    ensures IsQuotient(mode, a, b, QuotientWord(mode, a, b))
  {
    var negative := a.sign != b.sign;
    RoundedWordRounds(mode, negative, QuotientOf(a, b), b.Sig());
    QuotientIs(a, b);
    MulSign(b.Sig() * 512, Pow2(b.Exp() - SCALE));
    hide RoundedWord, RoundsTo, QuotientOf, AddendOf, Unpack;
    SameFractionRounds(mode, negative, QuotientOf(a, b), b.Sig(), AddendOf(a) * AddendOf(ONE), AddendOf(b),
      Unpack(QuotientWord(mode, a, b)));
  }

  /** f64_div: the correctly rounded quotient. */
  method DivF64(mode: Mode, uiA: nat, uiB: nat) returns (uiZ: int)
    requires uiA < W64 && uiB < W64
    ensures uiZ == QuotientWord(mode, Unpack(uiA), Unpack(uiB))
    ensures IsNumber(Unpack(uiA)) && IsNumber(Unpack(uiB)) ==> IsQuotient(mode, Unpack(uiA), Unpack(uiB), uiZ)
  {
    hide SameSide, Word, RoundedWord, Pow2, PackedBits, Unpack, Representable, Denotes, QuotientOf, IsQuotient,
      IsRounded;
    var a, b := Unpack(uiA), Unpack(uiB);
    if IsNumber(a) && IsNumber(b) {
      QuotientRounds(mode, a, b);
    }
    UnpackPacks(uiA);
    UnpackPacks(uiB);
    var signZ := a.sign != b.sign;
    if a.exp == 0x7FF {
      if a.frac != 0 || b.exp == 0x7FF {
        return DEFAULT_NAN;
      }
      return Infinity(signZ);
    }
    if b.exp == 0x7FF {
      return if b.frac != 0 then DEFAULT_NAN else Zero(signZ);
    }
    if b.exp == 0 && b.frac == 0 {
      return if a.exp == 0 && a.frac == 0 then DEFAULT_NAN else Infinity(signZ);
    }
    if a.exp == 0 && a.frac == 0 {
      return Zero(signZ);
    }
    var expB, sigB := Normal(b);
    var expA, sigA := Normal(a);
    DenotesRange(sigA, expA, a);
    DenotesRange(sigB, expB, b);
    var expZ, sigZ := SoftDivide64.DivideF64(expA, sigA - P52, expB, sigB - P52);
    QuotientSettles(a, b, expA, sigA, expB, sigB, expZ, sigZ);
    ghost var n, d := QuotientOf(a, b), b.Sig();
    SettledWord(mode, signZ, expZ, sigZ, n, d);
    var flags;
    uiZ, flags := RoundPackF64(mode, signZ, expZ, sigZ, n, d * Pow2(expZ - SCALE));
  }

  /** The quotient of the normalized significands is the quotient of the numbers. */
  lemma QuotientSettles(a: Double, b: Double, expA: int, sigA: nat, expB: int, sigB: nat, expZ: int, sigZ: int)
    requires a.IsFinite() && b.IsFinite() && Denotes(sigA, expA, a) && Denotes(sigB, expB, b)
    requires var early := if sigA < sigB then 1 else 0;
      expZ == expA - expB + 0x3FE - early && SameSide(sigZ, sigA * P62 * (1 + early), sigB, 512)
    ensures expZ >= SCALE && b.Sig() > 0 && SameSide(sigZ, QuotientOf(a, b), b.Sig() * Pow2(expZ - SCALE), 512)
  {
    var early := if sigA < sigB then 1 else 0;
    var j, k: nat := expZ - SCALE, b.Exp() - expB;
    QuotientPowers(a.Sig(), a.Exp(), b.Exp(), expA, expB, early, SCALE);
    hide SameSide, Pow2;
    Exchanged(b.Sig(), Pow2(k), Pow2(j));
    SameFraction(sigZ, sigA * P62 * (1 + early), sigB, 512, Pow2(j));
    SameFraction(sigZ, QuotientOf(a, b), b.Sig() * Pow2(j), 512, Pow2(k));
  }

  lemma Exchanged(s: int, p: int, q: int)
    ensures s * p * q == s * q * p
  {
  }

  lemma QuotientPowers(s: nat, expS: int, expD: int, expA: int, expB: int, early: nat, l: int)
    requires early <= 1 && expA <= expS && expB <= expD && expA - expB + 0x3FE - early >= l
    requires expS - expD + 1084 >= l
    ensures s * Pow2(expS - expA) * P62 * (1 + early) * Pow2(expA - expB + 0x3FE - early - l)
         == s * Pow2(expS - expD + 1084 - l) * Pow2(expD - expB)
  {
    var k: nat := expS - expA;
    var j: nat := expA - expB + 0x3FE - early - l;
    SixtyTwo(early);
    Pow2Add(k, 62 + early);
    Pow2Add(k + 62 + early, j);
    Pow2Add(expS - expD + 1084 - l, expD - expB);
    var r, t := Pow2(expS - expD + 1084 - l), Pow2(expD - expB);
    assert Pow2(k) * Pow2(62 + early) * Pow2(j) == r * t;
    hide Pow2;
    Regrouped(s, Pow2(k), P62, 1 + early, Pow2(62 + early), Pow2(j), r, t);
  }

  lemma Regrouped(s: int, p: int, q1: int, q2: int, q: int, j: int, r: int, t: int)
    requires q1 * q2 == q && p * q * j == r * t
    ensures s * p * q1 * q2 * j == s * r * t
  {
    Products(s, p, q1, q2);
    Products(s, p * q, j, 1);
    Products(s, r, t, 1);
    assert s * p * (q1 * q2) == s * (p * q) by {
      Products(s, p, q, 1);
    }
  }

  lemma Products(x: int, y: int, z: int, w: int)
    ensures x * y * z * w == x * y * (z * w) && x * y * z == x * (y * z)
  {
  }

  lemma SixtyTwo(early: nat)
    requires early <= 1
    ensures P62 * (1 + early) == Pow2(62 + early)
  {
    WordPower(62);
    WordPower(63);
    assert Pow2(1) == 2 && Pow2(2) == 4;
  }

  // ---- multiplication ----

  function ProductWord(mode: Mode, a: Double, b: Double): int {
    var sign := a.sign != b.sign;
    if IsNaN(a) || IsNaN(b) || (IsInfinite(a) && IsZero(b)) || (IsZero(a) && IsInfinite(b)) then DEFAULT_NAN
    else if IsInfinite(a) || IsInfinite(b) then Infinity(sign)
    else if IsZero(a) || IsZero(b) then Zero(sign)
    else RoundedWord(mode, sign, ProductOf(a, b), 1)
  }

  /** The word holds the product of the two numbers, rounded. */
  ghost predicate IsProduct(mode: Mode, a: Double, b: Double, ui: int) {
    0 <= ui < W64 && AddendOf(ONE) > 0 &&
    RoundsTo(mode, a.sign != b.sign, AddendOf(a) * AddendOf(b), AddendOf(ONE), Unpack(ui))
  }

  lemma ProductIs(a: Double, b: Double)
    requires a.IsFinite() && b.IsFinite()
    ensures ProductOf(a, b) * AddendOf(ONE) == AddendOf(a) * AddendOf(b) && AddendOf(ONE) > 0
  {
    ProductScale(a.Sig(), a.Exp(), b.Sig(), b.Exp(), SCALE);
    assert ONE.Sig() == P52 && ONE.Exp() == 0x3FF;
    MulSign(P52 * 512, Pow2(0x3FF - SCALE));
    hide Pow2;
  }

  lemma ProductScale(s: nat, e: nat, t: nat, f: nat, l: int)
    requires l <= -3000
    ensures s * t * 0x10_0000 * Pow2(e + f - 0x3FE - 64 - l) * (P52 * 512 * Pow2(0x3FF - l)) ==
      s * 512 * Pow2(e - l) * (t * 512 * Pow2(f - l))
  {
    Pow2Add(e + f - 0x3FE - 64 - l, 0x3FF - l);
    Pow2Add(e - l, f - l);
    Pow2Add(63, e + f - 0x3FE - 64 - l + (0x3FF - l));
    WordPower(63);
    var x, y, u, v := Pow2(e + f - 0x3FE - 64 - l), Pow2(0x3FF - l), Pow2(e - l), Pow2(f - l);
    assert u * v == Pow2(63) * (x * y);
    assert Pow2(1) == 2;
    hide Pow2;
    Regroup4(s * t * 0x10_0000, x, P52 * 512, y);
    Regroup4(s * 512, u, t * 512, v);
    assert s * t * 0x10_0000 * (P52 * 512) * (x * y) == s * 512 * (t * 512) * (W63 * (x * y));
  }

  lemma ProductRounds(mode: Mode, a: Double, b: Double)
    requires IsNumber(a) && IsNumber(b)
    ensures IsProduct(mode, a, b, ProductWord(mode, a, b))
  {
    var negative := a.sign != b.sign;
    RoundedWordRounds(mode, negative, ProductOf(a, b), 1);
    ProductIs(a, b);
    hide RoundedWord, RoundsTo, ProductOf, AddendOf, Unpack;
    SameFractionRounds(mode, negative, ProductOf(a, b), 1, AddendOf(a) * AddendOf(b), AddendOf(ONE),
      Unpack(ProductWord(mode, a, b)));
  }

  /** f64_mul: the correctly rounded product. */
  method MulF64(mode: Mode, uiA: nat, uiB: nat) returns (uiZ: int)
    requires uiA < W64 && uiB < W64
    ensures uiZ == ProductWord(mode, Unpack(uiA), Unpack(uiB))
    ensures IsNumber(Unpack(uiA)) && IsNumber(Unpack(uiB)) ==> IsProduct(mode, Unpack(uiA), Unpack(uiB), uiZ)
  {
    hide SameSide, Word, RoundedWord, Pow2, PackedBits, Unpack, Representable, Denotes, ProductOf, IsProduct,
      IsRounded;
    var a, b := Unpack(uiA), Unpack(uiB);
    if IsNumber(a) && IsNumber(b) {
      ProductRounds(mode, a, b);
    }
    UnpackPacks(uiA);
    UnpackPacks(uiB);
    var signZ := a.sign != b.sign;
    if a.exp == 0x7FF {
      if a.frac != 0 || (b.exp == 0x7FF && b.frac != 0) {
        return DEFAULT_NAN;
      }
      return if b.exp == 0 && b.frac == 0 then DEFAULT_NAN else Infinity(signZ);
    }
    if b.exp == 0x7FF {
      if b.frac != 0 {
        return DEFAULT_NAN;
      }
      return if a.exp == 0 && a.frac == 0 then DEFAULT_NAN else Infinity(signZ);
    }
    if (a.exp == 0 && a.frac == 0) || (b.exp == 0 && b.frac == 0) {
      return Zero(signZ);
    }
    var expA, sigA := Normal(a);
    var expB, sigB := Normal(b);
    DenotesRange(sigA, expA, a);
    DenotesRange(sigB, expB, b);
    var expZ, sigZ := SoftBasic.MultiplyF64(expA, sigA - P52, expB, sigB - P52);
    ProductSettles(a, b, expA, sigA, expB, sigB, expZ, sigZ);
    SettledWord(mode, signZ, expZ, sigZ, ProductOf(a, b), 1);
    var flags;
    uiZ, flags := RoundPackF64(mode, signZ, expZ, sigZ, ProductOf(a, b), Pow2(expZ - SCALE));
  }

  /** The product of the normalized significands is the product of the numbers. */
  lemma ProductSettles(a: Double, b: Double, expA: int, sigA: nat, expB: int, sigB: nat, expZ: int, sigZ: int)
    requires Denotes(sigA, expA, a) && Denotes(sigB, expB, b)
    requires var late := if sigA * sigB < 2 * P52 * P52 then 1 else 0;
      expZ == expA + expB - 0x3FF - late && SameSide(sigZ, sigA * sigB * 0x20_0000 * (1 + late), W64, 512)
    ensures expZ >= SCALE && SameSide(sigZ, ProductOf(a, b), 1 * Pow2(expZ - SCALE), 512)
  {
    hide SameSide, ProductOf;
    var late := if sigA * sigB < 2 * P52 * P52 then 1 else 0;
    DenotesRange(sigA, expA, a);
    DenotesRange(sigB, expB, b);
    NormalProduct(a, b, expA, sigA, expB, sigB);
    ProductPowers(sigA * sigB, expZ, late, SCALE);
    ScaledProduct(sigA, sigB);
    SameFraction(sigZ, sigA * sigB * 0x20_0000 * (1 + late), W64, 512, Pow2(expZ - SCALE - 64));
  }

  lemma ProductPowers(s: nat, expZ: int, late: nat, l: int)
    requires late <= 1 && expZ - 64 >= l
    ensures s * 0x20_0000 * (1 + late) * Pow2(expZ - l - 64) == Scaled128(s * 0x10_0000, expZ + 1 + late, l)
    ensures W64 * Pow2(expZ - l - 64) == Pow2(expZ - l)
  {
    var p := Pow2(expZ - l - 64);
    WordPower(64);
    Pow2Add(64, expZ - l - 64);
    Pow2Add(1 + late, expZ - l - 64);
    assert Pow2(1) == 2 && Pow2(2) == 4;
    hide Pow2;
    DoublePower(s, 1 + late, p);
  }

  lemma DoublePower(s: int, k: nat, p: int)
    ensures k == 1 ==> s * 0x20_0000 * k * p == s * 0x10_0000 * (2 * p)
    ensures k == 2 ==> s * 0x20_0000 * k * p == s * 0x10_0000 * (4 * p)
  {
    assert s * 0x20_0000 * p == s * 0x10_0000 * (2 * p);
    assert s * 0x20_0000 * 2 * p == s * 0x10_0000 * (4 * p);
  }
}
