/** Division, multiplication and addition of magnitudes: the shorter operations, up to the rounding step. */
module SoftBasic {
  import opened Arith
  import opened Words
  import opened SoftRounding
  import opened SoftJam
  import opened Soft128

  // ---- f32_div ----

  lemma QuotientSettles(n: nat, d: nat)
    requires d > 0
    ensures var z := n / d; 0 <= z && z * d <= n < z * d + d
    ensures var z := n / d; SameSide(if z % 64 == 0 && d * z != n then z + 1 else z, n, d, 64)
  {
    var z := n / d;
    Division(n, d);
    MulOrder(z, -1, d);
    var m := z / 64;
    assert d * z == z * d;
    if z % 64 == 0 {
      if z * d == n {
        SameValue(z, n, d, 64);
      } else {
        MulOrder(z + 1, (m + 1) * 64, d);
        assert (z + 1) * d == z * d + d;
        SameGap(z + 1, n, d, 64, m);
      }
    } else {
      MulOrder(m * 64, z, d);
      MulOrder(z + 1, (m + 1) * 64, d);
      assert (z + 1) * d == z * d + d;
      SameGap(z, n, d, 64, m);
    }
  }

  /** f32_div for normal operands: one division, with a sticky bit only where the low bits are zero. */
  method DivideF32(expA: int, fracA: nat, expB: int, fracB: nat) returns (expZ: int, sigZ: nat)
    requires fracA < P23 && fracB < P23
    ensures var sigA, sigB := P23 + fracA, P23 + fracB; var early := if sigA < sigB then 1 else 0;
      && expZ == expA - expB + 0x7E - early
      && SameSide(sigZ, sigA * P30 * (1 + early), sigB, 64)
      && P30 <= sigZ < P31
  {
    expZ := expA - expB + 0x7E;
    var sigA, sigB: nat := P23 + fracA, P23 + fracB;
    var sig64A: nat;
    if sigA < sigB {
      expZ := expZ - 1;
      sig64A := sigA * P31;
    } else {
      sig64A := sigA * P30;
    }
    QuotientSettles(sig64A, sigB);
    sigZ := sig64A / sigB;
    if sigZ % 64 == 0 {
      if sigB * sigZ != sig64A {
        sigZ := sigZ + 1;
      }
    }
    assert AgreeAt(sigZ, sig64A, sigB, 64, P30 / 64) && AgreeAt(sigZ, sig64A, sigB, 64, P31 / 64);
  }

  // ---- f64_mul ----

  /** f64_mul for normal operands: the exact product, its lower word jammed. */
  method MultiplyF64(expA: int, fracA: nat, expB: int, fracB: nat) returns (expZ: int, sigZ: nat)
    requires fracA < P52 && fracB < P52
    ensures var sigA, sigB := P52 + fracA, P52 + fracB; var late := if sigA * sigB < 2 * P52 * P52 then 1 else 0;
      && expZ == expA + expB - 0x3FF - late
      && SameSide(sigZ, sigA * sigB * 0x20_0000 * (1 + late), W64, 512)
      && P62 <= sigZ < W63
  {
    hide SameSide, Jam;
    expZ := expA + expB - 0x3FF;
    var sigA, sigB: nat := P52 + fracA, P52 + fracB;
    ghost var n := sigA * sigB * 0x20_0000;
    MulRange(sigA, sigB);
    var z := Mul64To128(U64(sigA * 1024), U64(sigB * 2048));
    sigZ := Or1(z.v64, z.v0 != 0);
    Upper(z);
    JamSameSide(n, W64);
    JamBetween(n, W64, P61 / 2, P62);
    JamBelowHalf(n);
    if sigZ < P62 {
      expZ := expZ - 1;
      ScaleUp(sigZ, n, W64, 2, 2);
      sigZ := U64(sigZ * 2);
      CoarserSameSide(sigZ, n * 2, W64, 4, 128);
    } else {
      CoarserSameSide(sigZ, n, W64, 2, 256);
    }
  }

  lemma MulRange(x: nat, y: nat)
    requires P52 <= x < 2 * P52 && P52 <= y < 2 * P52
    ensures P61 * W64 <= x * y * 0x20_0000 < W63 * W64 && x * 1024 * (y * 2048) == x * y * 0x20_0000
  {
    MulOrder(P52, x, y);
    MulOrder(x, 2 * P52, y);
    ProductFactors(x, y);
  }

  lemma ProductFactors(x: nat, y: nat)
    ensures x * 1024 * (y * 2048) == x * y * 0x20_0000
  {
    assert x * 1024 * (y * 2048) == (x * y) * (1024 * 2048);
  }

  lemma Upper(z: U128)
    requires z.Ok()
    ensures Or1(z.v64, z.v0 != 0) == Jam(z.Val(), W64)
  {
    QuotientUnique(z.Val(), W64, z.v64);
  }

  lemma JamBelowHalf(n: nat)
    ensures Jam(n, W64) < P62 <==> n < P62 * W64
  {
    JamSameSide(n, W64);
    assert AgreeAt(Jam(n, W64), n, W64, 2, P62 / 2);
  }

  // ---- addMags ----

  /** A finite magnitude by its fields. */
  function Weight(exp: nat, frac: nat, hidden: nat): nat { if exp == 0 then 2 * frac else (hidden + frac) * Pow2(exp) }

  /** The aligned smaller operand stands for its own value. */
  lemma AlignedF64(exp: nat, frac: nat, other: nat)
    requires frac < P52 && exp < other
    ensures var sig := frac * 512 + (if exp == 0 then frac * 512 else P61);
      && sig < P62 && Stands(Jam(sig, Pow2(other - exp)), other, Weight(exp, frac, P52) * 512, 0, 2)
      && Jam(sig, Pow2(other - exp)) < P61
  {
    hide Jam;
    var sig := frac * 512 + if exp == 0 then frac * 512 else P61;
    assert Pow2(1) == 2 && Pow2(0) == 1;
    StandsExactly(sig, exp, 0, 1);
    assert sig * Pow2(exp) == Weight(exp, frac, P52) * 512;
    StandsJammed(sig, exp, Weight(exp, frac, P52) * 512, 0, 1, other - exp, 2);
    Pow2Add(1, other - exp - 1);
    MulOrder(1, Pow2(other - exp - 1), P61 * 2);
    assert P61 * (2 * Pow2(other - exp - 1)) == Pow2(other - exp - 1) * (P61 * 2);
    JamBetween(sig, Pow2(other - exp), 0, P61 / 2);
  }

  /** The sum of the larger operand and the aligned smaller one. */
  lemma SumF64(exp: nat, frac: nat, w: nat, n: nat)
    requires exp > 0 && frac < P52 && w < P61 && Stands(w, exp, n, 0, 2)
    ensures var sig := P61 + frac * 512 + w; var total := Weight(exp, frac, P52) * 512 + n;
      && P61 <= sig < W63
      && (sig < P62 ==> Stands(2 * sig, exp - 1, total, 0, 512)) && (sig >= P62 ==> Stands(sig, exp, total, 0, 512))
  {
    var c := P61 + frac * 512;
    StandsSum(w, exp, n, 0, 2, c / 2);
    assert c / 2 * 2 == c && c * Pow2(exp) == Weight(exp, frac, P52) * 512 by {
      assert (P52 + frac) * 512 * Pow2(exp) == (P52 + frac) * Pow2(exp) * 512;
    }
    var sig, total := c + w, Weight(exp, frac, P52) * 512 + n;
    if sig < P62 {
      assert Pow2(1) == 2;
      StandsShifted(sig, exp, total, 0, 2, 1);
      StandsCoarser(sig * 2, exp - 1, total, 0, 4, 128);
    } else {
      StandsCoarser(sig, exp, total, 0, 2, 256);
    }
  }

  /** What addMags hands on: two subnormals are added in the packed word, everything else is rounded. */
  datatype Sum = Packed(bits: nat) | ToRound(exp: int, sig: nat)

  /** softfloat_addMagsF64 for finite operands. */
  method AddMagsF64(expA: nat, fracA: nat, expB: nat, fracB: nat) returns (r: Sum)
    requires expA < 0x7FF && expB < 0x7FF && fracA < P52 && fracB < P52
    ensures var n := Weight(expA, fracA, P52) + Weight(expB, fracB, P52);
      match r
      case Packed(bits) => bits < 2 * P52 && 2 * bits == n
      case ToRound(exp, sig) => exp < 0x7FF && P62 <= sig < W63 && Stands(sig, exp, n * 512, 0, 512)
  {
    hide Jam, Stands, Pow2, Weight;
    var expDiff: int := expA - expB;
    var sigA, sigB: nat := fracA * 512, fracB * 512;
    var expZ: int;
    var sigZ: nat;
    if expDiff == 0 {
      if expA == 0 {
        BothSubnormal(fracA, fracB);
        return Packed(fracA + fracB);
      }
      expZ := expA;
      sigZ := U64(P62 + sigA + sigB);
      EqualExponents(expA, fracA, fracB);
    } else {
      if expDiff < 0 {
        expZ := expB;
        AlignedF64(expA, fracA, expB);
        sigA := U64(sigA + if expA != 0 then P61 else sigA);
        sigA := ShiftRightJam64(sigA, -expDiff);
        SumF64(expB, fracB, sigA, Weight(expA, fracA, P52) * 512);
      } else {
        expZ := expA;
        AlignedF64(expB, fracB, expA);
        sigB := U64(sigB + if expB != 0 then P61 else sigB);
        sigB := ShiftRightJam64(sigB, expDiff);
        SumF64(expA, fracA, sigB, Weight(expB, fracB, P52) * 512);
      }
      sigZ := U64(P61 + sigA + sigB);
      if sigZ < P62 {
        expZ := expZ - 1;
        sigZ := U64(sigZ * 2);
      }
    }
    return ToRound(expZ, sigZ);
  }

  lemma BothSubnormal(fracA: nat, fracB: nat)
    ensures Weight(0, fracA, P52) + Weight(0, fracB, P52) == 2 * (fracA + fracB)
  {
  }

  lemma EqualExponents(exp: nat, fracA: nat, fracB: nat)
    requires exp > 0 && fracA < P52 && fracB < P52
    ensures Stands(P62 + fracA * 512 + fracB * 512, exp,
      (Weight(exp, fracA, P52) + Weight(exp, fracB, P52)) * 512, 0, 512)
  {
    var s := P52 + fracA + (P52 + fracB);
    StandsExactly(s * 512, exp, 0, 512);
    assert s * 512 * Pow2(exp) == ((P52 + fracA) * Pow2(exp) + (P52 + fracB) * Pow2(exp)) * 512;
  }
}
