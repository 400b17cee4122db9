/** Values of double-precision words, and the word of an exact value: rounded once and packed. */
module SoftValue {
  import opened Arith
  import opened Words
  import opened SoftRounding
  import opened Soft128
  import opened SoftWord
  import opened SoftOrder
  import opened SoftRoundPack
  import opened SoftMulAdd64

  /** The exponent at which the magnitude n, counted in units of two to the l, has its leading bit at bit 62. */
  function TopExponent(n: nat, l: int): int
    decreases n
  {
    if n < W63 then l else TopExponent(n / 2, l + 1)
  }

  lemma {:induction false} TopExponentBounds(n: nat, l: int)
    ensures TopExponent(n, l) >= l && n < W63 * Pow2(TopExponent(n, l) - l)
    ensures n >= P62 ==> P62 * Pow2(TopExponent(n, l) - l) <= n
    decreases n
  {
    if n < W63 {
      assert Pow2(0) == 1;
    } else {
      TopExponentBounds(n / 2, l + 1);
      var e := TopExponent(n / 2, l + 1);
      assert Pow2(e - l) == 2 * Pow2(e - l - 1);
      HalfBounds(n, Pow2(e - l - 1));
    }
  }

  lemma HalfBounds(n: nat, p: nat)
    requires P62 * p <= n / 2 < W63 * p
    ensures P62 * (2 * p) <= n < W63 * (2 * p)
  {
  }

  /** There is only one such exponent. */
  lemma TopExponentIs(n: nat, l: int, exp: int)
    requires exp >= l && P62 * Pow2(exp - l) <= n < W63 * Pow2(exp - l)
    ensures TopExponent(n, l) == exp
  {
    var e := TopExponent(n, l);
    MulOrder(1, Pow2(exp - l), P62);
    assert Pow2(exp - l) * P62 == P62 * Pow2(exp - l);
    TopExponentBounds(n, l);
    if e < exp {
      DoubledAtLeast(e - l, exp - l);
    } else if e > exp {
      DoubledAtLeast(exp - l, e - l);
    }
  }

  lemma DoubledAtLeast(i: nat, j: nat)
    requires i < j
    ensures P62 * Pow2(j) >= W63 * Pow2(i)
  {
    Pow2Add(i, j - i);
    assert Pow2(j - i) == 2 * Pow2(j - i - 1);
    MulOrder(2, Pow2(j - i), Pow2(i));
    assert Pow2(i) * Pow2(j - i) == Pow2(j - i) * Pow2(i);
  }

  /** The packed word of the magnitude n / d, counted in units of two to the SCALE. */
  function RoundedWord(mode: Mode, sign: bool, n: nat, d: nat): int
    requires d > 0
  {
    var exp := TopExponent(n / d, SCALE);
    TopExponentBounds(n / d, SCALE);
    MulSign(d, Pow2(exp - SCALE));
    Word(mode, sign, exp, n, d * Pow2(exp - SCALE))
  }

  /** The word of n / d is n / d rounded. */
  lemma RoundedWordRounds(mode: Mode, sign: bool, n: nat, d: nat)
    requires d > 0
    ensures var ui := RoundedWord(mode, sign, n, d); 0 <= ui < W64 && RoundsTo(mode, sign, n, d, Unpack(ui))
  {
    var exp := TopExponent(n / d, SCALE);
    TopExponentBounds(n / d, SCALE);
    var p := Pow2(exp - SCALE);
    MulSign(d, p);
    hide TopExponent, Word, RoundsTo, Pow2, Unpack;
    FractionBounds(n, d, p);
    if exp >= 0 {
      LeadingInPlace(n / d, SCALE);
    }
    WordRounds(mode, sign, exp, n, d);
  }

  lemma LeadingInPlace(x: nat, l: int)
    ensures TopExponent(x, l) > l ==> x >= P62
  {
  }

  lemma FractionBounds(n: nat, d: nat, p: nat)
    requires d > 0 && p > 0
    ensures n / d < W63 * p ==> n < W63 * (d * p)
    ensures P62 * p <= n / d ==> P62 * (d * p) <= n
  {
    var q := n / d;
    Division(n, d);
    assert W63 * (d * p) == W63 * p * d && P62 * (d * p) == P62 * p * d;
    if q < W63 * p {
      MulOrder(q, W63 * p, d);
    }
    if P62 * p <= q {
      MulOrder(P62 * p, q, d);
    }
  }

  /** A normalized significand that settles the rounding of n / d has its exponent. */
  lemma SettledWord(mode: Mode, sign: bool, exp: int, sig: nat, n: nat, d: nat)
    requires d > 0 && exp >= SCALE && P62 <= sig < W63 && SameSide(sig, n, d * Pow2(exp - SCALE), 512)
    ensures d * Pow2(exp - SCALE) > 0
    ensures RoundedWord(mode, sign, n, d) == Word(mode, sign, exp, n, d * Pow2(exp - SCALE))
  {
    var p := Pow2(exp - SCALE);
    assert AgreeAt(sig, n, d * p, 512, P62 / 512) && AgreeAt(sig, n, d * p, 512, W63 / 512);
    MulSign(d, p);
    hide SameSide, Word, TopExponent;
    QuotientBetween(n, d, P62, W63, p);
    TopExponentIs(n / d, SCALE, exp);
  }

  lemma QuotientBetween(n: nat, d: nat, lo: nat, hi: nat, p: nat)
    requires d > 0 && lo * (d * p) <= n < hi * (d * p)
    ensures lo * p <= n / d < hi * p
  {
    Division(n, d);
    assert lo * (d * p) == lo * p * d && hi * (d * p) == hi * p * d;
    MulOrder(n / d, hi * p, d);
    MulOrder(n / d + 1, lo * p, d);
    assert (n / d + 1) * d == n / d * d + d;
  }

  // ---- a number of the format rounds to itself ----

  /** A multiple of two units is rounded to itself. */
  lemma RoundsExactly(mode: Mode, sign: bool, r: nat, d: nat)
    requires d > 0
    ensures Round(mode, sign, r * 1024 * d, d, 512) == r
  {
    MulSign(512, d);
    assert r * 1024 * d == r * (2 * (512 * d));
    QuotientUnique(r * 1024 * d, 2 * (512 * d), r);
  }

  lemma AddendRoundsToItself(mode: Mode, c: Double)
    requires c.IsFinite() && c.Sig() > 0
    ensures RoundedWord(mode, c.sign, AddendOf(c), 1) == PackedBits(c)
  {
    var n := AddendOf(c);
    if c.exp == 0 {
      SubnormalAddend(mode, c);
    } else {
      var d := Pow2(c.exp - 1 - SCALE);
      assert Pow2(c.exp - SCALE) == 2 * d;
      assert c.Sig() * 512 * (2 * d) == c.Sig() * 1024 * d;
      MulOrder(P62, c.Sig() * 1024, d);
      MulOrder(c.Sig() * 1024, W63, d);
      TopExponentIs(n, SCALE, c.exp - 1);
      RoundsExactly(mode, c.sign, c.Sig(), d);
    }
  }

  lemma SubnormalAddend(mode: Mode, c: Double)
    requires c.IsFinite() && c.Sig() > 0 && c.exp == 0
    ensures RoundedWord(mode, c.sign, AddendOf(c), 1) == PackedBits(c)
  {
    SubnormalBits(mode, c.sign, c.frac, SCALE);
  }

  /** Below the smallest exponent the rounding position is fixed. */
  lemma SubnormalBits(mode: Mode, sign: bool, frac: nat, l: int)
    requires 0 < frac < P52 && l <= -100
    ensures var n := frac * 512 * Pow2(1 - l); var exp := TopExponent(n, l);
      exp >= l && Word(mode, sign, exp, n, Pow2(exp - l)) == (if sign then W63 else 0) + frac
  {
    var n, unit := frac * 512 * Pow2(1 - l), Pow2(0 - l);
    assert Pow2(1 - l) == 2 * unit;
    Doubling(frac, unit);
    var exp := TopExponent(n, l);
    SmallExponent(n, l);
    Pow2Add(exp - l, -exp);
    hide Pow2, TopExponent, Round;
    RoundsExactly(mode, sign, frac, unit);
  }

  lemma Doubling(frac: nat, unit: nat)
    requires 0 < frac < P52 && unit >= 1
    ensures unit <= frac * 512 * (2 * unit) == frac * 1024 * unit < P62 * unit
  {
    MulOrder(frac * 1024, P62, unit);
    MulOrder(1, frac * 1024, unit);
  }

  lemma SmallExponent(n: nat, l: int)
    requires l <= -100 && Pow2(0 - l) <= n < P62 * Pow2(0 - l)
    ensures l <= TopExponent(n, l) < 0
  {
    var exp := TopExponent(n, l);
    TopExponentBounds(n, l);
    LargeEnough(n, l);
    if exp >= 0 {
      GrowingPower(0 - l, exp);
    }
  }

  lemma GrowingPower(i: nat, j: nat)
    ensures Pow2(i + j) >= Pow2(i)
  {
    Pow2Add(j, i);
    hide Pow2;
    MulOrder(1, Pow2(j), Pow2(i));
  }

  lemma LargeEnough(n: nat, l: int)
    requires l <= -100 && n >= Pow2(0 - l)
    ensures n >= P62
  {
    var k: nat := 0 - l - 62;
    Pow2Add(62, k);
    WordPower(62);
    assert Pow2(2) == 4;
    hide Pow2;
    MulOrder(1, Pow2(k), Pow2(62));
    assert Pow2(62) * Pow2(k) == Pow2(k) * Pow2(62);
  }

  // ---- normalizing, rounding and packing ----

  /** How far the leading bit is from bit 62. */
  function NormShift(sig: nat): (k: nat)
    requires sig < W63
    ensures k <= 63 && (sig > 0 ==> P62 <= sig * Pow2(k) < W63)
    ensures k >= 10 ==> sig * Pow2(k) == sig * Pow2(k - 10) * 1024
  {
    var zeros := if sig == 0 then 64 else CountLeadingZeros64(sig);
    NormShiftFacts(sig, zeros);
    zeros - 1
  }

  lemma NormShiftFacts(sig: nat, zeros: nat)
    requires sig < W63 && zeros == if sig == 0 then 64 else CountLeadingZeros64(sig)
    ensures 1 <= zeros <= 64 && (sig > 0 ==> P62 <= sig * Pow2(zeros - 1) < W63)
    ensures zeros >= 11 ==> sig * Pow2(zeros - 1) == sig * Pow2(zeros - 11) * 1024
  {
    if zeros >= 11 {
      Pow2Add(zeros - 11, 10);
      Pow2Small();
      Factors(sig, Pow2(zeros - 11), 1024);
    }
    if sig > 0 {
      LeadingBit(sig, zeros);
    }
  }

  /**
   softfloat_normRoundPackToF64: if the shifted significand settles the rounding of n / d, the word is that
   of n / d.
  */
  method NormRoundPackF64(mode: Mode, sign: bool, exp0: int, sig: nat, ghost n: nat, ghost d: nat) returns (uiZ: int)
    requires sig < W63 && -1000 <= exp0 < 0x7FF && d > 0
    requires sig > 0 ==>
      SameSide(sig * Pow2(NormShift(sig)), n, d * Pow2(exp0 - NormShift(sig) - SCALE), 512)
    ensures uiZ == if sig == 0 then Zero(sign) else RoundedWord(mode, sign, n, d)
  {
    hide SameSide, Word, RoundedWord, Pow2, Representable, PackedBits;
    var shiftCount := NormShift(sig);
    var exp := exp0 - shiftCount;
    if sig > 0 {
      SettledWord(mode, sign, exp, sig * Pow2(shiftCount), n, d);
    }
    if 10 <= shiftCount && exp % 0x1_0000 < 0x7FD {
      var frac := U64(sig * Pow2(shiftCount - 10));
      uiZ := (if sign then W63 else 0) + (if sig != 0 then exp else 0) * P52 + frac;
      if sig > 0 {
        PackedDirectly(mode, sign, exp, frac, n, d * Pow2(exp - SCALE));
      } else {
        ZeroPacked(sign);
      }
    } else {
      var flags;
      if sig == 0 {
        SameValue(0, 0, 1, 512);
        NothingToRound(mode, sign, exp);
        uiZ, flags := RoundPackF64(mode, sign, exp, 0, 0, 1);
      } else {
        uiZ, flags :=
          RoundPackF64(mode, sign, exp, U64(sig * Pow2(shiftCount)), n, d * Pow2(exp - SCALE));
      }
    }
  }

  lemma ZeroPacked(sign: bool)
    ensures Zero(sign) == if sign then W63 else 0
  {
  }

  lemma NothingToRound(mode: Mode, sign: bool, exp: int)
    requires exp < 0x7FD
    ensures Word(mode, sign, exp, 0, 1) == Zero(sign)
  {
    if exp < 0 {
      MulSign(1, Pow2(-exp));
      RoundsExactly(mode, sign, 0, 1 * Pow2(-exp));
    } else {
      RoundsExactly(mode, sign, 0, 1);
    }
    hide Round, Pow2;
  }

  /** With ten zero bits below the significand nothing has to be rounded. */
  lemma PackedDirectly(mode: Mode, sign: bool, exp: int, r: nat, n: nat, d: nat)
    requires 0 <= exp < 0x7FD && d > 0 && 0 < r < P53 && SameSide(r * 1024, n, d, 512)
    ensures Word(mode, sign, exp, n, d) == (if sign then W63 else 0) + exp * P52 + r
  {
    assert AgreeAt(r * 1024, n, d, 512, 2 * r);
    RoundsExactly(mode, sign, r, d);
    hide Round;
  }
}
