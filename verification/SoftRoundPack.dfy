/** Rounding and packing of double-precision results (section 4.3 of IEEE 754-2008). */
module SoftRoundPack {
  import opened Arith
  import opened Words
  import opened SoftRounding
  import opened SoftJam
  import opened Soft128
  import opened SoftWord
  import opened SoftOrder

  /** Adding, cutting and clearing the lowest bit of a tie is rounding to a multiple of 1024. */
  lemma IncrementRounds(mode: Mode, sign: bool, sig: nat)
    requires sig < W63
    ensures var r := U64(sig + Increment(mode, sign)) / 1024;
      (if sig % 1024 == 0x200 && mode.NearEven? then r - r % 2 else r) == Round(mode, sign, sig, 1, 512)
    ensures Round(mode, sign, sig, 1, 512) <= P53
  {
  }

  /** A jammed significand rounds like the exact value. */
  lemma JammedRounds(mode: Mode, sign: bool, sig: nat, n: nat, d: nat, s: nat)
    requires d > 0 && SameSide(sig, n, d, 512) && s > 0
    ensures d * Pow2(s) > 0
    ensures Round(mode, sign, Jam(sig, Pow2(s)), 1, 512) == Round(mode, sign, n, d * Pow2(s), 512)
    ensures SameSide(Jam(sig, Pow2(s)), n, d * Pow2(s), 512)
  {
    hide Jam;
    MulSign(d, Pow2(s));
    JamSameSide(sig, Pow2(s));
    CoarserSameSide(Jam(sig, Pow2(s)), sig, Pow2(s), 2, 256);
    Compose(Jam(sig, Pow2(s)), sig, Pow2(s), 512, n, d, 512, Pow2(s));
    SameSideRoundsSame(mode, sign, Jam(sig, Pow2(s)), n, d * Pow2(s), 512);
  }

  /** The low ten bits are zero exactly when the value is one of the format's. */
  ghost predicate Representable(n: nat, d: nat) { exists k: nat :: IsMultiple(n, d, k) }

  predicate IsMultiple(n: nat, d: nat, k: nat) { n == k * 1024 * d }

  lemma LowBitsExact(sig: nat, n: nat, d: nat)
    requires d > 0 && SameSide(sig, n, d, 512)
    ensures sig % 1024 == 0 <==> Representable(n, d)
  {
    CoarserSameSide(sig, n, d, 512, 2);
    var q := sig / 1024;
    assert AgreeAt(sig, n, d, 1024, q);
    if sig % 1024 == 0 {
      assert IsMultiple(n, d, q);
    }
    if k: nat :| IsMultiple(n, d, k) {
      assert AgreeAt(sig, n, d, 1024, k);
    }
  }

  /** The flags that rounding can raise (sections 7.4 to 7.6 of IEEE 754-2008). */
  datatype Flags = Flags(overflow: bool, underflow: bool, inexact: bool)

  /** Rounded as if the exponent had no lower bound, the magnitude is below the smallest normal one. */
  predicate Tiny(mode: Mode, sign: bool, exp: int, n: nat, d: nat)
    requires d > 0
  {
    exp < -1 || (exp == -1 && Round(mode, sign, n, d, 512) < P53)
  }

  /**
   softfloat_roundPackToF64 for a normalized significand that settles the rounding of n / d: the word
   holds the correctly rounded value, or what the mode asks for on overflow, the inexact flag says whether
   anything was lost, and the underflow flag whether it was lost from a tiny value.  Correct is said twice: by
   the rounded significand, and by the order of the format's numbers around the exact value.
  */
  method RoundPackF64(mode: Mode, sign: bool, exp0: int, sig0: nat, ghost n: nat, ghost d: nat)
    returns (uiZ: nat, flags: Flags)
    requires d > 0 && sig0 < W63 && SameSide(sig0, n, d, 512) && -0x8000 <= exp0 < 0x8000
    ensures uiZ == Word(mode, sign, exp0, n, d)
    ensures (exp0 >= 0 ==> P62 <= sig0) ==> IsRounded(mode, sign, exp0, n, d, uiZ)
    ensures flags.overflow <==> Overflows(exp0, Rounded(mode, sign, exp0, n, d))
    ensures flags.overflow ==> flags.inexact
    ensures !flags.overflow && exp0 >= 0 ==> (flags.inexact <==> !Representable(n, d))
    ensures !flags.overflow && exp0 < 0 ==>
      d * Pow2(-exp0) > 0 && (flags.inexact <==> !Representable(n, d * Pow2(-exp0)))
    ensures flags.underflow <==> Tiny(mode, sign, exp0, n, d) && flags.inexact
  {
    hide Jam, SameSide, Round, Representable, Pow2, U64, Increment, Word, Rounded, Overflows, IsRounded;
    SettledRounds(mode, sign, exp0, sig0, n, d);
    ExponentTest(exp0);
    WordCases(mode, sign, exp0, n, d);
    var exp, sig := exp0, sig0;
    var roundIncrement := Increment(mode, sign);
    var roundBits := sig % 1024;
    flags, uiZ := Flags(false, false, false), 0;
    TooLarge(mode, sign, sig);
    SameSideRoundsSame(mode, sign, sig, n, d, 512);
    LowBitsExact(sig, n, d);
    IncrementRounds(mode, sign, sig);
    if 0x7FD <= exp % 0x1_0000 {
      if exp < 0 {
        var isTiny := exp < -1 || sig + roundIncrement < W63;
        SubnormalRounds(mode, sign, sig, n, d, -exp);
        sig := ShiftRightJam64(sig, -exp);
        IncrementRounds(mode, sign, sig);
        exp := 0;
        roundBits := sig % 1024;
        if isTiny && roundBits != 0 {
          flags := flags.(underflow := true);
        }
      } else if 0x7FD < exp || W63 <= sig + roundIncrement {
        flags := Flags(true, false, true);
        uiZ := (if sign then W63 else 0) + 0x7FF * P52 - if roundIncrement == 0 then 1 else 0;
        return;
      }
    }
    if roundBits != 0 {
      flags := flags.(inexact := true);
    }
    sig := U64(sig + roundIncrement) / 1024;
    if roundBits == 0x200 && mode.NearEven? {
      sig := sig - sig % 2;
    }
    uiZ := (if sign then W63 else 0) + (if sig != 0 then exp else 0) * P52 + sig;
  }

  /** The word of a value that a significand settles is the value rounded. */
  lemma SettledRounds(mode: Mode, sign: bool, exp: int, sig: nat, n: nat, d: nat)
    requires d > 0 && sig < W63 && SameSide(sig, n, d, 512)
    ensures (exp >= 0 ==> P62 <= sig) ==> IsRounded(mode, sign, exp, n, d, Word(mode, sign, exp, n, d))
  {
    assert AgreeAt(sig, n, d, 512, P62 / 512) && AgreeAt(sig, n, d, 512, W63 / 512);
    hide IsRounded, Word;
    if exp >= 0 ==> P62 <= sig {
      PackedRounds(mode, sign, exp, n, d);
    }
  }

  /** One unsigned comparison finds both the exponents that are too small and those that may be too large. */
  lemma ExponentTest(exp: int)
    requires -0x8000 <= exp < 0x8000
    ensures 0x7FD <= exp % 0x1_0000 <==> exp < 0 || exp >= 0x7FD
  {
  }

  /** What is left of a significand below the smallest exponent settles the rounding there. */
  lemma SubnormalRounds(mode: Mode, sign: bool, sig: nat, n: nat, d: nat, s: nat)
    requires d > 0 && SameSide(sig, n, d, 512) && s > 0 && sig < W63
    ensures d * Pow2(s) > 0 && Jam(sig, Pow2(s)) < W63
    ensures Round(mode, sign, Jam(sig, Pow2(s)), 1, 512) == Round(mode, sign, n, d * Pow2(s), 512)
    ensures Jam(sig, Pow2(s)) % 1024 == 0 <==> Representable(n, d * Pow2(s))
  {
    hide Jam, SameSide, Round, Representable, Pow2;
    JammedRounds(mode, sign, sig, n, d, s);
    JamStays(sig, s);
    LowBitsExact(Jam(sig, Pow2(s)), n, d * Pow2(s));
  }

  lemma JamStays(sig: nat, s: nat)
    requires sig < W63 && s > 0
    ensures Jam(sig, Pow2(s)) < W63
  {
    assert Pow2(1) == 2;
    MulOrder(1, Pow2(s), W63);
    assert 1 * W63 == W63 && Pow2(s) * W63 == W63 * Pow2(s);
    JamBetween(sig, Pow2(s), 0, W63 / 2);
  }

  /** The test for overflow is a test of the rounded significand. */
  lemma TooLarge(mode: Mode, sign: bool, sig: nat)
    requires sig < W63
    ensures W63 <= sig + Increment(mode, sign) <==> Round(mode, sign, sig, 1, 512) >= P53
  {
    IncrementRounds(mode, sign, sig);
  }

  /** Reading the packed word back: the carry into the exponent field is a step to the next power of two. */
  lemma PackedValue(exp: nat, r: nat)
    requires r <= P53 && (exp > 0 ==> r >= P52)
    ensures var word := exp * P52 + r; var field, frac := word / P52, word % P52;
      (if field == 0 then frac else P52 + frac) * Pow2(if field == 0 then 1 else field) == r * Pow2(exp + 1)
  {
    if r < P52 {
    } else if r < P53 {
      assert (exp * P52 + r) / P52 == exp + 1;
    } else {
      assert (exp * P52 + r) / P52 == exp + 2 && (exp * P52 + r) % P52 == 0;
      assert Pow2(exp + 2) == 2 * Pow2(exp + 1);
      assert P52 * (2 * Pow2(exp + 1)) == P53 * Pow2(exp + 1);
    }
  }
}
