/**
 The remainder of double-precision words as a whole (section 5.3.1 of IEEE 754-2008).  The result is
 exact: the word holds the remainder itself, whatever the rounding mode.
*/
module SoftWholeRem {
  import opened Arith
  import opened Words
  import opened SoftRounding
  import opened Soft128
  import opened SoftWord
  import opened SoftRoundPack
  import opened SoftMulAdd64
  import opened SoftValue
  import opened SoftRemainder
  import SoftRemainder64

  /** The magnitude of a finite number, in units of two to the -1075. */
  function Magnitude(x: Double): nat { x.Sig() * Pow2(x.Exp()) }

  function SignedBy(negative: bool, n: nat): int { if negative then 0 - n else n }

  // ---- a short multiple of a power of two is a number of the format ----

  /** The number m times two to the g. */
  function Normalized(m: nat, g: int): Double
    requires 0 < m < 2 * P52 && 1 <= g
    decreases g
  {
    if m >= P52 then Double(false, g, m - P52)
    else if g == 1 then Double(false, 0, m)
    else Normalized(2 * m, g - 1)
  }

  lemma {:induction false} NormalizedIs(m: nat, g: int)
    requires 0 < m < 2 * P52 && 1 <= g < 0x7FF
    ensures var z := Normalized(m, g); z.IsFinite() && !z.sign && !IsZero(z) && Magnitude(z) == m * Pow2(g)
    decreases g
  {
    if m < P52 && g > 1 {
      NormalizedIs(2 * m, g - 1);
      assert Pow2(g) == 2 * Pow2(g - 1);
      assert 2 * m * Pow2(g - 1) == m * (2 * Pow2(g - 1));
    }
  }

  // ---- scales ----

  lemma {:induction false} ScaledRemainder(x: int, b: int, r: int, k: nat)
    requires k > 0 && IsRemainder(x, b, r)
    ensures IsRemainder(x * k, b * k, r * k)
  {
    var n: int :| RemainderBy(x, b, r, n);
    ScaledBy(x, b, r, n, k);
    assert RemainderBy(x * k, b * k, r * k, n);
  }

  lemma ScaledBy(x: int, b: int, r: int, n: int, k: nat)
    requires k > 0 && RemainderBy(x, b, r, n)
    ensures RemainderBy(x * k, b * k, r * k, n)
  {
    assert n * (b * k) == n * b * k && (r + n * b) * k == r * k + n * b * k;
    AbsProduct(r, k);
    MulOrder(2 * Abs(r), b, k);
    assert 2 * Abs(r) * k == 2 * (Abs(r) * k);
  }

  /** In a finer scale the remainder of multiples is the multiple of the remainder. */
  lemma CommonScale(x: int, b: int, r: int, k: nat) returns (s: int)
    requires k > 0 && IsRemainder(x * k, b * k, r)
    ensures r == s * k && IsRemainder(x, b, s) && exists n: int :: s == x - n * b
  {
    var n: int :| RemainderBy(x * k, b * k, r, n);
    s := x - n * b;
    assert s * k == x * k - n * (b * k) by {
      assert (x - n * b) * k == x * k - n * b * k && n * (b * k) == n * b * k;
    }
    AbsProduct(s, k);
    Common(2, Abs(s), k);
    MulOrder(b, 2 * Abs(s), k);
    MulOrder(2 * Abs(s), b, k);
    assert RemainderBy(x, b, s, n);
  }

  lemma AbsProduct(s: int, k: nat)
    requires k > 0
    ensures Abs(s * k) == Abs(s) * k
  {
    MulSign(s, k);
    assert (0 - s) * k == 0 - s * k;
  }

  /** A remainder of numbers whose exponents are close has a number's precision. */
  lemma ShortRemainder(a: Double, b: Double, s: int, n: int) returns (m: nat, g: nat)
    requires a.IsFinite() && b.IsFinite() && a.exp >= b.exp - 1
    requires s == Magnitude(a) - n * Magnitude(b) && 2 * Abs(s) <= Magnitude(b) && s != 0
    ensures 0 < m < 2 * P52 && 1 <= g < 0x7FF && Abs(s) == m * Pow2(g)
  {
    g := if a.Exp() < b.Exp() then a.Exp() else b.Exp();
    var p := Pow2(g);
    Pow2Add(a.Exp() - g, g);
    Pow2Add(b.Exp() - g, g);
    var u, v := a.Sig() * Pow2(a.Exp() - g), b.Sig() * Pow2(b.Exp() - g);
    assert Pow2(0) == 1 && Pow2(1) == 2;
    assert v < 4 * P52;
    hide Pow2;
    Common(a.Sig(), Pow2(a.Exp() - g), p);
    Common(b.Sig(), Pow2(b.Exp() - g), p);
    hide Magnitude;
    m := MultipleOf(s, u, v, n, p);
  }

  lemma MultipleOf(s: int, u: int, v: int, n: int, p: nat) returns (m: nat)
    requires p > 0 && s == u * p - n * (v * p) && 2 * Abs(s) <= v * p && s != 0
    ensures Abs(s) == m * p && 0 < m && 2 * m <= v
  {
    var t := u - n * v;
    Common(n, v, p);
    assert s == t * p by {
      assert (u - n * v) * p == u * p - n * v * p;
    }
    m := Abs(t);
    if t != 0 {
      MulSign(t, p);
    }
    assert (0 - t) * p == 0 - t * p;
    Common(2, m, p);
    MulOrder(v, 2 * m, p);
  }

  lemma Common(s: int, p: int, q: int)
    ensures s * (p * q) == s * p * q && s * (p * q) == (s * p) * q
  {
  }

  // ---- the whole operation ----

  /** The word z is the remainder of a and b: exact, and with the dividend's sign if it is zero. */
  ghost predicate IsRemainderWord(a: Double, b: Double, ui: int) {
    0 <= ui < W64 && var z := Unpack(ui);
      && z.IsFinite() && IsRemainder(Magnitude(a), Magnitude(b), SignedBy(z.sign != a.sign, Magnitude(z)))
      && (IsZero(z) ==> z.sign == a.sign)
  }

  /** A dividend below half the divisor stays as it is. */
  lemma OwnWord(ui: nat, b: Double)
    requires ui < W64 && Unpack(ui).IsFinite() && 2 * Magnitude(Unpack(ui)) < Magnitude(b)
    ensures IsRemainderWord(Unpack(ui), b, ui)
  {
    var x := Magnitude(Unpack(ui));
    OwnRemainder(x, Magnitude(b));
    assert RemainderBy(x, Magnitude(b), x, 0);
    hide Magnitude, Unpack;
  }

  /** The first test looks at the exponent fields only. */
  lemma SmallField(a: Double, b: Double)
    requires a.IsFinite() && b.IsFinite() && a.exp < b.exp - 1
    ensures 2 * Magnitude(a) < Magnitude(b)
  {
    var k: nat := b.Exp() - a.Exp() - 1;
    Pow2Add(k, a.Exp() + 1);
    assert Pow2(a.Exp() + 1) == 2 * Pow2(a.Exp());
    assert a.exp > 0 ==> k >= 1 && Pow2(k) == 2 * Pow2(k - 1);
    hide Pow2;
    SmallProducts(a.Sig(), b.Sig(), Pow2(a.Exp()), Pow2(k), if a.exp > 0 then 2 else 1);
  }

  lemma SmallProducts(s: nat, t: nat, p: nat, q: nat, f: nat)
    requires p >= 1 && q >= f && 1 <= f <= 2 && s < f * P52 && t >= P52
    ensures 2 * (s * p) < t * (q * (2 * p))
  {
    MulOrder(f, q, P52);
    MulOrder(P52, t, q);
    assert P52 * q == q * P52;
    assert s < t * q;
    MulOrder(s, t * q, 2 * p);
    assert s * (2 * p) == 2 * (s * p) && t * q * (2 * p) == t * (q * (2 * p));
  }

  /** From the normalized significands to the numbers. */
  lemma CommonUnits(a: Double, b: Double, expA: int, sigA: nat, expB: int, sigB: nat)
    requires Denotes(sigA, expA, a) && Denotes(sigB, expB, b) && expA - expB >= -1
    ensures SoftRemainder64.Dividend(sigA, expA - expB) * Pow2(expB + 60) == Magnitude(a) * Pow2(69)
    ensures 512 * sigB * Pow2(expB + 60) == Magnitude(b) * Pow2(69)
  {
    UnitOf(a, expA, sigA);
    UnitOf(b, expB, sigB);
    Pow2Add(9 + expA - expB, expB + 60);
    Pow2Add(9, expA + 60);
    Pow2Small();
    hide Pow2;
    Common(sigA, Pow2(9 + expA - expB), Pow2(expB + 60));
    Common(sigA, 512, Pow2(expA + 60));
  }

  /** What normRoundPack is given is the exact value. */
  lemma ExactlyShifted(sig: nat, exp0: int, l: int)
    requires 0 < sig < W63 && exp0 - NormShift(sig) >= l
    ensures var k := NormShift(sig);
      SameSide(sig * Pow2(k), sig * Pow2(exp0 - l), 1 * Pow2(exp0 - k - l), 512)
  {
    var k := NormShift(sig);
    Pow2Add(k, exp0 - k - l);
    hide Pow2;
    Common(sig, Pow2(k), Pow2(exp0 - k - l));
    SameValue(sig * Pow2(k), sig * Pow2(exp0 - l), Pow2(exp0 - k - l), 512);
  }

  /** The remainder that the digit loop leaves is a number of the format. */
  lemma ExactWord(mode: Mode, a: Double, b: Double, expA: int, sigA: nat, expB: int, sigB: nat, rem: nat, flipped: bool)
    requires a.IsFinite() && b.IsFinite() && Denotes(sigA, expA, a) && Denotes(sigB, expB, b)
    requires expA - expB >= -1 && a.exp >= b.exp - 1 && rem > 0 && -60 <= expB < 0x7FF
    requires IsRemainder(SoftRemainder64.Dividend(sigA, expA - expB), 512 * sigB, if flipped then 0 - rem else rem)
    ensures expB >= SCALE &&
      IsRemainderWord(a, b, RoundedWord(mode, a.sign != flipped, rem * Pow2(expB - SCALE), 1))
  {
    var r: int := if flipped then 0 - rem else rem;
    var k, x, y := Pow2(69), Magnitude(a), Magnitude(b);
    CommonUnits(a, b, expA, sigA, expB, sigB);
    ScaledRemainder(SoftRemainder64.Dividend(sigA, expA - expB), 512 * sigB, r, Pow2(expB + 60));
    var s := CommonScale(x, y, r * Pow2(expB + 60), k);
    var n: int :| s == x - n * y;
    hide *;
    SignsAgree(r, s, Pow2(expB + 60), k);
    RemainderBounds(x, y, s);
    ExactNumber(mode, a, b, s, n, rem, expB);
  }

  lemma ExactNumber(mode: Mode, a: Double, b: Double, s: int, n: int, rem: nat, expB: int)
    requires a.IsFinite() && b.IsFinite() && a.exp >= b.exp - 1 && -60 <= expB && s != 0
    requires s == Magnitude(a) - n * Magnitude(b) && IsRemainder(Magnitude(a), Magnitude(b), s)
    requires 2 * Abs(s) <= Magnitude(b) && rem * Pow2(expB + 60) == Abs(s) * Pow2(69)
    ensures expB >= SCALE &&
      IsRemainderWord(a, b, RoundedWord(mode, a.sign != (s < 0), rem * Pow2(expB - SCALE), 1))
  {
    hide IsRemainder, Normalized, RoundedWord, PackedBits, Unpack, Pow2, Magnitude;
    var m, g := ShortRemainder(a, b, s, n);
    NormalizedIs(m, g);
    var z := Normalized(m, g).(sign := a.sign != (s < 0));
    SameMagnitude(Normalized(m, g), z);
    SameUnits(rem, Abs(s), expB, z, SCALE);
    AddendRoundsToItself(mode, z);
    PackUnpacks(z);
  }

  lemma SameMagnitude(x: Double, z: Double)
    requires z.exp == x.exp && z.frac == x.frac
    ensures Magnitude(z) == Magnitude(x)
  {
  }

  lemma RemainderBounds(x: int, y: int, s: int)
    requires IsRemainder(x, y, s)
    ensures 2 * Abs(s) <= y
  {
    var n: int :| RemainderBy(x, y, s, n);
  }

  lemma SignsAgree(r: int, s: int, p: nat, k: nat)
    requires r * p == s * k && p > 0 && k > 0 && r != 0
    ensures s != 0 && (s < 0 <==> r < 0) && Abs(r) * p == Abs(s) * k
  {
    MulSign(r, p);
    if s != 0 {
      MulSign(s, k);
    }
    assert (0 - r) * p == 0 - r * p && (0 - s) * k == 0 - s * k;
  }

  lemma SameUnits(rem: nat, s: nat, expB: int, z: Double, l: int)
    requires z.exp < 0x7FF && expB >= -60 && l <= -60 && rem * Pow2(expB + 60) == s * Pow2(69) && Magnitude(z) == s
    ensures rem * Pow2(expB - l) == z.Sig() * 512 * Pow2(z.Exp() - l)
  {
    var q, t := Pow2(-60 - l), Pow2(-l);
    SharedPowers(expB, z.Exp(), l);
    hide Pow2;
    Rescaled(rem, s, Pow2(expB + 60), Pow2(69), q, t, z.Sig(), Pow2(z.Exp()));
  }

  lemma SharedPowers(expB: int, e: int, l: int)
    requires expB >= -60 && l <= -60 && e >= 0
    ensures Pow2(expB - l) == Pow2(expB + 60) * Pow2(-60 - l) && Pow2(69) * Pow2(-60 - l) == 512 * Pow2(-l)
    ensures Pow2(e - l) == Pow2(e) * Pow2(-l)
  {
    Pow2Add(expB + 60, -60 - l);
    Pow2Add(69, -60 - l);
    Pow2Add(9, -l);
    Pow2Add(e, -l);
    Pow2Small();
  }

  lemma Rescaled(rem: int, s: int, p: int, k: int, q: int, t: int, sig: int, e: int)
    requires rem * p == s * k && k * q == 512 * t && sig * e == s
    ensures rem * (p * q) == sig * 512 * (e * t)
  {
    Common(rem, p, q);
    Common(s, k, q);
    Common(s, 512, t);
    Common(sig, e, t);
    assert sig * 512 * (e * t) == 512 * (sig * (e * t));
    assert s * 512 * t == 512 * (s * t);
  }

  lemma RemainderRange(sigA: nat, sigB: nat, expDiff: int, rem: nat, flipped: bool)
    requires expDiff >= -1 && sigB < 2 * P52
    requires IsRemainder(SoftRemainder64.Dividend(sigA, expDiff), 512 * sigB, if flipped then 0 - rem else rem)
    ensures rem < W63
  {
    RemainderBounds(SoftRemainder64.Dividend(sigA, expDiff), 512 * sigB, if flipped then 0 - rem else rem);
  }

  /** A multiple leaves zero, with the sign of the dividend. */
  lemma NoRemainder(a: Double, b: Double, expA: int, sigA: nat, expB: int, sigB: nat)
    requires a.IsFinite() && Denotes(sigA, expA, a) && Denotes(sigB, expB, b) && expA - expB >= -1
    requires IsRemainder(SoftRemainder64.Dividend(sigA, expA - expB), 512 * sigB, 0)
    ensures IsRemainderWord(a, b, Zero(a.sign))
  {
    var k := Pow2(69);
    CommonUnits(a, b, expA, sigA, expB, sigB);
    ScaledRemainder(SoftRemainder64.Dividend(sigA, expA - expB), 512 * sigB, 0, Pow2(expB + 60));
    assert 0 * Pow2(expB + 60) == 0;
    var s := CommonScale(Magnitude(a), Magnitude(b), 0, k);
    if s != 0 {
      MulSign(s, k);
    }
    PackUnpacks(Double(a.sign, 0, 0));
    hide SoftRemainder64.Dividend, PackedBits, Unpack;
    assert Magnitude(Double(a.sign, 0, 0)) == 0;
  }

  lemma ZeroDividend(a: Double, b: Double)
    requires IsZero(a) && b.IsFinite() && !IsZero(b)
    ensures a.IsFinite() && 2 * Magnitude(a) < Magnitude(b)
  {
    MulSign(b.Sig(), Pow2(b.Exp()));
  }

  lemma SmallNormalized(a: Double, b: Double, expA: int, sigA: nat, expB: int, sigB: nat)
    requires Denotes(sigA, expA, a) && Denotes(sigB, expB, b) && expA - expB < -1
    requires 2 * (512 * sigA) < 512 * sigB * Pow2(expB - expA)
    ensures 2 * Magnitude(a) < Magnitude(b)
  {
    UnitOf(a, expA, sigA);
    UnitOf(b, expB, sigB);
    Pow2Add(expB - expA, expA + 60);
    var p, q := Pow2(expB - expA), Pow2(expA + 60);
    assert Pow2(expB + 60) == p * q;
    hide Pow2, Magnitude;
    Cancelled(512 * sigA, 512 * sigB, p, q, Magnitude(a), Magnitude(b), Pow2(69));
  }

  lemma Cancelled(u: int, v: int, p: int, q: int, x: int, y: int, k: int)
    requires q > 0 && k > 0 && 2 * u < v * p && u * q == x * k && v * (p * q) == y * k
    ensures 2 * x < y
  {
    MulOrder(2 * u, v * p, q);
    Common(v, p, q);
    Common(2, u, q);
    Common(2, x, k);
    MulOrder(y, 2 * x, k);
  }

  lemma UnitPowers(exp: int, e: int)
    requires -60 <= exp <= e && e >= 0
    ensures Pow2(e - exp) * Pow2(exp + 69) == Pow2(e) * Pow2(69) && Pow2(exp + 69) == 512 * Pow2(exp + 60)
  {
    Pow2Add(e - exp, exp + 69);
    Pow2Add(e, 69);
    Pow2Add(9, exp + 60);
    Pow2Small();
  }

  lemma UnitOf(x: Double, exp: int, sig: nat)
    requires Denotes(sig, exp, x)
    ensures 512 * sig * Pow2(exp + 60) == Magnitude(x) * Pow2(69)
  {
    UnitPowers(exp, x.Exp());
    hide Pow2;
    Common(x.Sig(), Pow2(x.Exp() - exp), Pow2(exp + 69));
    Common(x.Sig(), Pow2(x.Exp()), Pow2(69));
    Common(sig, 512, Pow2(exp + 60));
  }

  /** f64_rem: the exact remainder of finite operands. */
  method RemF64(mode: Mode, uiA: nat, uiB: nat) returns (uiZ: int)
    requires uiA < W64 && uiB < W64
    ensures var a, b := Unpack(uiA), Unpack(uiB);
      if IsNaN(a) || IsNaN(b) || IsInfinite(a) || IsZero(b) then uiZ == DEFAULT_NAN
      else if IsInfinite(b) then uiZ == uiA
      else IsRemainderWord(a, b, uiZ)
  {
    hide Pow2, PackedBits, Unpack, Denotes, IsRemainderWord, IsRemainder, RoundedWord, Magnitude, SameSide,
      SoftRemainder64.Dividend;
    var a, b := Unpack(uiA), Unpack(uiB);
    UnpackPacks(uiA);
    UnpackPacks(uiB);
    if a.exp == 0x7FF {
      return DEFAULT_NAN;
    }
    if b.exp == 0x7FF {
      return if b.frac != 0 then DEFAULT_NAN else uiA;
    }
    if a.exp < b.exp - 1 {
      SmallField(a, b);
      OwnWord(uiA, b);
      return uiA;
    }
    if b.exp == 0 && b.frac == 0 {
      return DEFAULT_NAN;
    }
    var expB, sigB := Normal(b);
    if a.exp == 0 && a.frac == 0 {
      ZeroDividend(a, b);
      OwnWord(uiA, b);
      return uiA;
    }
    var expA, sigA := Normal(a);
    DenotesRange(sigA, expA, a);
    DenotesRange(sigB, expB, b);
    var same, flipped, rem := SoftRemainder64.RemainderF64(expA, sigA - P52, expB, sigB - P52);
    if same {
      SmallNormalized(a, b, expA, sigA, expB, sigB);
      OwnWord(uiA, b);
      return uiA;
    }
    RemainderRange(sigA, sigB, expA - expB, rem, flipped);
    if rem > 0 {
      ExactlyShifted(rem, expB, SCALE);
    }
    uiZ := NormRoundPackF64(mode, a.sign != flipped, expB, rem, rem * Pow2(expB - SCALE), 1);
    if rem > 0 {
      ExactWord(mode, a, b, expA, sigA, expB, sigB, rem, flipped);
    } else {
      NoRemainder(a, b, expA, sigA, expB, sigB);
    }
  }
}
