/** f64_rem: the remainder of double-precision numbers, computed modulo 2^64 with estimated digits. */
module SoftRemainder64 {
  import opened Arith
  import opened Words
  import opened SoftReciprocal
  import opened SoftRemainder

  const P93 := P61 * W32

  /** A word read as a signed number. */
  function Signed(w: nat): int { if w >= W63 then w - W64 else w }

  lemma SignedOf(v: int)
    requires -W63 <= v < W63
    ensures Signed(U64(v)) == v && (U64(v) >= W63 <==> v < 0) && U64(v) == if v < 0 then v + W64 else v
  {
  }

  // ---- the error of the estimate ----

  /** The divisor's top bits d and its reciprocal. */
  predicate Reciprocal(b: nat, recip: nat) {
    P61 <= b < 2 * P61 && recip < W32 && (W63 - b / P30) <= recip * (b / P30) < W63
  }

  lemma ReciprocalOf(b: nat)
    requires P61 <= b < 2 * P61
    ensures P31 <= b / P30 < W32 && Reciprocal(b, ApproxRecip32(b / P30))
  {
  }

  /** The product of the upper words lies just so far from the scaled quotient of rem and b. */
  predicate EstimateOk(rem: nat, b: nat, q64: nat) {
    q64 * b - P61 * rem < P31 * b && P61 * rem - q64 * b < P93 + P31 * b
  }

  lemma EstimateAbove(rem: nat, b: nat, recip: nat)
    requires Reciprocal(b, recip) && rem < 2 * b
    ensures Hi32(rem) * recip * b - P61 * rem < P31 * b
  {
    var rh, d := Hi32(rem), b / P30;
    assert recip * b <= (W63 - 1 + recip) * P30 by {
      MulNonNegative(recip, d * P30 + P30 - b);
      assert recip * (d * P30 + P30 - b) == (recip * d) * P30 + recip * P30 - recip * b;
    }
    var gap := recip * b - P93;
    assert gap < P30 * W32;
    EstimateScaled(rem, rh, recip, b, gap);
  }

  lemma EstimateScaled(rem: nat, rh: nat, recip: nat, b: nat, gap: int)
    requires rh * W32 <= rem < 2 * b && recip * b == P93 + gap && gap < P30 * W32 && b > 0
    ensures rh * recip * b - P61 * rem < P31 * b
  {
    assert rh * recip * b == P93 * rh + gap * rh by {
      assert rh * recip * b == (recip * b) * rh;
      assert (P93 + gap) * rh == P93 * rh + gap * rh;
    }
    assert P93 * rh <= P61 * rem;
    if rh > 0 {
      MulOrder(gap, P30 * W32, rh);
      assert P30 * W32 * rh <= P30 * rem;
    }
  }

  lemma EstimateBelow(rem: nat, b: nat, recip: nat)
    requires Reciprocal(b, recip) && rem < 2 * b
    ensures P61 * rem - Hi32(rem) * recip * b < P93 + P31 * b
  {
    var rh, d := Hi32(rem), b / P30;
    assert recip * b >= (W63 - d) * P30 by {
      MulNonNegative(recip, b - d * P30);
      assert recip * (b - d * P30) == recip * b - (recip * d) * P30;
    }
    var missing := P93 - recip * b;
    assert missing <= d * P30 <= b;
    assert rh * recip * b == P93 * rh - missing * rh by {
      assert rh * recip * b == (recip * b) * rh;
      assert (P93 - missing) * rh == P93 * rh - missing * rh;
    }
    MissingSmall(missing, rh, b);
  }

  lemma MissingSmall(missing: int, rh: nat, b: nat)
    requires missing <= b && 0 < b < 2 * P61 && rh < P31
    ensures missing * rh < P31 * b
  {
    if rh > 0 {
      MulOrder(missing, b, rh);
    }
    MulOrder(rh, P31, b);
    assert rh * b == b * rh;
  }

  lemma EstimateIsOk(rem: nat, b: nat, recip: nat)
    requires Reciprocal(b, recip) && rem < 2 * b
    ensures EstimateOk(rem, b, Hi32(rem) * recip) && Hi32(rem) * recip < W63
  {
    EstimateAbove(rem, b, recip);
    EstimateBelow(rem, b, recip);
    SmallProduct(Hi32(rem), recip);
  }

  lemma SmallProduct(rh: nat, recip: nat)
    requires rh < P31 && recip < W32
    ensures 0 <= rh * recip < W63
  {
    if recip > 0 {
      MulOrder(rh, P31, recip);
    }
  }

  // ---- the digits ----

  /** The rounded digit leaves between minus b and twice b. */
  lemma RoundedDigit(rem: nat, b: nat, q64: nat)
    requires P61 <= b && EstimateOk(rem, b, q64)
    ensures var q := (q64 + P31) / W32; 0 - b < P29 * rem - q * b < 2 * b
  {
    var q := (q64 + P31) / W32;
    RoundedProducts(q64, q, b);
  }

  lemma RoundedProducts(q64: nat, q: nat, b: nat)
    requires q * W32 <= q64 + P31 < q * W32 + W32 && b > 0
    ensures (q * b) * W32 <= q64 * b + P31 * b < (q * b) * W32 + W32 * b
  {
    MulOrder(q * W32, q64 + P31, b);
    MulOrder(q64 + P31, q * W32 + W32, b);
    assert q * W32 * b == (q * b) * W32;
    assert (q64 + P31) * b == q64 * b + P31 * b;
    assert (q * W32 + W32) * b == q * W32 * b + W32 * b;
  }

  /** The last digit has k bits, cut off and not rounded. */
  lemma CutDigit(rem: nat, b: nat, q64: nat, k: nat)
    requires P61 <= b < 2 * P61 && EstimateOk(rem, b, q64) && k <= 29
    ensures var q1 := Hi32(q64) / Pow2(29 - k);
      0 - b < 2 * (Pow2(k) * rem - q1 * b) && Pow2(k) * rem - q1 * b < W63
  {
    hide Pow2;
    var p, q0 := Pow2(29 - k), Hi32(q64);
    var q1 := q0 / p;
    Pow2Small();
    Pow2Add(29 - k, k);
    Division(q0, p);
    CutProducts(q64, q0, q1, p, b);
    CutError(rem, b, q64, q1, p, Pow2(k));
  }

  lemma CutProducts(q64: nat, q0: nat, q1: nat, p: nat, b: nat)
    requires q0 * W32 <= q64 < q0 * W32 + W32 && q1 * p <= q0 < q1 * p + p && b > 0
    ensures ((q1 * p) * b) * W32 <= q64 * b < ((q1 * p) * b) * W32 + (p * b) * W32
  {
    var u := q1 * p;
    MulOrder(u * W32, q64, b);
    MulOrder(q64, (u + p) * W32, b);
    assert u * W32 * b == (u * b) * W32;
    assert (u + p) * W32 * b == (u * b) * W32 + (p * b) * W32;
  }

  lemma CutError(rem: nat, b: nat, q64: nat, q1: nat, p: nat, scale: nat)
    requires P61 <= b < 2 * P61 && EstimateOk(rem, b, q64) && p >= 1 && p * scale == P29
    requires ((q1 * p) * b) * W32 <= q64 * b < ((q1 * p) * b) * W32 + (p * b) * W32
    ensures 0 - b < 2 * (scale * rem - q1 * b) && scale * rem - q1 * b < W63
  {
    var e := scale * rem - q1 * b;
    Unscale(p, scale, rem, q1, b);
    assert W32 * (p * e) == P61 * rem - ((q1 * p) * b) * W32;
    CutBound(p, e, b);
  }

  lemma Unscale(p: int, scale: int, rem: int, q1: int, b: int)
    requires p * scale == P29
    ensures p * (scale * rem - q1 * b) == P29 * rem - (q1 * p) * b
  {
    assert p * (scale * rem) == (p * scale) * rem;
    assert p * (q1 * b) == (q1 * p) * b;
  }

  lemma CutBound(p: int, e: int, b: int)
    requires P61 <= b < 2 * P61 && p >= 1
    requires -P31 * b < W32 * (p * e) && W32 * (p * e) < (p * b) * W32 + P93 + P31 * b
    ensures -b < 2 * e && e < W63
  {
    assert 2 * (p * e) > -b && 2 * (p * e) < 2 * (p * b) + 2 * P61 + b;
    MulSign(e, p);
    MulOrder(1, p, b);
    assert e * p == p * e && b * p == p * b;
    MulOrder(W63, e, p);
    MulOrder(4 * P61, W63, p);
    if e < 0 {
      MulOrder(1, p, -e);
      assert p * -e == -(p * e);
    }
    CutUpper(p, e, b);
  }

  lemma CutUpper(p: int, e: int, b: int)
    requires P61 <= b < 2 * P61 && p >= 1 && 2 * (p * e) < 2 * (p * b) + 2 * P61 + b
    ensures e < W63
  {
    MulOrder(1, p, 2 * P61 + b);
    assert p * (2 * e - 2 * b - 2 * P61 - b) == 2 * (p * e) - 2 * (p * b) - p * (2 * P61 + b);
    MulSign(2 * e - 2 * b - 2 * P61 - b, p);
    assert (2 * e - 2 * b - 2 * P61 - b) * p == p * (2 * e - 2 * b - 2 * P61 - b);
  }

  // ---- keeping account of the quotient ----

  /** x is what the remainder word holds plus n times b; the quotient word knows whether n is even. */
  predicate Account(x: int, rem: int, b: nat, n: int, q: nat) {
    x == rem + n * b && n % 2 == q % 2
  }

  lemma Shifted(x: int, rem: int, n: int, b: int, q: int, scale: int)
    requires x == rem + n * b
    ensures x * scale == (scale * rem - q * b) + (q + scale * n) * b
  {
    assert (rem + n * b) * scale == scale * rem + (scale * n) * b;
    assert (q + scale * n) * b == q * b + (scale * n) * b;
  }

  lemma EvenTimes(k: nat, n: int, q: int)
    requires k >= 1
    ensures (q + Pow2(k) * n) % 2 == q % 2
  {
    var p := Pow2(k - 1);
    assert Pow2(k) == 2 * p;
    hide Pow2;
    assert 2 * p * n == 2 * (p * n);
  }

  lemma NextPower(sigA: nat, c: nat, d: nat)
    ensures sigA * Pow2(c) * Pow2(d) == sigA * Pow2(c + d)
  {
    Pow2Add(c, d);
    assert sigA * Pow2(c) * Pow2(d) == sigA * (Pow2(c) * Pow2(d));
  }

  /** The state of the digit loop after c bits of the dividend's exponent. */
  ghost predicate Reducing(sigA: nat, b: nat, rem: nat, n: int, c: nat) {
    rem < 2 * b && sigA * Pow2(9 + c) == rem + n * b
  }

  ghost predicate InReduction(sigA: nat, b: nat, rem: nat, c: nat) { exists n: int :: Reducing(sigA, b, rem, n, c) }

  /** The remainder word after one digit: wrapped, and put right if it looks negative. */
  function NextRem(rem: nat, b: nat, q: nat): nat {
    var rem1 := U64(U64(rem * P29) - q * b);
    if rem1 >= W63 then U64(rem1 + b) else rem1
  }

  lemma NextRemExact(rem: nat, b: nat, q: nat)
    requires P61 <= b < 2 * P61 && 0 - b < P29 * rem - q * b < 2 * b
    ensures var e := P29 * rem - q * b; NextRem(rem, b, q) == (if e < 0 then e + b else e)
  {
    var e := P29 * rem - q * b;
    WrapFirst64(rem * P29, q * b);
    SignedOf(e);
  }

  lemma ReducingStep(sigA: nat, b: nat, recip: nat, rem: nat, n: int, c: nat)
    requires Reciprocal(b, recip) && Reducing(sigA, b, rem, n, c)
    ensures var q := (Hi32(rem) * recip + P31) / W32; q < W32 && InReduction(sigA, b, NextRem(rem, b, q), c + 29)
  {
    hide Hi32, Pow2, NextRem;
    EstimateIsOk(rem, b, recip);
    var q: nat := (Hi32(rem) * recip + P31) / W32;
    RoundedDigit(rem, b, Hi32(rem) * recip);
    NextRemExact(rem, b, q);
    Shifted(sigA * Pow2(9 + c), rem, n, b, q, P29);
    NextPower(sigA, 9 + c, 29);
    Pow2Small();
    var e := P29 * rem - q * b;
    var m := q + P29 * n;
    OneLess(e, m, b);
    assert Reducing(sigA, b, NextRem(rem, b, q), if e < 0 then m - 1 else m, c + 29);
  }

  lemma OneLess(e: int, m: int, b: int)
    ensures e + m * b == (e + b) + (m - 1) * b
  {
  }

  lemma ReducingEnd(sigA: nat, b: nat, recip: nat, rem: nat, n: int, c: nat, k: nat)
    requires Reciprocal(b, recip) && Reducing(sigA, b, rem, n, c) && 1 <= k <= 29
    ensures var q1 := Hi32(Hi32(rem) * recip) / Pow2(29 - k); var e := Pow2(k) * rem - q1 * b;
      && 0 - b < 2 * e && e < W63 && U64(U64(rem * Pow2(k)) - q1 * b) == U64(e)
      && q1 >= 0 && Account(sigA * Pow2(9 + c + k), e, b, q1 + Pow2(k) * n, q1)
  {
    hide Hi32, Pow2;
    EstimateIsOk(rem, b, recip);
    var q1: nat := CutQuotient(Hi32(Hi32(rem) * recip), Pow2(29 - k));
    CutDigit(rem, b, Hi32(rem) * recip, k);
    Shifted(sigA * Pow2(9 + c), rem, n, b, q1, Pow2(k));
    NextPower(sigA, 9 + c, k);
    EvenTimes(k, n, q1);
    WrapFirst64(rem * Pow2(k), q1 * b);
  }

  function CutQuotient(q: nat, p: nat): (r: nat)
    requires p >= 1
    ensures r == q / p
  {
    Division(q, p);
    MulOrder(q / p, -1, p);
    q / p
  }

  /** The digit loop and the last, shorter digit; the exact remainder may still be negative. */
  method ReduceF64(sigA: nat, b: nat, recip32: nat, expDiff0: int) returns (rem: nat, q: nat, ghost n: int)
    requires P52 <= sigA < 2 * P52 && Reciprocal(b, recip32) && expDiff0 >= 1
    ensures rem < W64 && 0 - b < 2 * Signed(rem) && Account(sigA * Pow2(9 + expDiff0), Signed(rem), b, n, q)
  {
    hide Hi32, U64, Pow2, Reducing, Account, NextRem, Signed;
    rem := U64(sigA * 512);
    var expDiff := expDiff0 - 30;
    n := 0;
    ghost var c: nat := 0;
    ReducingStart(sigA, b);
    SmallEstimate(sigA, b, recip32, rem, n, c);
    var q64 := Hi32(rem) * recip32;
    while expDiff >= 0
      invariant c == expDiff0 - 30 - expDiff && -29 <= expDiff
      invariant q64 == Hi32(rem) * recip32 && Reducing(sigA, b, rem, n, c)
      decreases expDiff + 29
    {
      ReducingStep(sigA, b, recip32, rem, n, c);
      SmallEstimate(sigA, b, recip32, rem, n, c);
      q := (q64 + 0x8000_0000) / W32;
      ghost var next := NextRem(rem, b, q);
      ShowNextRem(rem, b, q);
      rem := U64(rem * P29);
      rem := U64(rem - q * b);
      if rem >= W63 {
        rem := U64(rem + b);
      }
      assert rem == next;
      n :| Reducing(sigA, b, rem, n, c + 29);
      c := c + 29;
      expDiff := expDiff - 29;
      SmallEstimate(sigA, b, recip32, rem, n, c);
      q64 := Hi32(rem) * recip32;
    }
    ghost var k: nat := expDiff + 30;
    SmallEstimate(sigA, b, recip32, rem, n, c);
    ReducingEnd(sigA, b, recip32, rem, n, c, k);
    q := CutQuotient(Hi32(q64), Pow2(-expDiff - 1));
    ghost var e := Pow2(k) * rem - q * b;
    rem := U64(U64(rem * Pow2(expDiff + 30)) - q * b);
    n := q + Pow2(k) * n;
    SignedOf(e);
  }

  lemma ReducingStart(sigA: nat, b: nat)
    requires P52 <= sigA < 2 * P52 && P61 <= b
    ensures Reducing(sigA, b, U64(sigA * 512), 0, 0)
  {
    Pow2Small();
  }

  lemma SmallEstimate(sigA: nat, b: nat, recip: nat, rem: nat, n: int, c: nat)
    requires Reciprocal(b, recip) && Reducing(sigA, b, rem, n, c)
    ensures 0 <= Hi32(rem) * recip < W63
  {
    EstimateIsOk(rem, b, recip);
  }

  lemma ShowNextRem(rem: nat, b: nat, q: nat)
    ensures var rem1 := U64(U64(rem * P29) - q * b); NextRem(rem, b, q) == if rem1 >= W63 then U64(rem1 + b) else rem1
  {
  }

  // ---- choosing the nearer candidate ----

  lemma NextCandidate(x: int, rem: nat, b: nat, n: int, q: nat)
    requires Account(x, rem, b, n, q) && rem < W63 && 0 < b < W63
    ensures rem >= b ==> Account(x, U64(rem - b), b, n + 1, U64(q + 1)) && U64(rem - b) == rem - b
    ensures U64(rem - b) >= W63 <==> rem < b
  {
    assert (n + 1) * b == n * b + b;
  }

  /** The choice between the last two candidates. */
  lemma LastCandidate(x: int, alt: nat, b: nat, n: int, q: nat)
    requires Account(x, alt, b, n, q) && 0 < b < 2 * P61
    ensures alt < b ==>
      var rem, q1 := U64(alt - b), U64(q + 1); var mean := U64(rem + alt);
      IsRemainder(x, b, Signed(if mean >= W63 || (mean == 0 && q1 % 2 == 1) then alt else rem))
  {
    if alt < b {
      Selected(x, b, alt, n);
      MeanWord(alt, b);
      NextParity(n, q);
      SignedOf(alt);
      SignedOf(alt - b);
      hide U64, Signed, RemainderBy;
      if 2 * alt < b || (2 * alt == b && (n + 1) % 2 == 1) {
        assert RemainderBy(x, b, alt, n);
      } else {
        assert RemainderBy(x, b, alt - b, n + 1);
      }
    }
  }

  lemma NextParity(n: int, q: nat)
    requires n % 2 == q % 2
    ensures U64(q + 1) % 2 == (n + 1) % 2 && U64(U64(q + 1)) == U64(q + 1)
  {
  }

  lemma MeanWord(alt: nat, b: nat)
    requires alt < b < 2 * P61
    ensures var mean := U64(U64(alt - b) + alt);
      (mean >= W63 <==> 2 * alt < b) && (mean == 0 <==> 2 * alt == b)
  {
    Wraps64(U64(alt - b) + alt, 2 * alt - b, 1);
  }

  /** A remainder that is negative already, and above minus half of b, is the nearest. */
  lemma NegativeCandidate(x: int, rem: nat, b: nat, n: int, q: nat)
    requires rem < W64 && Account(x, Signed(rem), b, n, q) && 0 - b < 2 * Signed(rem) && Signed(rem) < 0 && b < 2 * P61
    ensures var mean := U64(rem + U64(rem + b)); mean < W63 && mean != 0
    ensures IsRemainder(x, b, Signed(rem))
  {
    assert RemainderBy(x, b, Signed(rem), n);
    Wraps64(rem + b, Signed(rem) + b, 1);
    Wraps64(rem + U64(rem + b), 2 * Signed(rem) + b, 1);
  }

  /** Subtracts the divisor until the remainder is negative, then takes the nearer of the last two. */
  method SelectF64(rem0: nat, b: nat, q0: nat, ghost x: int, ghost n0: int) returns (rem: nat)
    requires P61 <= b < 2 * P61 && rem0 < W64 && 0 - b < 2 * Signed(rem0) && Account(x, Signed(rem0), b, n0, q0)
    ensures rem < W64 && IsRemainder(x, b, Signed(rem))
  {
    hide Account, IsRemainder, U64;
    var q: nat, altRem: nat := q0, rem0;
    rem := rem0;
    ghost var n := n0;
    if rem >= W63 {
      NegativeCandidate(x, rem, b, n, q);
      altRem := U64(rem + b);
    } else {
      while true
        invariant rem < W63 && Account(x, rem, b, n, q)
        decreases rem
      {
        NextCandidate(x, rem, b, n, q);
        LastCandidate(x, rem, b, n, q);
        altRem := rem;
        q := U64(q + 1);
        rem := U64(rem - b);
        if rem >= W63 {
          break;
        }
        n := n + 1;
      }
    }
    var meanRem := U64(rem + altRem);
    if meanRem >= W63 || (meanRem == 0 && q % 2 == 1) {
      rem := altRem;
    }
  }

  /** The dividend a 2^(expA - expB), scaled like the divisor. */
  function Dividend(sigA: nat, expDiff: int): nat
    requires expDiff >= -1
  {
    sigA * Pow2(9 + expDiff)
  }

  /** The start for exponents that differ by less than one: no digit, or one subtraction at most. */
  lemma ShortDividend(sigA: nat, sigB: nat, expDiff: int)
    requires P52 <= sigA < 2 * P52 && P52 <= sigB < 2 * P52 && -1 <= expDiff <= 0
    ensures var b, one := 512 * sigB, 512 * sigB <= 512 * sigA;
      var rem := if expDiff < 0 then 256 * sigA else if one then 512 * sigA - 512 * sigB else 512 * sigA;
      var n := if expDiff == 0 && one then 1 else 0;
      rem < W63 && 0 - b < 2 * Signed(rem) && Account(Dividend(sigA, expDiff), Signed(rem), b, n, n)
  {
    assert Pow2(8) == 256 && Pow2(9) == 512;
  }

  lemma DividendOf(sigA: nat, expDiff: int)
    ensures expDiff >= -1 ==> Dividend(sigA, expDiff) == sigA * Pow2(9 + expDiff)
  {
  }

  /** The words that the start works with do not wrap. */
  lemma StartWords(sigA: nat, sigB: nat)
    requires P52 <= sigA < 2 * P52 && P52 <= sigB < 2 * P52
    ensures U64(sigB * 512) == 512 * sigB && U64(sigA * 256) == 256 * sigA && U64(sigA * 512) == 512 * sigA
  {
  }

  /** The magnitude of a negative word. */
  lemma NegatedWord(rem: nat)
    requires rem < W64
    ensures Signed(rem) == if W63 <= rem then 0 - U64(0 - rem) else rem
    ensures W63 <= rem ==> U64(0 - rem) > 0
  {
  }

  /**
   f64_rem for normal operands: the significand and whether the sign of the dividend flips, or no
   change.  In the scale of the divisor the signed result is the remainder.
  */
  method RemainderF64(expA: int, fracA: nat, expB: int, fracB: nat) returns (same: bool, flipped: bool, rem: nat)
    requires fracA < P52 && fracB < P52
    ensures var sigA, b := P52 + fracA, 512 * (P52 + fracB);
      if same then expA - expB < -1 && 2 * (512 * sigA) < b * Pow2(expB - expA)
      else expA - expB >= -1 && IsRemainder(Dividend(sigA, expA - expB), b, if flipped then 0 - rem else rem)
    ensures flipped ==> rem > 0
  {
    hide ApproxRecip32, Account, Dividend, IsRemainder, Signed, U64, Pow2;
    same, flipped, rem := false, false, P52 + fracA;
    var sigB: nat := P52 + fracB;
    StartWords(rem, sigB);
    if expA < expB - 1 {
      same := true;
      SmallDividend(rem, sigB, expB - expA);
      return;
    }
    var expDiff := expA - expB;
    DividendOf(rem, expDiff);
    ghost var x, n: int := Dividend(rem, expDiff), 0;
    var q: nat := 0;
    if expDiff < 1 {
      ShortDividend(rem, sigB, expDiff);
      sigB := U64(sigB * 512);
      if expDiff != 0 {
        rem := U64(rem * 256);
        q := 0;
      } else {
        rem := U64(rem * 512);
        q := if sigB <= rem then 1 else 0;
        if q == 1 {
          rem := rem - sigB;
          n := 1;
        }
      }
    } else {
      ReciprocalOf(512 * sigB);
      var recip32 := ApproxRecip32(sigB / 0x20_0000);
      sigB := U64(sigB * 512);
      rem, q, n := ReduceF64(rem, sigB, recip32, expDiff);
    }
    rem := SelectF64(rem, sigB, q, x, n);
    NegatedWord(rem);
    if rem >= W63 {
      flipped := true;
      rem := U64(0 - rem);
    }
  }

  lemma SmallDividend(sigA: nat, sigB: nat, e: nat)
    requires P52 <= sigA < 2 * P52 && P52 <= sigB && e >= 2
    ensures 2 * (512 * sigA) < 512 * sigB * Pow2(e)
  {
    assert Pow2(2) == 4;
    Pow2Add(2, e - 2);
    MulOrder(1, Pow2(e - 2), 4);
    MulOrder(4, Pow2(e), 512 * sigB);
    assert Pow2(e) * (512 * sigB) == 512 * sigB * Pow2(e);
  }
}
