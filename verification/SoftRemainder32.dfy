/** f32_rem: the remainder of single-precision numbers, computed modulo 2^32 with estimated digits. */
module SoftRemainder32 {
  import opened Arith
  import opened Words
  import opened SoftReciprocal
  import opened SoftRemainder

  /** A word read as a signed number. */
  function Signed(w: nat): int { if w >= P31 then w - W32 else w }

  lemma SignedOf(v: int)
    requires -P31 <= v < P31
    ensures Signed(U32(v)) == v && (U32(v) >= P31 <==> v < 0)
  {
  }

  /** Wrapped subtraction is exact where the result fits. */
  lemma Difference(rem: nat, b: nat)
    requires rem < P31 && b < P31
    ensures Signed(U32(rem - b)) == rem - b && (U32(rem - b) >= P31 <==> rem < b)
  {
  }

  /** The digit estimated for a remainder. */
  function Estimate(rem: nat, recip: nat): nat {
    MulNonNegative(rem, recip);
    Hi32(rem * recip)
  }

  /** The estimated digit never exceeds the quotient and misses less than two. */
  lemma DigitError(rem: nat, b: nat, recip: nat)
    requires P29 <= b < 2 * P29 && rem < P31 && recip == ApproxRecip32(4 * b)
    ensures var q := Estimate(rem, recip); 0 <= P29 * rem - q * b < 2 * b && q < W32
  {
    var q := Estimate(rem, recip);
    assert recip * b < 0x2000_0000_0000_0000 <= recip * b + b by {
      assert recip * (4 * b) == 4 * (recip * b);
    }
    hide ApproxRecip32;
    MulNonNegative(rem, recip);
    DigitProducts(rem, b, recip, q);
    if rem > 0 {
      MulOrder(recip * b, 0x2000_0000_0000_0000, rem);
      MulOrder(0x2000_0000_0000_0000 - b, recip * b, rem);
    }
    assert (recip * b) * rem <= 0x2000_0000_0000_0000 * rem && (0x2000_0000_0000_0000 - b) * rem <= (recip * b) * rem;
    assert (0x2000_0000_0000_0000 - b) * rem == 0x2000_0000_0000_0000 * rem - rem * b;
    MulOrder(rem, P31, b);
    SmallDigit(q, b, rem);
  }

  lemma DigitProducts(rem: nat, b: nat, recip: nat, q: nat)
    requires b > 0 && q * W32 <= rem * recip < q * W32 + W32
    ensures q * b * W32 <= (recip * b) * rem < q * b * W32 + b * W32
  {
    MulOrder(q * W32, rem * recip, b);
    MulOrder(rem * recip, q * W32 + W32, b);
    assert rem * recip * b == (recip * b) * rem;
    assert (q * W32 + W32) * b == q * b * W32 + b * W32;
    assert q * W32 * b == q * b * W32;
  }

  lemma SmallDigit(q: nat, b: nat, rem: nat)
    requires q * b <= P29 * rem && P29 <= b && rem < P31
    ensures q < W32
  {
    MulOrder(W32, q, b);
  }

  /** A full digit of 29 bits: the word holds the exact new remainder. */
  lemma FullDigit(rem: nat, b: nat, recip: nat)
    requires P29 <= b < 2 * P29 && b % 8 == 0 && rem < P31 && rem % 8 == 0 && recip == ApproxRecip32(4 * b)
    ensures var q := Estimate(rem, recip); var next := U32(0 - U32(q * b));
      && q < W32 && next == P29 * rem - q * b && next < 2 * b && next % 8 == 0
  {
    hide ApproxRecip32, Hi32, U32;
    var q := Estimate(rem, recip);
    DigitError(rem, b, recip);
    WrappedNegation(rem, q * b);
    EightfoldProduct(q, b);
    EightfoldRest(rem, q * b);
  }

  lemma EightfoldRest(rem: int, product: int)
    requires product % 8 == 0
    ensures (P29 * rem - product) % 8 == 0
  {
  }

  lemma WrappedNegation(rem: nat, product: int)
    requires rem % 8 == 0 && 0 <= P29 * rem - product < W32
    ensures U32(0 - U32(product)) == P29 * rem - product
  {
    var j := rem / 8;
    assert P29 * rem == W32 * j;
    assert U32(product) == product % W32;
  }

  lemma EightfoldProduct(q: int, b: int)
    requires b % 8 == 0
    ensures (q * b) % 8 == 0
  {
    var j := b / 8;
    assert q * b == (q * j) * 8;
    ModZero(q * j, 8);
  }

  /** The last digit has k bits; shortening the estimate keeps the error below two. */
  lemma LastDigit(rem: nat, b: nat, q: nat, k: nat)
    requires 0 < b && k <= 29 && 0 <= P29 * rem - q * b < 2 * b
    ensures var q1 := q / Pow2(29 - k); 0 <= Pow2(k) * rem - q1 * b < 2 * b
  {
    hide Pow2;
    Pow2Small();
    Pow2Add(29 - k, k);
    Division(q, Pow2(29 - k));
    ShortDigit(rem, b, q, q / Pow2(29 - k), Pow2(29 - k), Pow2(k));
  }

  lemma ShortDigit(rem: nat, b: nat, q: nat, q1: nat, p: nat, scale: nat)
    requires b > 0 && p >= 1 && p * scale == P29 && q1 * p <= q < q1 * p + p && 0 <= P29 * rem - q * b < 2 * b
    ensures 0 <= scale * rem - q1 * b < 2 * b
  {
    var u := q1 * p;
    Unscale(p, scale, rem, q1, b);
    MulOrder(u, q, b);
    MulOrder(q + 1, u + p, b);
    Sums(u, p, q, b);
    MulOrder(1, p, b);
    Bound(p, scale * rem - q1 * b, b);
  }

  lemma Unscale(p: int, scale: int, rem: int, q1: int, b: int)
    requires p * scale == P29
    ensures p * (scale * rem - q1 * b) == P29 * rem - (q1 * p) * b
  {
    assert p * (scale * rem) == (p * scale) * rem;
    assert p * (q1 * b) == (q1 * p) * b;
  }

  lemma Sums(u: int, p: int, q: int, b: int)
    ensures (u + p) * b == u * b + p * b && (q + 1) * b == q * b + b
  {
  }

  lemma Bound(p: int, e: int, b: int)
    requires p >= 1 && 0 <= p * e < 2 * (p * b)
    ensures 0 <= e < 2 * b
  {
    assert e * p == p * e && 2 * b * p == 2 * (p * b);
    MulOrder(e, 0, p);
    MulOrder(2 * b, e, p);
  }

  // ---- keeping account of the quotient ----

  /** x is what the remainder word holds plus n times b; the quotient word knows whether n is even. */
  predicate Account(x: int, rem: nat, b: nat, n: int, q: nat) {
    x == rem + n * b && n % 2 == q % 2
  }

  lemma Shifted(x: int, rem: int, n: int, b: int, q: int, scale: int)
    requires x == rem + n * b
    ensures x * scale == (scale * rem - q * b) + (q + scale * n) * b
  {
    assert (rem + n * b) * scale == scale * rem + (scale * n) * b;
    assert (q + scale * n) * b == q * b + (scale * n) * b;
  }

  lemma EvenTimes(k: nat, n: int, q: int)
    requires k >= 1 || n == 0
    ensures (q + Pow2(k) * n) % 2 == q % 2
  {
    if k >= 1 {
      PairedTimes(Pow2(k - 1), n);
      PairsKeepParity(q, Pow2(k - 1) * n);
    } else {
      assert Pow2(k) * n == 0;
    }
  }

  lemma PairedTimes(h: int, n: int)
    ensures (2 * h) * n == 2 * (h * n)
  {
  }

  lemma PairsKeepParity(q: int, m: int)
    ensures (q + 2 * m) % 2 == q % 2
  {
  }

  /** The dividend after the digits of c bits have been taken from it. */
  lemma NextPower(sigA: nat, c: nat, d: nat)
    ensures sigA * Pow2(c) * Pow2(d) == sigA * Pow2(c + d)
  {
    Pow2Add(c, d);
    assert sigA * Pow2(c) * Pow2(d) == sigA * (Pow2(c) * Pow2(d));
  }

  /** The state of the digit loop after c bits of the dividend's exponent. */
  ghost predicate Reducing(sigA: nat, b: nat, recip: nat, rem: nat, n: int, c: nat, q: nat) {
    && rem < P31 && rem % 8 == 0 && sigA * Pow2(7 + c) == rem + n * b
    && q == Estimate(rem, recip) && q < W32 && 0 <= P29 * rem - q * b < 2 * b
  }

  lemma ReducingStart(sigA: nat, b: nat, recip: nat)
    requires P23 <= sigA < 2 * P23 && P29 <= b < 2 * P29 && b % 8 == 0 && recip == ApproxRecip32(4 * b)
    ensures Reducing(sigA, b, recip, U32(sigA * 128), 0, 0, Estimate(U32(sigA * 128), recip))
  {
    hide ApproxRecip32, Estimate;
    Pow2Small();
    DigitError(sigA * 128, b, recip);
  }

  lemma ReducingStep(sigA: nat, b: nat, recip: nat, rem: nat, n: int, c: nat, q: nat)
    requires P29 <= b < 2 * P29 && b % 8 == 0 && recip == ApproxRecip32(4 * b) && Reducing(sigA, b, recip, rem, n, c, q)
    ensures var next := U32(0 - U32(q * b)); Reducing(sigA, b, recip, next, q + P29 * n, c + 29, Estimate(next, recip))
  {
    hide ApproxRecip32, Estimate, U32, Pow2;
    var next := U32(0 - U32(q * b));
    FullDigit(rem, b, recip);
    Shifted(sigA * Pow2(7 + c), rem, n, b, q, P29);
    NextPower(sigA, 7 + c, 29);
    Pow2Small();
    DigitError(next, b, recip);
  }

  lemma ReducingEnd(sigA: nat, b: nat, recip: nat, rem: nat, n: int, c: nat, q: nat, k: nat)
    requires P29 <= b < 2 * P29 && Reducing(sigA, b, recip, rem, n, c, q) && k <= 29 && (k >= 1 || n == 0)
    ensures var q1 := q / Pow2(29 - k); var last := U32(U32(rem * Pow2(k)) - q1 * b);
      last < 2 * b && 0 <= q1 < W32 && Account(sigA * Pow2(7 + c + k), last, b, q1 + Pow2(k) * n, q1)
  {
    hide Estimate, U32, Pow2;
    var q1 := q / Pow2(29 - k);
    LastDigit(rem, b, q, k);
    NextPower(sigA, 7 + c, k);
    Shifted(sigA * Pow2(7 + c), rem, n, b, q1, Pow2(k));
    EvenTimes(k, n, q1);
    ShiftedWord(rem, k, q1, b);
    ShorterDigit(q, Pow2(29 - k));
  }

  lemma ShorterDigit(q: nat, p: nat)
    requires p >= 1
    ensures 0 <= q / p <= q
  {
    Division(q, p);
    MulOrder(q, q / p, p);
    MulOrder(q / p, -1, p);
    MulOrder(1, p, q + 1);
    assert (q + 1) * p == q * p + p && p * (q + 1) == (q + 1) * p;
  }

  /** The digit loop and the last, shorter digit; expDiff is positive. */
  method ReduceF32(sigA: nat, b: nat, recip32: nat, expDiff0: int) returns (rem: nat, q: nat, ghost n: int)
    requires P23 <= sigA < 2 * P23 && P29 <= b < 2 * P29 && b % 8 == 0 && recip32 == ApproxRecip32(4 * b) &&
      expDiff0 >= 1
    ensures rem < 2 * b && q < W32 && Account(sigA * Pow2(6 + expDiff0), rem, b, n, q)
  {
    hide ApproxRecip32, Estimate, U32, Pow2, Reducing, Account;
    rem := U32(sigA * 128);
    var expDiff := expDiff0 - 31;
    n := 0;
    ghost var c: nat := 0;
    q := Estimate(rem, recip32);
    ReducingStart(sigA, b, recip32);
    while expDiff >= 0
      invariant c == expDiff0 - 31 - expDiff && -30 <= expDiff && (c == 0 ==> n == 0) && (c > 0 ==> expDiff >= -29)
      invariant Reducing(sigA, b, recip32, rem, n, c, q)
      decreases expDiff + 30
    {
      ReducingStep(sigA, b, recip32, rem, n, c, q);
      rem := U32(0 - U32(q * b));
      n := q + P29 * n;
      c := c + 29;
      expDiff := expDiff - 29;
      q := Estimate(rem, recip32);
    }
    ghost var k: nat := expDiff + 30;
    ReducingEnd(sigA, b, recip32, rem, n, c, q, k);
    q := q / Pow2(-expDiff - 1);
    rem := U32(U32(rem * Pow2(expDiff + 30)) - q * b);
    n := q + Pow2(k) * n;
  }

  lemma ShiftedWord(rem: nat, k: nat, q: nat, b: nat)
    requires 0 <= Pow2(k) * rem - q * b < 2 * b && b < P31
    ensures U32(U32(rem * Pow2(k)) - q * b) == Pow2(k) * rem - q * b
  {
    var v := rem * Pow2(k);
    assert v == U32(v) + W32 * (v / W32);
    assert v == Pow2(k) * rem;
  }

  /** Subtracts the divisor until the remainder is negative, then takes the nearer of the last two. */
  method SelectF32(rem0: nat, b: nat, q0: nat, ghost x: int, ghost n0: int) returns (rem: nat)
    requires P29 <= b < 2 * P29 && rem0 < 2 * b && Account(x, rem0, b, n0, q0)
    ensures rem < W32 && IsRemainder(x, b, Signed(rem))
  {
    hide Account, IsRemainder, U32, Signed;
    var q: nat, altRem: nat := q0, rem0;
    rem := rem0;
    ghost var n := n0;
    while true
      invariant rem < 2 * b && Account(x, rem, b, n, q)
      decreases rem
    {
      Difference(rem, b);
      NextCandidate(x, rem, b, n, q);
      LastCandidate(x, rem, b, n, q);
      altRem := rem;
      q := U32(q + 1);
      rem := U32(rem - b);
      if rem >= P31 {
        break;
      }
      n := n + 1;
    }
    var meanRem := U32(rem + altRem);
    if meanRem >= P31 || (meanRem == 0 && q % 2 == 1) {
      rem := altRem;
    }
  }

  lemma NextCandidate(x: int, rem: nat, b: nat, n: int, q: nat)
    requires Account(x, rem, b, n, q) && rem < P31 && 0 < b < P31
    ensures rem >= b ==> Account(x, U32(rem - b), b, n + 1, U32(q + 1)) && U32(rem - b) == rem - b
  {
    NextMultiple(x, rem, n, b);
    NextParity(n, q);
    if rem >= b {
      assert U32(rem - b) == rem - b;
      hide U32;
    }
  }

  /** The choice between the last two candidates. */
  lemma LastCandidate(x: int, alt: nat, b: nat, n: int, q: nat)
    requires Account(x, alt, b, n, q) && 0 < b < 2 * P29
    ensures alt < b ==>
      var rem, q1 := U32(alt - b), U32(q + 1); var mean := U32(rem + alt);
      IsRemainder(x, b, Signed(if mean >= P31 || (mean == 0 && q1 % 2 == 1) then alt else rem))
  {
    if alt < b {
      Selected(x, b, alt, n);
      MeanWord(alt, b);
      NextParity(n, q);
      SignedOf(alt);
      SignedOf(alt - b);
      hide U32, Signed, RemainderBy;
      if 2 * alt < b || (2 * alt == b && (n + 1) % 2 == 1) {
        assert RemainderBy(x, b, alt, n);
      } else {
        assert RemainderBy(x, b, alt - b, n + 1);
      }
    }
  }

  lemma NextParity(n: int, q: nat)
    requires n % 2 == q % 2
    ensures U32(q + 1) % 2 == (n + 1) % 2 && U32(U32(q + 1)) == U32(q + 1)
  {
  }

  lemma NextMultiple(x: int, rem: int, n: int, b: int)
    requires x == rem + n * b
    ensures x == (rem - b) + (n + 1) * b
  {
  }

  /** The sum of the two candidates shows which one is nearer. */
  lemma MeanWord(alt: nat, b: nat)
    requires alt < b < 2 * P29
    ensures var mean := U32(U32(alt - b) + alt);
      (mean >= P31 <==> 2 * alt < b) && (mean == 0 <==> 2 * alt == b)
  {
  }

  /** The dividend a 2^(expA - expB), scaled like the divisor. */
  function Dividend(sigA: nat, expDiff: int): nat
    requires expDiff >= -1
  {
    sigA * Pow2(6 + expDiff)
  }

  /** The start for exponents that differ by less than one: no digit, or one subtraction at most. */
  lemma ShortDividend(sigA: nat, sigB: nat, expDiff: int)
    requires P23 <= sigA < 2 * P23 && P23 <= sigB < 2 * P23 && -1 <= expDiff <= 0
    ensures var b, one := 64 * sigB, 64 * sigB <= 64 * sigA;
      var rem := if expDiff < 0 then 32 * sigA else if one then 64 * sigA - 64 * sigB else 64 * sigA;
      var n := if expDiff == 0 && one then 1 else 0;
      rem < 2 * b && Account(Dividend(sigA, expDiff), rem, b, n, n)
  {
    assert Pow2(5) == 32 && Pow2(6) == 64;
  }

  lemma DividendOf(sigA: nat, expDiff: int)
    ensures expDiff >= -1 ==> Dividend(sigA, expDiff) == sigA * Pow2(6 + expDiff)
  {
  }

  lemma DivisorWord(sigB: nat)
    requires P23 <= sigB < 2 * P23
    ensures U32(sigB * 256) == 4 * (64 * sigB) && (64 * sigB) % 8 == 0
  {
  }

  /** The words that the start works with do not wrap. */
  lemma StartWords(sigA: nat, sigB: nat)
    requires P23 <= sigA < 2 * P23 && P23 <= sigB < 2 * P23
    ensures U32(sigB * 64) == 64 * sigB && U32(sigA * 32) == 32 * sigA && U32(sigA * 64) == 64 * sigA
  {
  }

  /** The magnitude of a negative word. */
  lemma NegatedWord(rem: nat)
    requires rem < W32
    ensures Signed(rem) == if P31 <= rem then 0 - U32(0 - rem) else rem
  {
  }

  /**
   f32_rem for normal operands: the significand and whether the sign of the dividend flips, or no
   change.  In the scale of the divisor the signed result is the remainder.
  */
  method RemainderF32(expA: int, fracA: nat, expB: int, fracB: nat)
    returns (same: bool, flipped: bool, rem: nat)
    requires fracA < P23 && fracB < P23
    ensures var sigA, b := P23 + fracA, 64 * (P23 + fracB);
      if same then expA - expB < -1 && 2 * (64 * sigA) < b * Pow2(expB - expA)
      else
        expA - expB >= -1 && IsRemainder(Dividend(sigA, expA - expB), b, if flipped then 0 - rem else rem)
  {
    hide ApproxRecip32, Account, Dividend, IsRemainder, Signed, U32, Pow2;
    rem := P23 + fracA;
    var sigB: nat := P23 + fracB;
    StartWords(rem, sigB);
    same, flipped := false, false;
    ghost var n: int := 0;
    var expDiff := expA - expB;
    ghost var sigA := rem;
    var q: nat := 0;
    DividendOf(sigA, expDiff);
    if expDiff < 1 {
      if expDiff < -1 {
        same := true;
        SmallDividend(sigA, sigB, -expDiff);
        return;
      }
      ShortDividend(sigA, sigB, expDiff);
      sigB := U32(sigB * 64);
      if expDiff != 0 {
        rem := U32(rem * 32);
        q := 0;
      } else {
        rem := U32(rem * 64);
        q := if sigB <= rem then 1 else 0;
        if q == 1 {
          rem := rem - sigB;
          n := 1;
        }
      }
    } else {
      DivisorWord(sigB);
      var recip32 := ApproxRecip32(U32(sigB * 256));
      sigB := U32(sigB * 64);
      rem, q, n := ReduceF32(rem, sigB, recip32, expDiff);
    }
    rem := SelectF32(rem, sigB, q, Dividend(sigA, expDiff), n);
    NegatedWord(rem);
    if P31 <= rem {
      flipped := true;
      rem := U32(0 - rem);
    }
  }

  lemma SmallDividend(sigA: nat, sigB: nat, e: nat)
    requires P23 <= sigA < 2 * P23 && P23 <= sigB && e >= 2
    ensures 2 * (64 * sigA) < 64 * sigB * Pow2(e)
  {
    assert Pow2(2) == 4;
    Pow2Add(2, e - 2);
    MulOrder(1, Pow2(e - 2), 4);
    MulOrder(4, Pow2(e), 64 * sigB);
    assert Pow2(e) * (64 * sigB) == 64 * sigB * Pow2(e);
  }
}
