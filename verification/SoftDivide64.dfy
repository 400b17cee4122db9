/** Division of double-precision numbers up to the rounding step (section 5.4.1 of IEEE 754-2008). */
module SoftDivide64 {
  import opened Arith
  import opened Words
  import opened SoftReciprocal
  import opened SoftRounding

  /** The remainder step as the words compute it: two partial products, each wrapped. */
  function NextRem(x: nat, digit: nat, b: nat): nat {
    U64(U64(U64(x - 2 * digit * Hi32(b)) * P28) - 2 * digit * (U32(b) / 16))
  }

  lemma EighthTimes(digit: int, b: int)
    requires b % 8 == 0
    ensures 8 * (digit * (b / 8)) == digit * b
  {
    var c := b / 8;
    assert b == 8 * c;
    assert digit * (8 * c) == 8 * (digit * c);
  }

  /** The two partial products add up to an eighth of the whole product. */
  lemma PartialProducts(digit: int, bh: int, low: int)
    ensures digit * (bh * 0x2000_0000 + 2 * low) == (2 * digit * bh) * P28 + 2 * digit * low
  {
    assert digit * (bh * 0x2000_0000 + 2 * low) == digit * (bh * 0x2000_0000) + digit * (2 * low);
    assert digit * (bh * 0x2000_0000) == (digit * bh) * 0x2000_0000;
  }

  /** Wrapping the intermediate results does not show in the end. */
  lemma WrapSteps(x: int, p: int, t: int)
    ensures U64(U64(U64(x - p) * P28) - t) == U64(P28 * x - (p * P28 + t))
  {
    WrapFirst64(U64(x - p) * P28, t);
    WrapInside64(x - p, P28, t);
  }

  /** The wrapped remainder is the exact difference modulo the word. */
  lemma NextRemExact(x: nat, digit: nat, b: nat)
    requires b % 16 == 0 && b < W64
    ensures NextRem(x, digit, b) == U64(P28 * x - digit * (b / 8))
  {
    var bh, low := Hi32(b), U32(b) / 16;
    Parts(b);
    hide Hi32, U32, U64;
    PartialProducts(digit, bh, low);
    WrapSteps(x, 2 * digit * bh, 2 * digit * low);
    assert digit * (b / 8) == (2 * digit * bh) * P28 + 2 * digit * low;
  }

  lemma Parts(b: nat)
    requires b % 16 == 0
    ensures b / 8 == Hi32(b) * 0x2000_0000 + 2 * (U32(b) / 16)
  {
    var h, u := Hi32(b), U32(b);
    assert b == h * W32 + u;
    hide Hi32, U32;
    WordMultiple(h, u);
    var low := u / 16;
    assert u == 16 * low;
    EighthOf(b, h * 0x2000_0000 + 2 * low);
  }

  lemma WordMultiple(h: int, u: int)
    ensures (h * W32 + u) % 16 == u % 16
  {
    var m := h * 0x1000_0000;
    assert h * W32 + u == 16 * m + u;
  }

  lemma EighthOf(b: int, e: int)
    requires b == 8 * e
    ensures b / 8 == e
  {
  }

  /** The first digit s of the quotient: what it leaves is positive and small. */
  lemma FirstDigit(a: nat, b: nat, recip: nat)
    requires W63 <= b < W64 && 0 < a < b && recip == ApproxRecip32(Hi32(b)) - 2
    ensures var s := Digit(a, recip); s < P31 && s * b < P31 * a < (s + 5) * b
  {
    var s, ah, bh := Digit(a, recip), Hi32(a), Hi32(b);
    DigitBelow(a, b, recip);
    DigitAbove(a, b, recip);
    MulOrder(s, P31, b);
    MulOrder(P31, s, b);
    if ah < W32 {
      MulOrder(ah, W32, bh);
      assert W32 * bh == bh * W32 && ah * bh == bh * ah;
    }
    assert (s + 5) * b == (s + 1) * b + 4 * b;
  }

  /** The second digit, with four added: above the quotient of the remainder, by less than four. */
  lemma SecondDigit(rem: nat, b: nat, recip: nat)
    requires W63 <= b < W64 && 0 < 8 * rem < 5 * b && recip == ApproxRecip32(Hi32(b)) - 2
    ensures var q := Digit(rem, recip) + 4; q < P31 && (q - 4) * b < P31 * rem < q * b
  {
    var q0, rh, bh := Digit(rem, recip), Hi32(rem), Hi32(b);
    DigitBelow(rem, b, recip);
    DigitAbove(rem, b, recip);
    hide Digit, ApproxRecip32;
    SmallDigit(q0, rem, b);
    assert rh < 0xA000_0000;
    MulOrder(rh, 0xA000_0000, bh);
    assert rh * bh == bh * rh;
    assert (q0 + 4) * b == (q0 + 1) * b + 3 * b;
  }

  lemma SmallDigit(q0: nat, rem: nat, b: nat)
    requires q0 * b < P31 * rem && 8 * rem < 5 * b && b > 0
    ensures q0 < 0x5000_0000
  {
    MulOrder(0x5000_0000, q0, b);
  }

  /** What the first digit leaves over. */
  lemma EstimateValue(a: nat, b: nat, s: nat, rem: nat, n: nat)
    requires 8 * rem == P31 * a - s * b && n == a * W63
    ensures n == (s * W32) * b + 16 * (P31 * rem)
  {
    assert n == W32 * (P31 * a);
    assert W32 * (s * b) == (s * W32) * b;
  }

  /** The estimate exceeds the exact quotient n / b by less than 64. */
  lemma Estimate(a: nat, b: nat, s: nat, rem: nat, q: nat, n: nat)
    requires 8 * rem == P31 * a - s * b && n == a * W63
    requires (q - 4) * b < P31 * rem < q * b
    ensures var z := s * W32 + 16 * q; (z - 64) * b < n < z * b
    ensures n == (s * W32) * b + 16 * (P31 * rem)
  {
    EstimateValue(a, b, s, rem, n);
    assert (s * W32 + 16 * q) * b == (s * W32) * b + 16 * (q * b);
    assert (s * W32 + 16 * q - 64) * b == (s * W32) * b + 16 * ((q - 4) * b);
  }

  /** Far enough above a boundary, the estimate can be used as it is. */
  lemma Uncorrected(z: nat, n: nat, b: nat)
    requires b > 0 && z % 512 >= 64 && (z - 64) * b < n < z * b
    ensures SameSide(z, n, b, 512)
  {
    var m := z / 512;
    MulOrder(m * 512, z - 64, b);
    MulOrder(z, (m + 1) * 512, b);
    SameGap(z, n, b, 512, m);
  }

  /** The corrected significand, by the sign of the exact remainder e of the shortened quotient z. */
  lemma Corrected(z: nat, e: int, n: nat, b: nat)
    requires b > 0 && z % 512 == 0 && n == z * b + 128 * e && -4 * b < 8 * e < 3 * b
    ensures SameSide(if e < 0 then z - 128 else if e > 0 then z + 1 else z, n, b, 512)
  {
    var m := z / 512;
    assert z == m * 512;
    assert (m + 1) * 512 * b == z * b + 512 * b && (m - 1) * 512 * b == z * b - 512 * b;
    if e < 0 {
      SameGap(z - 128, n, b, 512, m - 1);
    } else if e > 0 {
      SameGap(z + 1, n, b, 512, m);
    } else {
      SameValue(z, n, b, 512);
    }
  }

  lemma Shortened(q: nat, s: nat, rem: nat, b: nat, n: nat)
    requires b % 8 == 0 && b > 0 && (q - 4) * b < P31 * rem < q * b && n == (s * W32) * b + 16 * (P31 * rem)
    requires (s * W32 + 16 * q) % 512 < 64
    ensures var q1 := q - q % 8; var z := s * W32 + 16 * q1; var e := P28 * rem - q1 * (b / 8);
      && z == s * W32 + 16 * q - (s * W32 + 16 * q) % 128 && z % 512 == 0
      && n == z * b + 128 * e && -4 * b < 8 * e < 3 * b
  {
    var q1 := q - q % 8;
    ShortenedBits(q, s);
    EighthTimes(q1, b);
    ShortenedProducts(q, q1, s, rem, b, n);
    EighthRem(P31 * rem, q1 * b, q1 * (b / 8), rem);
  }

  lemma ShortenedBits(q: nat, s: nat)
    requires (s * W32 + 16 * q) % 512 < 64
    ensures var q1 := q - q % 8; var z := s * W32 + 16 * q1;
      q1 <= q <= q1 + 3 && z == s * W32 + 16 * q - (s * W32 + 16 * q) % 128 && z % 512 == 0
  {
    var h, l, z := q / 32, q % 32, s * W32 + 16 * q;
    QuotientUnique(z, 512, s * 0x80_0000 + h);
    QuotientUnique(z, 128, 4 * (s * 0x80_0000 + h));
    QuotientUnique(q, 8, 4 * h);
    ModZero(s * 0x80_0000 + h, 512);
  }

  lemma EighthRem(left: int, product: int, eighth: int, rem: int)
    requires left == P31 * rem && 8 * eighth == product
    ensures left - product == 8 * (P28 * rem - eighth)
  {
  }

  lemma ShortenedProducts(q: nat, q1: nat, s: nat, rem: nat, b: nat, n: nat)
    requires b > 0 && (q - 4) * b < P31 * rem < q * b && n == (s * W32) * b + 16 * (P31 * rem) && q1 <= q <= q1 + 3
    ensures n == (s * W32 + 16 * q1) * b + 16 * (P31 * rem - q1 * b)
    ensures -4 * b < P31 * rem - q1 * b < 3 * b
  {
    assert (s * W32 + 16 * q1) * b == (s * W32) * b + 16 * (q1 * b);
    MulOrder(q, q1 + 3, b);
    MulOrder(q1 - 4, q - 4, b);
    assert (q1 + 3) * b == q1 * b + 3 * b && (q1 - 4) * b == q1 * b - 4 * b;
  }

  /** Common factors of the exact value can be dropped. */
  lemma Cancel(z: int, n: int, d: int, unit: nat, j: int)
    requires j > 0 && SameSide(z, n * j, d * j, unit)
    ensures SameSide(z, n, d, unit)
  {
    forall k: int ensures AgreeAt(z, n, d, unit, k) {
      assert AgreeAt(z, n * j, d * j, unit, k);
      assert k * unit * (d * j) == k * unit * d * j;
      MulOrder(n, k * unit * d, j);
      MulOrder(k * unit * d, n, j);
    }
  }

  /** The quotient is between one half and one, scaled by two to the 63. */
  lemma QuotientRange(z: int, a: nat, b: nat)
    requires b <= 2 * a && 0 < a < b && SameSide(z, a * W63, b, 512)
    ensures P62 <= z < W63
  {
    assert AgreeAt(z, a * W63, b, 512, P62 / 512) && AgreeAt(z, a * W63, b, 512, W63 / 512);
  }

  /** Both significands are shifted so that the dividend is below the divisor, but not below half of it. */
  lemma Aligned(sigA: nat, sigB: nat)
    requires P52 <= sigA < 2 * P52 && P52 <= sigB < 2 * P52
    ensures var a := if sigA < sigB then sigA * 2048 else sigA * 1024; var b := sigB * 2048;
      W63 <= b < W64 && 0 < a < b <= 2 * a && b % 16 == 0
  {
  }

  /**
   f64_div for normal operands.  The significand handed to the rounding step has its leading bit at
   bit 62 and lies on the same side of every half unit as the exact quotient of the significands.
  */
  method DivideF64(expA: int, fracA: nat, expB: int, fracB: nat) returns (expZ: int, sigZ: nat)
    requires fracA < P52 && fracB < P52
    ensures var sigA, sigB := P52 + fracA, P52 + fracB; var early := if sigA < sigB then 1 else 0;
      && expZ == expA - expB + 0x3FE - early
      && SameSide(sigZ, sigA * P62 * (1 + early), sigB, 512)
      && P62 <= sigZ < W63
  {
    hide ApproxRecip32, NextRem, SameSide, Digit;
    expZ := expA - expB + 0x3FE;
    var sigA, sigB: nat := P52 + fracA, P52 + fracB;
    ghost var sigA0, sigB0: nat := sigA, sigB;
    if sigA < sigB {
      expZ := expZ - 1;
      sigA := U64(sigA * 2048);
    } else {
      sigA := U64(sigA * 1024);
    }
    sigB := U64(sigB * 2048);
    Aligned(sigA0, sigB0);
    sigZ := QuotientF64(sigA, sigB);
    Original(sigZ, sigA0, sigB0);
  }

  /** The quotient digits s and q and the remainder between them. */
  ghost predicate Estimated(a: nat, b: nat, s: nat, rem: nat, q: nat) {
    && W63 <= b < W64 && 0 < a < b <= 2 * a && b % 16 == 0 && rem < W64
    && 8 * rem == P31 * a - s * b && 4 <= q < P31 && s < P31 && (q - 4) * b < P31 * rem < q * b
  }

  lemma EstimateHolds(a: nat, b: nat, recip: nat, s: nat, rem: nat)
    requires W63 <= b < W64 && 0 < a < b <= 2 * a && b % 16 == 0 && recip == ApproxRecip32(Hi32(b)) - 2
    requires s == Digit(a, recip) && rem == NextRem(a, s, b)
    ensures Estimated(a, b, s, rem, Digit(rem, recip) + 4)
  {
    hide ApproxRecip32, Digit, NextRem, U64, U32;
    FirstDigit(a, b, recip);
    FirstRem(a, b, s);
    SecondDigit(rem, b, recip);
  }

  lemma UncorrectedOk(a: nat, b: nat, s: nat, rem: nat, q: nat)
    requires Estimated(a, b, s, rem, q) && (s * W32 + 16 * q) % 512 >= 64
    ensures SameSide(s * W32 + 16 * q, a * W63, b, 512)
  {
    hide SameSide;
    Estimate(a, b, s, rem, q, a * W63);
    Uncorrected(s * W32 + 16 * q, a * W63, b);
  }

  /** The last two bits follow from the sign of the wrapped remainder of the shortened quotient. */
  function LastBits(z: int, rem: nat): int { if rem >= W63 then z - 128 else if rem != 0 then z + 1 else z }

  lemma CorrectedOk(a: nat, b: nat, s: nat, rem: nat, q: nat)
    requires Estimated(a, b, s, rem, q) && (s * W32 + 16 * q) % 512 < 64
    ensures var z := s * W32 + 16 * q; var q1 := q - q % 8;
      SameSide(LastBits(z - z % 128, NextRem(rem, q1, b)), a * W63, b, 512)
  {
    hide SameSide, NextRem, LastBits;
    var q1 := q - q % 8;
    var e := P28 * rem - q1 * (b / 8);
    var z1 := s * W32 + 16 * q1;
    EstimatedFacts(a, b, s, rem, q);
    hide Estimated;
    Shortened(q, s, rem, b, a * W63);
    NextRemExact(rem, q1, b);
    BySign(z1, e, a * W63, b);
    hide *;
    assert LastBits(z1, U64(e)) == LastBits(s * W32 + 16 * q - (s * W32 + 16 * q) % 128, NextRem(rem, q1, b));
  }

  lemma EstimatedFacts(a: nat, b: nat, s: nat, rem: nat, q: nat)
    requires Estimated(a, b, s, rem, q)
    ensures a * W63 == (s * W32) * b + 16 * (P31 * rem) && (q - 4) * b < P31 * rem < q * b
    ensures 0 < b < W64 && b % 16 == 0 && b % 8 == 0
  {
    EvenEighth(b);
    EstimateValue(a, b, s, rem, a * W63);
  }

  lemma EvenEighth(b: int)
    requires b % 16 == 0
    ensures b % 8 == 0
  {
  }

  lemma BySign(z: nat, e: int, n: nat, b: nat)
    requires 0 < b < W64 && z % 512 == 0 && n == z * b + 128 * e && -4 * b < 8 * e < 3 * b
    ensures SameSide(LastBits(z, U64(e)), n, b, 512)
  {
    hide SameSide, U64;
    SignOf(e, b);
    Corrected(z, e, n, b);
  }

  /** The part of f64_div that works on the aligned significands. */
  method QuotientF64(sigA: nat, sigB: nat) returns (sigZ: nat)
    requires W63 <= sigB < W64 && 0 < sigA < sigB <= 2 * sigA && sigB % 16 == 0
    ensures SameSide(sigZ, sigA * W63, sigB, 512) && P62 <= sigZ < W63
  {
    hide ApproxRecip32, NextRem, SameSide, Digit, Hi32, U64, U32, Estimated;
    UpperHalf(sigB);
    var recip32 := U32(ApproxRecip32(Hi32(sigB)) - 2);
    var sig32Z := U32(Hi32(Hi32(sigA) * recip32));
    DigitWord(sigA, recip32);
    FirstDigit(sigA, sigB, recip32);
    var doubleTerm := U32(sig32Z * 2);
    var rem: nat := U64(U64(U64(sigA - doubleTerm * Hi32(sigB)) * P28) - doubleTerm * (U32(sigB) / 16));
    NextRemWord(sigA, sig32Z, sigB, doubleTerm);
    EstimateHolds(sigA, sigB, recip32, sig32Z, rem);
    DigitWord(rem, recip32);
    EstimatedSmall(sigA, sigB, sig32Z, rem, Digit(rem, recip32) + 4);
    var q := U32(U32(Hi32(Hi32(rem) * recip32)) + 4);
    sigZ := U64(sig32Z * W32 + q * 16);
    if sigZ % 512 < 64 {
      CorrectedOk(sigA, sigB, sig32Z, rem, q);
      q := q - q % 8;
      sigZ := sigZ - sigZ % 128;
      doubleTerm := U32(q * 2);
      NextRemWord(rem, q, sigB, doubleTerm);
      rem := U64(U64(U64(rem - doubleTerm * Hi32(sigB)) * P28) - doubleTerm * (U32(sigB) / 16));
      QuotientRange(LastBits(sigZ, rem), sigA, sigB);
      if rem >= W63 {
        sigZ := sigZ - 128;
      } else {
        if rem != 0 {
          sigZ := sigZ + 1;
        }
      }
    } else {
      UncorrectedOk(sigA, sigB, sig32Z, rem, q);
      QuotientRange(sigZ, sigA, sigB);
    }
  }

  lemma EstimatedSmall(a: nat, b: nat, s: nat, rem: nat, q: nat)
    requires Estimated(a, b, s, rem, q)
    ensures s < P31 && 4 <= q < P31
  {
  }

  lemma UpperHalf(b: nat)
    requires W63 <= b < W64
    ensures W32 / 2 <= Hi32(b) < W32
  {
  }

  lemma DigitWord(x: nat, recip: nat)
    requires x < W64 && recip < W32
    ensures U32(Hi32(Hi32(x) * recip)) == Digit(x, recip)
  {
    if recip > 0 {
      MulOrder(Hi32(x), W32, recip);
    }
  }

  lemma NextRemWord(x: nat, digit: nat, b: nat, doubleTerm: nat)
    requires doubleTerm == 2 * digit
    ensures U64(U64(U64(x - doubleTerm * Hi32(b)) * P28) - doubleTerm * (U32(b) / 16)) == NextRem(x, digit, b)
  {
  }

  /** The top bit of the wrapped remainder is its sign. */
  lemma SignOf(e: int, b: nat)
    requires -4 * b < 8 * e < 3 * b && b < W64
    ensures U64(e) >= W63 <==> e < 0
    ensures U64(e) == 0 <==> e == 0
  {
  }

  lemma FirstRem(a: nat, b: nat, s: nat)
    requires b % 16 == 0 && b < W64 && s * b < P31 * a < (s + 5) * b
    ensures var rem := NextRem(a, s, b); 8 * rem == P31 * a - s * b && 0 < 8 * rem < 5 * b
  {
    hide NextRem, U64;
    NextRemExact(a, s, b);
    EvenEighth(b);
    EighthTimes(s, b);
    FivefoldGap(s, b);
    SmallRem(P31 * a, s * b, s * (b / 8), a, b);
  }

  lemma FivefoldGap(s: int, b: int)
    ensures (s + 5) * b == s * b + 5 * b
  {
  }

  lemma SmallRem(left: int, product: int, eighth: int, a: int, b: int)
    requires left == P31 * a && 8 * eighth == product && product < left < product + 5 * b && b < W64
    ensures 8 * (P28 * a - eighth) == left - product && 0 < P28 * a - eighth < W64
  {
  }

  /** From the shifted significands back to the original ones. */
  lemma Original(z: int, sigA: nat, sigB: nat)
    requires SameSide(z, (if sigA < sigB then sigA * 2048 else sigA * 1024) * W63, sigB * 2048, 512)
    ensures SameSide(z, sigA * P62 * (if sigA < sigB then 2 else 1), sigB, 512)
  {
    Cancel(z, sigA * P62 * (if sigA < sigB then 2 else 1), sigB, 512, 2048);
  }
}
