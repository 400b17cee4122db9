/** The shift, add and multiply primitives on one and two 64-bit words. */
module Soft128 {
  import opened Arith
  import opened Words
  import opened SoftJam

  datatype U128 = U128(v64: nat, v0: nat) {
    function Val(): nat { v64 * W64 + v0 }
    predicate Ok() { v64 < W64 && v0 < W64 }
  }

  const W128 := W64 * W64

  /** Shifting by less than the word: what falls off shows in the upper bits of the opposite shift. */
  lemma LostBits(a: nat, count: nat)
    requires 1 <= count < 64
    ensures U64(a * Pow2(64 - count)) == (a % Pow2(count)) * Pow2(64 - count)
  {
    var p, r := Pow2(count), Pow2(64 - count);
    WordPower(count);
    Division(a, p);
    LostProduct(a, p, r);
  }

  lemma WordPower(count: nat)
    requires count <= 64
    ensures Pow2(count) * Pow2(64 - count) == W64 && Pow2(64) == W64
  {
    Pow2Small();
    Pow2Add(32, 32);
    Pow2Add(count, 64 - count);
  }

  lemma LostProduct(a: nat, p: nat, r: nat)
    requires p * r == W64 && p > 0 && r > 0
    ensures U64(a * r) == (a % p) * r
  {
    var q, m := a / p, a % p;
    Division(a, p);
    assert a * r == q * W64 + m * r by {
      assert (q * p + m) * r == q * (p * r) + m * r;
    }
    MulOrder(m, p, r);
    MulNonNegative(m, r);
    QuotientUnique(a * r, W64, q);
  }

  /** softfloat_shiftRightJam64. */
  function ShiftRightJam64(a: nat, count: nat): (z: nat)
    requires a < W64 && count >= 1
    ensures z == Jam(a, Pow2(count))
  {
    WordPower(63);
    Jam64(a, count);
    if count < 63 then Or1(a / Pow2(count), U64(a * Pow2(64 - count)) != 0)
    else if a != 0 then 1 else 0
  }

  lemma Jam64(a: nat, count: nat)
    requires a < W64 && count >= 1
    ensures count < 63 ==>
      0 <= a / Pow2(count) && Or1(a / Pow2(count), U64(a * Pow2(64 - count)) != 0) == Jam(a, Pow2(count))
    ensures count >= 63 ==> Jam(a, Pow2(count)) == if a != 0 then 1 else 0
  {
    if count < 63 {
      NearJam64(a, count);
    } else {
      assert Pow2(1) == 2;
      WordPower(63);
      Pow2Add(63, count - 63);
      var p, q := Pow2(63), Pow2(count - 63);
      hide Pow2, Jam;
      MulOrder(1, q, p);
      ProductsCommute(q, p);
      JamAboveHalf(a, Pow2(count));
    }
  }

  lemma NearJam64(a: nat, count: nat)
    requires a < W64 && 1 <= count < 63
    ensures 0 <= a / Pow2(count) && Or1(a / Pow2(count), U64(a * Pow2(64 - count)) != 0) == Jam(a, Pow2(count))
  {
    var p, r := Pow2(count), Pow2(64 - count);
    LostBits(a, count);
    hide Pow2;
    Division(a, p);
    MulOrder(a / p, -1, p);
    if a % p > 0 {
      MulSign(a % p, r);
    }
  }

  /** Below twice the divisor nothing but the sticky bit is left. */
  lemma JamAboveHalf(a: nat, p: nat)
    requires a < 2 * p
    ensures Jam(a, p) == if a != 0 then 1 else 0
  {
    if a < p {
      QuotientUnique(a, p, 0);
    } else {
      QuotientUnique(a, p, 1);
    }
  }

  /** softfloat_shortShiftRightJam64. */
  function ShortShiftRightJam64(a: nat, count: nat): (z: nat)
    requires a < W64 && 1 <= count <= 63
    ensures z == Jam(a, Pow2(count))
  {
    Division(a, Pow2(count));
    MulOrder(a / Pow2(count), -1, Pow2(count));
    Or1(a / Pow2(count), a % Pow2(count) != 0)
  }

  /** A shift across two words: the parts of the result and what is lost. */
  lemma TwoWords(a64: nat, a0: nat, p: nat, r: nat)
    requires a64 < W64 && a0 < W64 && p * r == W64 && p > 0 && r > 0
    ensures var x := a64 * W64 + a0;
      && 0 <= a64 / p && 0 <= a0 / p && (a64 % p) * r >= 0
      && x / p == (a64 / p) * W64 + ((a64 % p) * r + a0 / p)
      && x % p == a0 % p
      && (a64 % p) * r + a0 / p < W64
      && a64 / p < W64
  {
    var h, l, h1, l1 := a64 / p, a64 % p, a0 / p, a0 % p;
    QuotientBounds(a64, p);
    QuotientBounds(a0, p);
    LowFits(l, h1, l1, p, r);
    Spread(h, l, h1, l1, p, r);
    QuotientUnique(a64 * W64 + a0, p, h * W64 + (l * r + h1));
  }

  lemma QuotientBounds(a: nat, p: nat)
    requires p > 0
    ensures 0 <= a / p <= a && 0 <= a % p < p && a == (a / p) * p + a % p
  {
    Division(a, p);
    MulOrder(a / p, -1, p);
    MulOrder(1, p, a / p + 1);
    assert p * (a / p + 1) == (a / p) * p + p && 1 * (a / p + 1) == a / p + 1;
  }

  lemma LowFits(l: nat, h1: nat, l1: nat, p: nat, r: nat)
    requires l < p && p * r == W64 && r > 0 && h1 * p + l1 < W64
    ensures 0 <= l * r && l * r + h1 < W64
  {
    MulOrder(l, p, r);
    MulNonNegative(l, r);
    assert r * p == p * r;
    MulOrder(h1, r, p);
    MulOrder(r, h1, p);
  }

  lemma Spread(h: int, l: int, h1: int, l1: int, p: int, r: int)
    requires p * r == W64
    ensures (h * p + l) * W64 + (h1 * p + l1) == (h * W64 + (l * r + h1)) * p + l1
  {
    assert (h * W64) * p == (h * p) * W64;
    assert (l * r) * p == l * (p * r);
    assert (h * W64 + (l * r + h1)) * p == (h * W64) * p + (l * r) * p + h1 * p;
    assert (h * p + l) * W64 == (h * p) * W64 + l * W64;
  }

  /**
   softfloat_shortShiftRightJam128 and the first branch of softfloat_shiftRightJam128; the or-ed bits do not
   overlap.
  */
  function ShiftWords(a: U128, count: nat): (z: U128)
    requires a.Ok() && 1 <= count < 64
    ensures z.Ok() && z.Val() == Jam(a.Val(), Pow2(count))
  {
    WordPower(count);
    TwoWords(a.v64, a.v0, Pow2(count), Pow2(64 - count));
    LostBits(a.v64, count);
    LostBits(a.v0, count);
    Lost(a.v0 % Pow2(count), Pow2(64 - count));
    var low := U64(a.v64 * Pow2(64 - count)) + a.v0 / Pow2(count);
    JamLow(a.v64 / Pow2(count), low, U64(a.v0 * Pow2(64 - count)) != 0);
    U128(a.v64 / Pow2(count), Or1(low, U64(a.v0 * Pow2(64 - count)) != 0))
  }

  lemma Lost(m: nat, r: nat)
    requires r > 0
    ensures m * r == 0 <==> m == 0
  {
    MulSign(m, r);
  }

  lemma JamLow(hi: nat, low: nat, sticky: bool)
    requires low < W64
    ensures Or1(hi * W64 + low, sticky) == hi * W64 + Or1(low, sticky) && Or1(low, sticky) < W64
  {
  }

  /** softfloat_shiftRightJam128. */
  function ShiftRightJam128(a: U128, count: nat): (z: U128)
    requires a.Ok() && count >= 1
    ensures z.Ok() && z.Val() == Jam(a.Val(), Pow2(count))
  {
    if count < 64 then ShiftWords(a, count)
    else
      FarJam(a, count);
      if count < 127 then U128(0, Or1(a.v64 / Pow2(count - 64), a.v64 % Pow2(count - 64) != 0 || a.v0 != 0))
      else U128(0, if a.v64 != 0 || a.v0 != 0 then 1 else 0)
  }

  lemma FarJam(a: U128, count: nat)
    requires a.Ok() && count >= 64
    ensures count < 127 ==>
      && 0 <= a.v64 / Pow2(count - 64)
      && Jam(a.Val(), Pow2(count)) == Or1(a.v64 / Pow2(count - 64), a.v64 % Pow2(count - 64) != 0 || a.v0 != 0) < W64
    ensures count >= 127 ==> Jam(a.Val(), Pow2(count)) == if a.v64 != 0 || a.v0 != 0 then 1 else 0
  {
    var p := Pow2(count - 64);
    WordPower(0);
    Pow2Add(count - 64, 64);
    QuotientBounds(a.v64, p);
    if count < 127 {
      hide Pow2;
      FarQuotient(a.v64, a.v0, p);
    } else {
      WordPower(63);
      Pow2Add(63, count - 127);
      assert Pow2(1) == 2;
      hide Pow2, Jam;
      MulOrder(1, Pow2(count - 127), Pow2(63));
      ProductsCommute(Pow2(count - 127), Pow2(63));
      FarSmall(a, p);
    }
  }

  lemma FarQuotient(a64: nat, a0: nat, p: nat)
    requires a0 < W64 && p > 0 && a64 == (a64 / p) * p + a64 % p
    ensures (a64 * W64 + a0) / (p * W64) == a64 / p
    ensures (a64 * W64 + a0) % (p * W64) == (a64 % p) * W64 + a0
  {
    var h, l := a64 / p, a64 % p;
    assert h * (p * W64) == (h * p) * W64;
    QuotientUnique(a64 * W64 + a0, p * W64, h);
  }

  lemma FarSmall(a: U128, p: nat)
    requires a.Ok() && W63 <= p
    ensures Jam(a.Val(), p * W64) == if a.v64 != 0 || a.v0 != 0 then 1 else 0
  {
    if a.v64 < p {
      QuotientUnique(a.Val(), p * W64, 0);
    } else {
      QuotientUnique(a.Val(), p * W64, 1);
    }
  }

  /** softfloat_shortShiftLeft128, exact as long as nothing leaves the upper word. */
  function ShortShiftLeft128(a: U128, count: nat): (z: U128)
    requires a.Ok() && count <= 63 && a.v64 * Pow2(count) < W64 && (count == 0 ==> a.v0 == 0)
    ensures z.Ok() && z.Val() == a.Val() * Pow2(count)
  {
    if count == 0 then a
    else
      ShiftedLeft(a, count);
      U128(U64(a.v64 * Pow2(count)) + a.v0 / Pow2(64 - count), U64(a.v0 * Pow2(count)))
  }

  lemma ShiftedLeft(a: U128, count: nat)
    requires a.Ok() && 1 <= count <= 63 && a.v64 * Pow2(count) < W64
    ensures 0 <= a.v64 * Pow2(count) && 0 <= a.v0 / Pow2(64 - count) && 0 <= a.v0 * Pow2(count)
    ensures a.v64 * Pow2(count) + a.v0 / Pow2(64 - count) < W64
    ensures (a.v64 * Pow2(count) + a.v0 / Pow2(64 - count)) * W64 + U64(a.v0 * Pow2(count)) == a.Val() * Pow2(count)
  {
    hide Pow2, U64;
    var p, r := Pow2(count), Pow2(64 - count);
    WordPower(count);
    assert r * p == p * r;
    LostProduct(a.v0, r, p);
    MulNonNegative(a.v64, p);
    MulNonNegative(a.v0, p);
    QuotientBounds(a.v0, r);
    QuotientSmall(a.v0, p, r);
    UpperFits(a.v64, a.v0 / r, p, r);
    LeftSum(a.v64, a.v0 / r, a.v0 % r, p, r);
  }

  lemma QuotientSmall(a0: nat, p: nat, r: nat)
    requires a0 < p * r && r > 0
    ensures a0 / r < p
  {
    Division(a0, r);
    MulOrder(p, a0 / r, r);
  }

  lemma LeftSum(a64: int, h: int, l: int, p: int, r: int)
    requires r * p == W64
    ensures (a64 * p + h) * W64 + l * p == (a64 * W64 + (h * r + l)) * p
  {
    assert (a64 * W64) * p == a64 * p * W64;
    assert (h * r) * p == h * (r * p);
    assert (a64 * W64 + (h * r + l)) * p == (a64 * W64) * p + (h * r) * p + l * p;
  }

  /** The upper word is a multiple of p, so a smaller number still fits under the next one. */
  lemma UpperFits(a64: nat, h: nat, p: nat, r: nat)
    requires p * r == W64 && p > 0 && h < p && a64 * p < W64
    ensures a64 * p + h < W64
  {
    assert r * p == p * r;
    MulOrder(a64, r, p);
    MulOrder(r, a64, p);
  }

  /** softfloat_add128. */
  function Add128(a: U128, b: U128): (z: U128)
    requires a.Ok() && b.Ok()
    ensures z.Ok() && (a.Val() + b.Val() < W128 ==> z.Val() == a.Val() + b.Val())
  {
    var v0 := U64(a.v0 + b.v0);
    U128(U64(a.v64 + b.v64 + if v0 < a.v0 then 1 else 0), v0)
  }

  /** softfloat_sub128. */
  function Sub128(a: U128, b: U128): (z: U128)
    requires a.Ok() && b.Ok()
    ensures z.Ok() && (a.Val() >= b.Val() ==> z.Val() == a.Val() - b.Val())
    ensures a.Val() < b.Val() ==> z.Val() == W128 + a.Val() - b.Val()
  {
    U128(U64(U64(a.v64 - b.v64) - if a.v0 < b.v0 then 1 else 0), U64(a.v0 - b.v0))
  }

  /** softfloat_mul64To128: the carries of the partial products add up to the exact product. */
  method Mul64To128(a: nat, b: nat) returns (z: U128)
    requires a < W64 && b < W64
    ensures z.Ok() && z.Val() == a * b
  {
    var a32, a0, b32, b0 := Hi32(a), U32(a), Hi32(b), U32(b);
    WordHalves(a);
    WordHalves(b);
    hide U32, Hi32;
    PartialProducts(a32, a0, b32, b0);
    var v0: nat := a0 * b0;
    var mid1: nat := a32 * b0;
    var mid := U64(mid1 + a0 * b32);
    var v64: nat := a32 * b32;
    Carries(a32 * b32, mid1, a0 * b32, a0 * b0);
    v64 := U64(v64 + ((if mid < mid1 then 1 else 0) * W32 + mid / W32));
    mid := U64(mid * W32);
    v0 := U64(v0 + mid);
    v64 := U64(v64 + if v0 < mid then 1 else 0);
    z := U128(v64, v0);
  }

  lemma WordHalves(a: nat)
    requires a < W64
    ensures a == Hi32(a) * W32 + U32(a) && Hi32(a) < W32 && U32(a) < W32
  {
  }

  lemma PartialProducts(a32: nat, a0: nat, b32: nat, b0: nat)
    requires a32 < W32 && a0 < W32 && b32 < W32 && b0 < W32
    ensures 0 <= a0 * b0 <= (W32 - 1) * (W32 - 1) && 0 <= a32 * b0 <= (W32 - 1) * (W32 - 1)
    ensures 0 <= a0 * b32 <= (W32 - 1) * (W32 - 1) && 0 <= a32 * b32 <= (W32 - 1) * (W32 - 1)
    ensures (a32 * W32 + a0) * (b32 * W32 + b0) == a32 * b32 * W64 + (a32 * b0 + a0 * b32) * W32 + a0 * b0
  {
    SmallProduct(a0, b0);
    SmallProduct(a32, b0);
    SmallProduct(a0, b32);
    SmallProduct(a32, b32);
    assert (a32 * W32 + a0) * (b32 * W32 + b0)
        == (a32 * W32) * (b32 * W32) + (a32 * W32) * b0 + a0 * (b32 * W32) + a0 * b0;
    assert (a32 * W32) * (b32 * W32) == a32 * b32 * W64;
  }

  lemma SmallProduct(x: nat, y: nat)
    requires x < W32 && y < W32
    ensures 0 <= x * y <= (W32 - 1) * (W32 - 1)
  {
    if y > 0 {
      MulOrder(x, W32 - 1, y);
    }
    MulOrder(y, W32 - 1, W32 - 1);
    assert y * (W32 - 1) == (W32 - 1) * y;
    MulNonNegative(x, y);
  }

  /** The carry out of the middle sum has the weight of the upper half of the upper word. */
  lemma Carries(hh: nat, hl: nat, lh: nat, ll: nat)
    requires hh <= (W32 - 1) * (W32 - 1) && hl <= (W32 - 1) * (W32 - 1) && lh <= (W32 - 1) * (W32 - 1) &&
      ll <= (W32 - 1) * (W32 - 1)
    ensures var mid := U64(hl + lh); var shifted := U64(mid * W32); var v0 := U64(ll + shifted);
      var up := hh + ((if mid < hl then 1 else 0) * W32 + mid / W32) + (if v0 < shifted then 1 else 0);
      up * W64 + v0 == hh * W64 + (hl + lh) * W32 + ll && up < W64
  {
    var mid := U64(hl + lh);
    var top, low := mid / W32, mid % W32;
    var carry := if mid < hl then 1 else 0;
    assert hl + lh == carry * W64 + top * W32 + low;
    LowShift(mid);
    assert (hl + lh) * W32 == (carry * W32 + top) * W64 + low * W32;
  }

  lemma LowShift(mid: nat)
    requires mid < W64
    ensures U64(mid * W32) == (mid % W32) * W32
  {
    QuotientUnique(mid * W32, W64, mid / W32);
  }

  /** softfloat_countLeadingZeros64. */
  function CountLeadingZeros64(a: nat): (n: nat)
    requires 0 < a < W64
    ensures n <= 63 && W63 <= a * Pow2(n) < W64
    decreases W64 - a
  {
    if a >= W63 then 0
    else
      var n := CountLeadingZeros64(2 * a);
      LeadingStep(a, n);
      n + 1
  }

  lemma LeadingStep(a: nat, n: nat)
    requires 0 < a && W63 <= 2 * a * Pow2(n) < W64 && n <= 63
    ensures a * Pow2(n + 1) == 2 * a * Pow2(n) && n < 63
  {
    assert a * (2 * Pow2(n)) == 2 * a * Pow2(n);
    LargePower(a, n);
  }

  lemma ProductsCommute(x: int, y: int)
    ensures x * y == y * x
  {
  }

  lemma DoubleProduct(a: int, p: int)
    ensures 2 * a * p == 2 * (a * p)
  {
  }

  lemma LargePower(a: nat, n: nat)
    requires a >= 1
    ensures n >= 63 ==> 2 * a * Pow2(n) >= W64
  {
    if n >= 63 {
      WordPower(63);
      assert Pow2(1) == 2;
      Pow2Add(63, n - 63);
      hide Pow2;
      MulOrder(1, Pow2(n - 63), Pow2(63));
      ProductsCommute(Pow2(n - 63), Pow2(63));
      MulOrder(1, a, Pow2(n));
      DoubleProduct(a, Pow2(n));
    }
  }

  /** The entry of the table for bytes. */
  function LeadingZeros8(a: nat): (n: nat)
    requires 0 < a < 256
    ensures n <= 7 && 128 <= a * Pow2(n) < 256
    decreases 256 - a
  {
    if a >= 128 then 0
    else
      var n := LeadingZeros8(2 * a);
      ByteStep(a, n);
      n + 1
  }

  lemma ByteStep(a: nat, n: nat)
    requires 0 < a && 128 <= 2 * a * Pow2(n) < 256 && n <= 7
    ensures a * Pow2(n + 1) == 2 * a * Pow2(n) && n < 7
  {
    assert Pow2(7) == 128;
    var p := Pow2(n);
    assert Pow2(n + 1) == 2 * p;
    hide Pow2;
    DoubleProduct(a, p);
    ProductsCommute(a, 2 * p);
    MulOrder(1, a, p);
  }

  /** softfloat_countLeadingZeros32: two halvings and a table of bytes. */
  method CountLeadingZeros32(a0: nat) returns (count: nat)
    requires 0 < a0 < W32
    ensures count <= 31 && W32 / 2 <= a0 * Pow2(count) < W32
  {
    var a := a0;
    count := 0;
    if a < 0x1_0000 {
      count := 16;
      a := U32(a * 0x1_0000);
    }
    if a < 0x100_0000 {
      count := count + 8;
      a := U32(a * 0x100);
    }
    ghost var shift := count;
    var top := a / 0x100_0000;
    count := count + LeadingZeros8(top);
    TableShift(a0, a, shift, LeadingZeros8(top));
  }

  lemma TableShift(a0: nat, a: nat, shift: nat, n: nat)
    requires shift <= 24 && 0 < a < W32 && n <= 7 && 128 <= a / 0x100_0000 * Pow2(n) < 256
    requires (shift == 0 && a == a0) || (shift == 8 && a == a0 * 0x100) || (shift == 16 && a == a0 * 0x1_0000) ||
      (shift == 24 && a == a0 * 0x100_0000)
    ensures W32 / 2 <= a0 * Pow2(shift + n) < W32
  {
    SmallPowers();
    Pow2Add(shift, n);
    Pow2Add(n, 8 - n);
    hide Pow2;
    ByteFits(a, Pow2(n), Pow2(8 - n));
    Reassociate(a0, Pow2(shift), Pow2(n), a);
  }

  lemma Reassociate(a0: int, q: int, p: int, a: int)
    requires a == a0 * q
    ensures a0 * (q * p) == a * p
  {
  }

  lemma SmallPowers()
    ensures Pow2(0) == 1 && Pow2(8) == 0x100 && Pow2(16) == 0x1_0000 && Pow2(24) == 0x100_0000
  {
    Pow2Add(8, 8);
    Pow2Add(16, 8);
  }

  lemma ByteFits(a: nat, p: nat, r: nat)
    requires a < W32 && 128 <= a / 0x100_0000 * p < 256 && p * r == 256 && r > 0
    ensures W32 / 2 <= a * p < W32
  {
    var t, low := a / 0x100_0000, a % 0x100_0000;
    assert a * p == t * p * 0x100_0000 + low * p;
    assert r * p == p * r;
    MulOrder(t, r, p);
    MulOrder(r, t, p);
    MulOrder(low + 1, 0x100_0000, p);
    MulNonNegative(low, p);
    assert (low + 1) * p == low * p + p;
    assert t * p + p <= 256;
  }
}
