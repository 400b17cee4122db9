/** Quotient digits estimated with the 32-bit reciprocal of the divisor's upper half. */
module SoftReciprocal {
  import opened Arith
  import opened Words

  /** The reciprocal macro; its argument has its top bit set. */
  function ApproxRecip32(a: nat): (r: nat)
    requires W32 / 2 <= a < W32
    ensures r * a < W63 <= r * a + a && W32 / 2 <= r < W32
  {
    RecipBounds(a, (W63 - 1) / a);
    U32((W63 - 1) / a)
  }

  lemma RecipBounds(a: nat, q: int)
    requires W32 / 2 <= a < W32 && q == (W63 - 1) / a
    ensures q * a < W63 <= q * a + a && W32 / 2 <= q < W32
  {
    Division(W63 - 1, a);
    MulOrder(q, W32 - 1, a);
    MulOrder(W32, q, a);
    MulOrder(q, W32 / 2 - 1, a);
  }

  /** The digit x is estimated to contain: the product of upper halves. */
  function Digit(x: nat, recip: nat): nat { Hi32(Hi32(x) * recip) }

  /** The estimate never exceeds the quotient 2^31 x / b ... */
  lemma DigitBelow(x: nat, b: nat, recip: nat)
    requires W63 <= b < W64 && recip == ApproxRecip32(Hi32(b)) - 2
    ensures Digit(x, recip) * b <= 0x8000_0000 * x && (x > 0 ==> Digit(x, recip) * b < 0x8000_0000 * x)
  {
    MulNonNegative(Hi32(x), recip);
    RecipSmall(Hi32(b), recip);
    hide ApproxRecip32;
    ProductBelow(Hi32(x), Hi32(b), recip);
    var p := Hi32(x) * recip;
    DigitOfProduct(p, b);
    UpperBelow(Digit(x, recip) * b, x, p);
  }

  lemma RecipSmall(bh: nat, recip: nat)
    requires W32 / 2 <= bh < W32 && recip == ApproxRecip32(bh) - 2
    ensures recip * (bh + 1) < W63
  {
    var r := ApproxRecip32(bh);
    hide ApproxRecip32;
    assert (r - 2) * (bh + 1) == r * bh - 2 * bh + (r - 2);
  }

  lemma ProductBelow(xh: nat, bh: nat, recip: nat)
    requires recip * (bh + 1) < W63 && xh * recip >= 0
    ensures (xh * recip) * (bh + 1) <= xh * W63
  {
    assert (xh * recip) * (bh + 1) == (recip * (bh + 1)) * xh;
    if xh > 0 {
      MulOrder(recip * (bh + 1), W63, xh);
    }
  }

  /** The upper half of a product, times b, against the product times the upper half of b. */
  lemma DigitOfProduct(p: nat, b: nat)
    requires b > 0
    ensures Hi32(p) * b * W32 <= p * (Hi32(b) + 1) * W32 && (p > 0 ==> Hi32(p) * b * W32 < p * (Hi32(b) + 1) * W32)
  {
    var d, bh := Hi32(p), Hi32(b);
    assert d * W32 <= p && b < (bh + 1) * W32;
    hide Hi32;
    MulOrder(d * W32, p, b);
    WordOut(d, b);
    if p > 0 {
      MulOrder(b, (bh + 1) * W32, p);
      WordOut(bh + 1, p);
      Commute(b, p);
      Commute(bh + 1, p);
    }
  }

  lemma WordOut(x: int, y: int)
    ensures x * W32 * y == x * y * W32
  {
  }

  lemma Commute(x: int, y: int)
    ensures x * y == y * x
  {
  }

  lemma UpperBelow(product: int, x: nat, p: nat)
    requires product * W32 <= Hi32(x) * W63 * W32 && (p > 0 ==> product * W32 < Hi32(x) * W63 * W32)
    requires p == 0 ==> product == 0
    ensures product <= 0x8000_0000 * x && (x > 0 ==> product < 0x8000_0000 * x)
  {
  }

  /** ... and falls short of it by a small known amount. */
  lemma DigitAbove(x: nat, b: nat, recip: nat)
    requires W63 <= b < W64 && recip == ApproxRecip32(Hi32(b)) - 2
    ensures 0x8000_0000 * x < (Digit(x, recip) + 1) * b + W63 + 3 * (Hi32(b) * Hi32(x))
  {
    hide ApproxRecip32;
    MulNonNegative(Hi32(x), recip);
    ProductAbove(Hi32(x), Hi32(b), recip);
    NextDigit(Hi32(x) * recip, b);
  }

  lemma ProductAbove(xh: nat, bh: nat, recip: nat)
    requires W32 / 2 <= bh < W32 && recip == ApproxRecip32(bh) - 2
    ensures xh * recip * bh >= xh * W63 - 3 * (bh * xh)
  {
    assert recip * bh == ApproxRecip32(bh) * bh - 2 * bh;
    var gap := recip * bh - (W63 - 3 * bh);
    assert gap >= 0;
    MulNonNegative(gap, xh);
    Expand(xh, bh, recip, gap);
  }

  lemma Expand(xh: int, bh: int, recip: int, gap: int)
    requires recip * bh == W63 - 3 * bh + gap
    ensures xh * recip * bh == xh * W63 - 3 * (bh * xh) + gap * xh
  {
    assert xh * recip * bh == (recip * bh) * xh;
    assert (W63 - 3 * bh + gap) * xh == xh * W63 - 3 * (bh * xh) + gap * xh;
  }

  lemma NextDigit(p: nat, b: nat)
    requires b > 0
    ensures (Hi32(p) + 1) * b > p * Hi32(b)
  {
    var d, bh := Hi32(p), Hi32(b);
    assert p < (d + 1) * W32 && bh * W32 <= b;
    hide Hi32;
    MulOrder(p, (d + 1) * W32, b);
    WordOut(d + 1, b);
    if p > 0 {
      MulOrder(bh * W32, b, p);
      WordOut(bh, p);
      Commute(bh, p);
      Commute(b, p);
    }
  }
}
