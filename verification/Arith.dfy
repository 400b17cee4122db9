/** Products and quotients of integers. */
module Arith {

  /** Multiplying by a positive number keeps the order, with a gap of at least that number. */
  lemma MulOrder(a: int, b: int, k: int)
    requires k > 0
    ensures a < b ==> a * k + k <= b * k
    ensures a <= b ==> a * k <= b * k
    ensures a * k < b * k ==> a < b
    ensures a * k == b * k ==> a == b
  {
    var d := b - a;
    assert b * k == a * k + d * k;
    MulSign(d, k);
  }

  lemma MulSign(d: int, k: int)
    requires k > 0
    ensures d > 0 ==> d * k >= k
    ensures d == 0 ==> d * k == 0
    ensures d < 0 ==> d * k <= -k
  {
  }

  lemma MulNonNegative(a: int, b: int)
    requires a >= 0 && b >= 0
    ensures a * b >= 0
  {
  }

  lemma Division(n: int, k: int)
    requires k > 0
    ensures (n / k) * k <= n < (n / k) * k + k && n == (n / k) * k + n % k
  {
  }

  lemma QuotientUnique(n: int, k: int, q: int)
    requires k > 0 && q * k <= n < q * k + k
    ensures n / k == q && n % k == n - q * k
  {
    Division(n, k);
    MulOrder(n / k, q, k);
    MulOrder(q, n / k, k);
  }

  lemma ModZero(q: int, k: int)
    requires k > 0
    ensures (q * k) % k == 0 && (q * k) / k == q
  {
    QuotientUnique(q * k, k, q);
  }

  function Pow2(n: nat): (r: nat)
    ensures r >= 1
  {
    if n == 0 then 1 else 2 * Pow2(n - 1)
  }

  lemma {:induction false} Pow2Add(a: nat, b: nat)
    ensures Pow2(a + b) == Pow2(a) * Pow2(b)
  {
    if a > 0 {
      Pow2Add(a - 1, b);
      assert Pow2(a + b) == 2 * (Pow2(a - 1) * Pow2(b));
      assert Pow2(a) * Pow2(b) == 2 * Pow2(a - 1) * Pow2(b);
    }
  }

  lemma Pow2Small()
    ensures Pow2(6) == 64 && Pow2(7) == 128 && Pow2(9) == 512 && Pow2(10) == 1024
    ensures Pow2(29) == 0x2000_0000 && Pow2(32) == 0x1_0000_0000
  {
    assert Pow2(5) == 32;
    assert Pow2(10) == 1024;
    Pow2Add(10, 10);
    Pow2Add(9, 20);
    Pow2Add(12, 20);
  }
}
