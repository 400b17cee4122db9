/** The remainder of section 5.3.1 of IEEE 754-2008, for integers in a common scale. */
module SoftRemainder {
  import opened Arith

  function Abs(x: int): nat { if x < 0 then -x else x }

  /** r is x minus n times b, n being the integer nearest to x / b, and even on a tie. */
  predicate RemainderBy(x: int, b: int, r: int, n: int) {
    x == r + n * b && 2 * Abs(r) <= b && (2 * Abs(r) == b ==> n % 2 == 0)
  }

  ghost predicate IsRemainder(x: int, b: int, r: int) {
    exists n: int :: RemainderBy(x, b, r, n)
  }

  /** There is only one remainder. */
  lemma RemainderUnique(x: int, b: int, r: int, s: int)
    requires b > 0 && IsRemainder(x, b, r) && IsRemainder(x, b, s)
    ensures r == s
  {
    var n: int :| RemainderBy(x, b, r, n);
    var m: int :| RemainderBy(x, b, s, m);
    assert r - s == (m - n) * b;
    MulSign(m - n, b);
    MulSign(m - n - 1, b);
    MulSign(m - n + 1, b);
    assert (m - n - 1) * b == r - s - b && (m - n + 1) * b == r - s + b;
    assert -1 <= m - n <= 1;
  }

  /** Of the two candidates alt and alt - b the one chosen by the doubled middle and the parity of q. */
  lemma Selected(x: int, b: int, alt: int, n: int)
    requires b > 0 && 0 <= alt < b && x == alt + n * b
    ensures var takeAlt := 2 * alt - b < 0 || (2 * alt - b == 0 && (n + 1) % 2 == 1);
      if takeAlt then RemainderBy(x, b, alt, n) else RemainderBy(x, b, alt - b, n + 1)
  {
    assert (n + 1) * b == n * b + b;
  }

  /** A dividend below half the divisor is its own remainder. */
  lemma OwnRemainder(x: int, b: int)
    requires 2 * Abs(x) < b
    ensures RemainderBy(x, b, x, 0)
  {
  }
}
