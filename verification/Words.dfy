/** Unsigned machine words as integers with explicit wrap-around. */
module Words {

  const P23 := 0x80_0000
  const P28 := 0x1000_0000
  const P29 := 0x2000_0000
  const P30 := 0x4000_0000
  const P31 := 0x8000_0000
  const P52 := 0x10_0000_0000_0000
  const P53 := 0x20_0000_0000_0000
  const P61 := 0x2000_0000_0000_0000
  const P62 := 0x4000_0000_0000_0000
  const W32 := 0x1_0000_0000
  const W63 := 0x8000_0000_0000_0000
  const W64 := 0x1_0000_0000_0000_0000

  function U32(x: int): (r: nat)
    ensures r < W32 && (0 <= x < W32 ==> r == x)
  {
    x % W32
  }

  function U64(x: int): (r: nat)
    ensures r < W64 && (0 <= x < W64 ==> r == x)
  {
    x % W64
  }

  function Hi32(x: nat): nat { x / W32 }

  /** A difference that is a whole number of words does not show. */
  lemma Wraps64(x: int, y: int, k: int)
    requires x == y + k * W64
    ensures U64(x) == U64(y)
  {
  }

  /** Wrapping before a multiplication and a subtraction changes nothing. */
  lemma WrapInside64(a: int, k: int, c: int)
    ensures U64(U64(a) * k - c) == U64(a * k - c)
  {
    var n := a / W64;
    assert a == U64(a) + n * W64;
    assert a * k == U64(a) * k + (n * k) * W64;
    Wraps64(a * k - c, U64(a) * k - c, n * k);
  }

  lemma WrapFirst64(a: int, c: int)
    ensures U64(U64(a) - c) == U64(a - c)
  {
    Wraps64(a - c, U64(a) - c, a / W64);
  }
}
