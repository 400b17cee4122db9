/**
 What a significand must tell the rounding step.  A computed significand z stands for the exact value
 n / d if it lies on the same side of every half unit, or exactly on it; the result is then the
 correctly rounded one in every rounding mode.
*/
module SoftRounding {
  import opened Arith

  /** z compares with boundary k * unit as n / d does. */
  predicate AgreeAt(z: int, n: int, d: int, unit: nat, k: int) {
    && (z < k * unit <==> n < k * unit * d)
    && (z == k * unit <==> n == k * unit * d)
  }

  ghost predicate SameSide(z: int, n: int, d: int, unit: nat) {
    forall k: int :: AgreeAt(z, n, d, unit, k)
  }

  /** The rounding modes of section 4.3 of IEEE 754-2008. */
  datatype Mode = NearEven | NearMaxMag | TowardZero | Down | Up

  /** Where a value lies between two neighbouring results. */
  datatype Position = Exact | BelowHalf | Half | AboveHalf

  /** The result: the lower neighbour, or the one above it. */
  function Choose(mode: Mode, negative: bool, lower: int, position: Position): int {
    if position.Exact? then lower
    else match mode
      case NearEven => if position.AboveHalf? || (position.Half? && lower % 2 == 1) then lower + 1 else lower
      case NearMaxMag => if position.BelowHalf? then lower else lower + 1
      case TowardZero => lower
      case Down => if negative then lower + 1 else lower
      case Up => if negative then lower else lower + 1
  }

  function Locate(rest: int, half: int): Position {
    if rest == 0 then Exact else if rest < half then BelowHalf else if rest == half then Half else AboveHalf
  }

  /** n / d rounded to a multiple of two units, counted in such multiples. */
  function Round(mode: Mode, negative: bool, n: nat, d: nat, unit: nat): int
    requires d > 0 && unit > 0
  {
    MulSign(unit, d);
    Choose(mode, negative, n / (2 * (unit * d)), Locate(n % (2 * (unit * d)), unit * d))
  }

  /** Every mode rounds the computed significand to what it rounds the exact value to. */
  lemma SameSideRoundsSame(mode: Mode, negative: bool, z: nat, n: nat, d: nat, unit: nat)
    requires d > 0 && unit > 0 && SameSide(z, n, d, unit)
    ensures Round(mode, negative, z, 1, unit) == Round(mode, negative, n, d, unit)
  {
    var lower := z / (2 * unit);
    assert AgreeAt(z, n, d, unit, 2 * lower) && AgreeAt(z, n, d, unit, 2 * lower + 1) &&
      AgreeAt(z, n, d, unit, 2 * lower + 2);
    hide SameSide, AgreeAt;
    Division(z, 2 * unit);
    Boundaries(lower, unit, d);
    Boundaries(lower, unit, 1);
    SamePosition(z, n, d, unit, lower);
  }

  /** The boundaries around the lower neighbour. */
  lemma Boundaries(lower: int, unit: nat, d: nat)
    ensures 2 * lower * unit * d == lower * (2 * (unit * d))
    ensures (2 * lower + 1) * unit * d == lower * (2 * (unit * d)) + unit * d
    ensures (2 * lower + 2) * unit * d == lower * (2 * (unit * d)) + 2 * (unit * d)
  {
    Distribute(2 * lower, unit, d, 0);
    Distribute(2 * lower, unit, d, 1);
    Distribute(2 * lower, unit, d, 2);
  }

  lemma Distribute(a: int, unit: int, d: int, j: int)
    ensures (a + j) * unit * d == a * (unit * d) + j * (unit * d)
  {
  }

  lemma SamePosition(z: nat, n: nat, d: nat, unit: nat, lower: nat)
    requires d > 0 && unit > 0 && lower * (2 * unit) <= z < lower * (2 * unit) + 2 * unit
    requires AgreeAt(z, n, d, unit, 2 * lower) && AgreeAt(z, n, d, unit, 2 * lower + 1) &&
      AgreeAt(z, n, d, unit, 2 * lower + 2)
    ensures n / (2 * (unit * d)) == lower == z / (2 * (unit * 1))
    ensures Locate(n % (2 * (unit * d)), unit * d) == Locate(z % (2 * (unit * 1)), unit * 1)
  {
    var half := unit * d;
    MulSign(unit, d);
    Boundaries(lower, unit, d);
    Boundaries(lower, unit, 1);
    assert (2 * lower) * unit == lower * (2 * unit) && (2 * lower + 1) * unit == lower * (2 * unit) + unit
        && (2 * lower + 2) * unit == lower * (2 * unit) + 2 * unit;
    QuotientUnique(z, 2 * unit, lower);
    QuotientUnique(n, 2 * half, lower);
  }

  /** Agreement at every half unit is agreement at every multiple of it, which settles subnormal results. */
  lemma CoarserSameSide(z: int, n: int, d: int, unit: nat, j: nat)
    requires SameSide(z, n, d, unit)
    ensures SameSide(z, n, d, j * unit)
  {
    forall k: int ensures AgreeAt(z, n, d, j * unit, k) {
      assert AgreeAt(z, n, d, unit, k * j);
      MulAssociates(k, j, unit);
    }
  }

  lemma MulAssociates(a: int, b: int, c: int)
    ensures a * b * c == a * (b * c)
  {
  }

  /** Both lie strictly between two neighbouring boundaries. */
  lemma SameGap(z: int, n: int, d: int, unit: nat, m: int)
    requires d > 0 && unit > 0 && m * unit < z < (m + 1) * unit && m * unit * d < n < (m + 1) * unit * d
    ensures SameSide(z, n, d, unit)
  {
    forall k: int ensures AgreeAt(z, n, d, unit, k) {
      MulOrder(k, m, unit);
      MulOrder(m + 1, k, unit);
      MulOrder(k * unit, m * unit, d);
      MulOrder((m + 1) * unit, k * unit, d);
    }
  }

  /** An exact significand. */
  lemma SameValue(z: int, n: int, d: int, unit: nat)
    requires d > 0 && n == z * d
    ensures SameSide(z, n, d, unit)
  {
    forall k: int ensures AgreeAt(z, n, d, unit, k) {
      MulOrder(z, k * unit, d);
      MulOrder(k * unit, z, d);
    }
  }
}
