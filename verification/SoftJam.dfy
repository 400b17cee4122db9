/**
 Shifting with a sticky bit.  A jammed value is never on the wrong side of an even number, and this
 survives everything that is done with it before rounding.
*/
module SoftJam {
  import opened Arith
  import opened Words
  import opened SoftRounding

  /** The lowest bit of q set if sticky holds. */
  function Or1(q: nat, sticky: bool): nat { if sticky && q % 2 == 0 then q + 1 else q }

  /** x / d with the lost part jammed into the lowest bit. */
  function Jam(x: nat, d: nat): nat
    requires d > 0
  {
    Division(x, d);
    MulOrder(x / d, -1, d);
    Or1(x / d, x % d != 0)
  }

  /** A jammed quotient compares with even numbers as the exact one does. */
  lemma JamSameSide(x: nat, d: nat)
    requires d > 0
    ensures SameSide(Jam(x, d), x, d, 2)
  {
    var q := x / d;
    Division(x, d);
    if x % d == 0 {
      SameValue(q, x, d, 2);
    } else {
      var m := q / 2;
      EvenBounds(q, m, x, d);
      SameGap(Jam(x, d), x, d, 2, m);
    }
  }

  lemma EvenBounds(q: int, m: int, x: int, d: int)
    requires d > 0 && q * d < x < q * d + d && m == q / 2
    ensures m * 2 * d < x < (m + 1) * 2 * d && m * 2 <= q < (m + 1) * 2
  {
    MulOrder(m * 2, q, d);
    MulOrder(q, (m + 1) * 2, d);
  }

  /** Jamming a value that already stands for another one. */
  lemma Compose(w: int, z: int, e: int, unit: nat, n: int, d: int, finer: nat, j: int)
    requires SameSide(w, z, e, unit) && SameSide(z, n, d, finer) && unit * e == j * finer
    ensures SameSide(w, n, d * e, unit)
  {
    forall k: int ensures AgreeAt(w, n, d * e, unit, k) {
      assert AgreeAt(w, z, e, unit, k) && AgreeAt(z, n, d, finer, k * j);
      assert k * unit * e == k * j * finer by {
        assert k * unit * e == k * (unit * e) && k * j * finer == k * (j * finer);
      }
      assert k * unit * (d * e) == k * j * finer * d by {
        assert k * unit * (d * e) == (k * unit * e) * d;
      }
    }
  }

  /** Adding a multiple of the unit. */
  lemma Raise(z: int, n: int, d: int, unit: nat, i: int)
    requires SameSide(z, n, d, unit)
    ensures SameSide(z + i * unit, n + i * unit * d, d, unit)
  {
    var z1, n1 := z + i * unit, n + i * unit * d;
    forall k: int ensures AgreeAt(z1, n1, d, unit, k) {
      assert AgreeAt(z, n, d, unit, k - i);
      assert (k - i) * unit == k * unit - i * unit;
      assert (k - i) * unit * d == k * unit * d - i * unit * d;
    }
  }

  /** Taking from a multiple of the unit. */
  lemma TakeFrom(z: int, n: int, d: int, unit: nat, i: int)
    requires SameSide(z, n, d, unit)
    ensures SameSide(i * unit - z, i * unit * d - n, d, unit)
  {
    var z1, n1 := i * unit - z, i * unit * d - n;
    forall k: int ensures AgreeAt(z1, n1, d, unit, k) {
      assert AgreeAt(z, n, d, unit, i - k);
      assert (i - k) * unit == i * unit - k * unit;
      assert (i - k) * unit * d == i * unit * d - k * unit * d;
    }
  }

  /** Scaling both. */
  lemma ScaleUp(z: int, n: int, d: int, unit: nat, s: nat)
    requires s > 0 && SameSide(z, n, d, unit)
    ensures SameSide(z * s, n * s, d, unit * s)
  {
    forall k: int ensures AgreeAt(z * s, n * s, d, unit * s, k) {
      assert AgreeAt(z, n, d, unit, k);
      assert k * (unit * s) == k * unit * s && k * (unit * s) * d == k * unit * d * s;
      MulOrder(z, k * unit, s);
      MulOrder(k * unit, z, s);
      MulOrder(n, k * unit * d, s);
      MulOrder(k * unit * d, n, s);
    }
  }

  /** Extending and reducing the fraction. */
  lemma SameFraction(z: int, n: int, d: int, unit: nat, j: int)
    requires j > 0
    ensures SameSide(z, n * j, d * j, unit) <==> SameSide(z, n, d, unit)
  {
    forall k: int ensures AgreeAt(z, n * j, d * j, unit, k) <==> AgreeAt(z, n, d, unit, k) {
      assert k * unit * (d * j) == k * unit * d * j;
      MulOrder(n, k * unit * d, j);
      MulOrder(k * unit * d, n, j);
    }
    if SameSide(z, n, d, unit) {
      forall k: int ensures AgreeAt(z, n * j, d * j, unit, k) {
        assert AgreeAt(z, n, d, unit, k);
      }
    }
    if SameSide(z, n * j, d * j, unit) {
      forall k: int ensures AgreeAt(z, n, d, unit, k) {
        assert AgreeAt(z, n * j, d * j, unit, k);
      }
    }
  }

  // ---- values with an exponent ----

  /** z times two to the e stands for n times two to the l. */
  ghost predicate Stands(z: int, e: int, n: int, l: int, unit: nat) {
    e >= l && SameSide(z, n, Pow2(e - l), unit)
  }

  lemma StandsExactly(z: int, e: int, l: int, unit: nat)
    requires e >= l
    ensures Stands(z, e, z * Pow2(e - l), l, unit)
  {
    SameValue(z, z * Pow2(e - l), Pow2(e - l), unit);
  }

  lemma StandsJammed(z: nat, e: int, n: int, l: int, finer: nat, s: nat, unit: nat)
    requires Stands(z, e, n, l, finer) && (unit == 2 || unit == 4 || unit == 8 || unit == 16)
    requires finer > 0 && (unit * Pow2(s)) % finer == 0
    ensures Stands(Jam(z, Pow2(s)), e + s, n, l, unit)
  {
    var w := Jam(z, Pow2(s));
    JamSameSide(z, Pow2(s));
    CoarserSameSide(w, z, Pow2(s), 2, unit / 2);
    var j := (unit * Pow2(s)) / finer;
    Division(unit * Pow2(s), finer);
    Compose(w, z, Pow2(s), unit, n, Pow2(e - l), finer, j);
    Pow2Add(e - l, s);
  }

  /** Shifting left, with the exponent going down. */
  lemma StandsShifted(z: int, e: int, n: int, l: int, unit: nat, s: nat)
    requires Stands(z, e, n, l, unit) && e - s >= l
    ensures Stands(z * Pow2(s), e - s, n, l, unit * Pow2(s))
  {
    ScaleUp(z, n, Pow2(e - l), unit, Pow2(s));
    Pow2Add(e - s - l, s);
    SameFraction(z * Pow2(s), n, Pow2(e - s - l), unit * Pow2(s), Pow2(s));
  }

  /** Adding or taking away an exact multiple of the unit. */
  lemma StandsSum(z: int, e: int, n: int, l: int, unit: nat, i: int)
    requires Stands(z, e, n, l, unit)
    ensures Stands(i * unit + z, e, i * unit * Pow2(e - l) + n, l, unit)
    ensures Stands(i * unit - z, e, i * unit * Pow2(e - l) - n, l, unit)
  {
    Raise(z, n, Pow2(e - l), unit, i);
    TakeFrom(z, n, Pow2(e - l), unit, i);
  }

  lemma StandsCoarser(z: int, e: int, n: int, l: int, unit: nat, j: nat)
    requires Stands(z, e, n, l, unit)
    ensures Stands(z, e, n, l, j * unit)
  {
    CoarserSameSide(z, n, Pow2(e - l), unit, j);
  }

  /** A jammed quotient lies between the same even numbers. */
  lemma JamBetween(x: nat, d: nat, lo: nat, hi: nat)
    requires d > 0 && 2 * lo * d <= x < 2 * hi * d
    ensures 2 * lo <= Jam(x, d) < 2 * hi
  {
    JamSameSide(x, d);
    assert AgreeAt(Jam(x, d), x, d, 2, lo) && AgreeAt(Jam(x, d), x, d, 2, hi);
    assert lo * 2 * d == 2 * lo * d && hi * 2 * d == 2 * hi * d;
  }

  lemma StandsPositive(z: int, e: int, n: int, l: int, unit: nat)
    requires Stands(z, e, n, l, unit)
    ensures (z > 0 <==> n > 0) && (z == 0 <==> n == 0)
  {
    assert AgreeAt(z, n, Pow2(e - l), unit, 0);
  }
}
