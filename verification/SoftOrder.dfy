/**
 What rounding means (section 4.3 of IEEE 754-2008), said by the order of the numbers of the format alone: no number
 of the format lies between a result and the exact value on the side a mode rounds to, and none is nearer.
*/
module SoftOrder {
  import opened Arith
  import opened Words
  import opened SoftRounding
  import opened SoftMulAdd64
  import opened SoftWord

  // ---- the laws ----

  /** The number, in units of two to the SCALE. */
  function Value(z: Double): int { Signed(z.sign, AddendOf(z)) }

  /** Compared with the exact value, the fraction n / d with its sign. */
  predicate AtMost(y: Double, negative: bool, n: nat, d: nat) { Value(y) * d <= Signed(negative, n) }

  predicate AtLeast(y: Double, negative: bool, n: nat, d: nat) { Value(y) * d >= Signed(negative, n) }

  /** The greatest number that is not above the exact value; minus infinity if there is none. */
  ghost predicate RoundsDown(negative: bool, n: nat, d: nat, z: Double) {
    if z.IsFinite() then
      AtMost(z, negative, n, d) && forall y: Double :: y.IsFinite() && AtMost(y, negative, n, d) ==>
          Value(y) <= Value(z)
    else IsInfinite(z) && z.sign && forall y: Double :: y.IsFinite() ==> !AtMost(y, negative, n, d)
  }

  /** The least number that is not below the exact value; infinity if there is none. */
  ghost predicate RoundsUp(negative: bool, n: nat, d: nat, z: Double) {
    if z.IsFinite() then
      AtLeast(z, negative, n, d) &&
      forall y: Double :: y.IsFinite() && AtLeast(y, negative, n, d) ==> Value(y) >= Value(z)
    else IsInfinite(z) && !z.sign && forall y: Double :: y.IsFinite() ==> !AtLeast(y, negative, n, d)
  }

  /** The greatest magnitude that is not above that of the exact value. */
  ghost predicate RoundsToZero(n: nat, d: nat, z: Double) {
    && z.IsFinite() && AddendOf(z) * d <= n
    && forall y: Double :: y.IsFinite() && AddendOf(y) * d <= n ==> AddendOf(y) <= AddendOf(z)
  }

  function Distance(y: Double, negative: bool, n: nat, d: nat): nat {
    var x := Value(y) * d - Signed(negative, n); if x < 0 then 0 - x else x
  }

  /** z is nearer than y, or as near and preferred. */
  predicate Preferred(mode: Mode, negative: bool, n: nat, d: nat, z: Double, y: Double) {
    || Distance(z, negative, n, d) < Distance(y, negative, n, d)
    || (Distance(z, negative, n, d) == Distance(y, negative, n, d) &&
        (Value(y) == Value(z) || if mode.NearEven? then z.frac % 2 == 0 else AddendOf(z) > AddendOf(y)))
  }

  const ONE := Double(false, 0x3FF, 0)

  const LARGEST := Double(false, 0x7FE, P52 - 1)

  /** Twice the largest number and half a unit of its last place. */
  function TwiceLimit(): nat { 2 * AddendOf(LARGEST) + 512 * Pow2(0x7FE - SCALE) }

  /** The nearest number; an infinity from half a unit beyond the largest number on. */
  ghost predicate RoundsNear(mode: Mode, negative: bool, n: nat, d: nat, z: Double) {
    if z.IsFinite() then
      2 * n < TwiceLimit() * d && forall y: Double :: y.IsFinite() ==> Preferred(mode, negative, n, d, z, y)
    else IsInfinite(z) && 2 * n >= TwiceLimit() * d
  }

  /** z is the exact value rounded. */
  ghost predicate RoundsTo(mode: Mode, negative: bool, n: nat, d: nat, z: Double) {
    z.sign == negative &&
    match mode
    case NearEven | NearMaxMag => RoundsNear(mode, negative, n, d, z)
    case TowardZero => RoundsToZero(n, d, z)
    case Down => RoundsDown(negative, n, d, z)
    case Up => RoundsUp(negative, n, d, z)
  }

  // ---- numbers in the order of their words ----

  /** The number whose word, without the sign, is k; the word of the infinity stands for the next power of two. */
  function Nth(negative: bool, k: nat): Double { Double(negative, k / P52, k % P52) }

  const INFINITE := 0x7FF * P52

  function Val(k: nat): nat { AddendOf(Nth(false, k)) }

  function UnitOf(exp: nat): (u: nat)
    ensures u > 0
  {
    512 * Pow2((if exp == 0 then 1 else exp) - SCALE)
  }

  lemma NextVal(k: nat)
    ensures Val(k + 1) == Val(k) + UnitOf(k / P52)
  {
    var e := k / P52;
    NextFields(k);
    var x := if e == 0 then 1 else e;
    assert Pow2(x + 1 - SCALE) == 2 * Pow2(x - SCALE);
    hide Pow2;
    Successor(Nth(false, k).Sig(), Pow2(x - SCALE));
  }

  lemma NextFields(k: nat)
    ensures var z, y := Nth(false, k), Nth(false, k + 1);
      if k % P52 + 1 < P52 then y.Exp() == z.Exp() && y.Sig() == z.Sig() + 1
      else y.exp == z.exp + 1 && y.frac == 0 && z.frac == P52 - 1
  {
  }

  lemma Successor(s: nat, p: nat)
    ensures (s + 1) * 512 * p == s * 512 * p + 512 * p
    ensures s + 1 == P53 ==> P52 * 512 * (2 * p) == s * 512 * p + 512 * p
  {
  }

  lemma {:induction false} ValOrder(i: nat, j: nat)
    requires i <= j
    ensures Val(i) <= Val(j) && (i < j ==> Val(i) < Val(j))
    decreases j - i
  {
    hide Val, UnitOf;
    if i < j {
      NextVal(j - 1);
      ValOrder(i, j - 1);
    }
  }

  /** Every number of the format is one of them. */
  lemma EveryNumber(y: Double) returns (k: nat)
    requires y.IsFinite()
    ensures k < INFINITE && AddendOf(y) == Val(k) && Nth(y.sign, k) == y
  {
    k := y.exp * P52 + y.frac;
    assert k / P52 == y.exp && k % P52 == y.frac;
  }

  // ---- between two neighbours ----

  /** The exact value lies between the k-th number and the next one. */
  predicate Between(k: nat, n: nat, d: nat) { d > 0 && k < INFINITE && Val(k) * d <= n < Val(k + 1) * d }

  /** a and a * d are as the numbers are: below lo, equal to it, or not below hi. */
  predicate Placed(a: nat, ad: nat, lo: nat, hi: nat, lod: nat, hid: nat) {
    (a < lo && ad < lod) || (a == lo && ad == lod) || (a == hi && ad == hid) || (a > hi && ad > hid)
  }

  /** No number of the format lies strictly between neighbours. */
  lemma Around(y: Double, k: nat, negative: bool, n: nat, d: nat)
    requires y.IsFinite() && d > 0
    ensures Placed(AddendOf(y), AddendOf(y) * d, Val(k), Val(k + 1), Val(k) * d, Val(k + 1) * d)
    ensures Value(y) == Signed(y.sign, AddendOf(y))
    ensures AtMost(y, negative, n, d) <==> Signed(y.sign, AddendOf(y) * d) <= Signed(negative, n)
    ensures AtLeast(y, negative, n, d) <==> Signed(y.sign, AddendOf(y) * d) >= Signed(negative, n)
    ensures Distance(y, negative, n, d) == Apart(Signed(y.sign, AddendOf(y) * d), Signed(negative, n))
  {
    var j := EveryNumber(y);
    hide Val, AddendOf;
    if j < k {
      ValOrder(j, k);
      MulOrder(AddendOf(y), Val(k), d);
    } else if j > k + 1 {
      ValOrder(k + 1, j);
      MulOrder(Val(k + 1), AddendOf(y), d);
    }
    SignedProduct(y.sign, AddendOf(y), d);
  }

  function Apart(x: int, y: int): nat { if x < y then y - x else x - y }

  /** The neighbours and their products. */
  lemma Neighbours(k: nat, d: nat)
    requires d > 0
    ensures Val(k) < Val(k + 1) && Val(k) * d < Val(k + 1) * d && (Val(k) == 0 <==> Val(k) * d == 0)
    ensures Val(k) == 0 <==> k == 0
  {
    FirstVal(k);
    MulOrder(Val(k), Val(k + 1), d);
    if Val(k) > 0 {
      MulSign(Val(k), d);
    }
  }

  lemma SignedProduct(negative: bool, a: nat, d: nat)
    ensures Signed(negative, a) * d == Signed(negative, a * d)
  {
    assert (0 - a) * d == 0 - a * d;
  }

  lemma NthValue(negative: bool, k: nat)
    ensures AddendOf(Nth(negative, k)) == Val(k) && Value(Nth(negative, k)) == Signed(negative, Val(k))
    ensures Nth(negative, k).IsFinite() <==> k < INFINITE
    ensures k == INFINITE ==> IsInfinite(Nth(negative, k))
  {
    hide Pow2;
  }

  /** Twice the exact value against the middle between the neighbours. */
  function Middle(k: nat, d: nat): nat { Val(k) * d + Val(k + 1) * d }

  /** Whether the upper neighbour is taken. */
  predicate TakesUpper(mode: Mode, negative: bool, k: nat, n: nat, d: nat) {
    match mode
    case NearEven => 2 * n > Middle(k, d) || (2 * n == Middle(k, d) && k % 2 == 1)
    case NearMaxMag => 2 * n >= Middle(k, d)
    case TowardZero => false
    case Down => negative && n > Val(k) * d
    case Up => !negative && n > Val(k) * d
  }

  lemma LimitIs()
    ensures TwiceLimit() == Val(INFINITE - 1) + Val(INFINITE)
  {
    NextVal(INFINITE - 1);
    assert (INFINITE - 1) / P52 == 0x7FE && (INFINITE - 1) % P52 == P52 - 1;
    hide Pow2;
  }

  lemma DownLaw(negative: bool, k: nat, n: nat, d: nat, up: bool)
    requires Between(k, n, d) && (up <==> TakesUpper(Down, negative, k, n, d))
    ensures RoundsDown(negative, n, d, Nth(negative, if up then k + 1 else k))
  {
    var j := if up then k + 1 else k;
    var z := Nth(negative, j);
    NthAgainst(negative, j, n, d);
    Neighbours(k, d);
    forall y: Double | y.IsFinite() && AtMost(y, negative, n, d) ensures z.IsFinite() && Value(y) <= Value(z) {
      DownHere(negative, k, n, d, up, y);
    }
    hide Val, AddendOf, Nth, AtMost, Value;
  }

  lemma DownHere(negative: bool, k: nat, n: nat, d: nat, up: bool, y: Double)
    requires Between(k, n, d) && (up <==> TakesUpper(Down, negative, k, n, d))
    requires y.IsFinite() && AtMost(y, negative, n, d)
    ensures var z := Nth(negative, if up then k + 1 else k); z.IsFinite() && Value(y) <= Value(z)
  {
    var j := if up then k + 1 else k;
    NthAgainst(negative, j, n, d);
    Neighbours(k, d);
    Around(y, k, negative, n, d);
    hide Val, AddendOf, Nth, AtMost, Value;
    DownCase(y.sign, AddendOf(y), AddendOf(y) * d, negative, Val(k), Val(k + 1), Val(k) * d, Val(k + 1) * d, n, up);
    BelowInfinity(k, j, negative, AddendOf(y), y);
  }

  lemma DownCase(s: bool, a: nat, ad: nat, negative: bool, lo: nat, hi: nat, lod: nat, hid: nat, n: nat, up: bool)
    requires Placed(a, ad, lo, hi, lod, hid) && lo < hi && (lo == 0 <==> lod == 0) && lod <= n < hid
    requires (up <==> negative && n > lod) && Signed(s, ad) <= Signed(negative, n)
    ensures Signed(s, a) <= Signed(negative, if up then hi else lo) && (up ==> s && a >= hi)
  {
  }

  lemma UpCase(s: bool, a: nat, ad: nat, negative: bool, lo: nat, hi: nat, lod: nat, hid: nat, n: nat, up: bool)
    requires Placed(a, ad, lo, hi, lod, hid) && lo < hi && (lo == 0 <==> lod == 0) && lod <= n < hid
    requires (up <==> !negative && n > lod) && Signed(s, ad) >= Signed(negative, n)
    ensures Signed(s, a) >= Signed(negative, if up then hi else lo) && (up ==> !s && a >= hi)
  {
  }

  /** A number of the format that is as large as the upper neighbour leaves that one finite. */
  lemma BelowInfinity(k: nat, j: nat, negative: bool, a: nat, y: Double)
    requires y.IsFinite() && a == AddendOf(y) && k < INFINITE && (j == k || (j == k + 1 && a >= Val(k + 1)))
    ensures Nth(negative, j).IsFinite()
  {
    NthValue(negative, j);
    var i := EveryNumber(y);
    hide Val, AddendOf;
    if j == INFINITE {
      ValOrder(i, INFINITE);
    }
  }

  /** The neighbour that is taken, against the exact value. */
  lemma NthAgainst(negative: bool, j: nat, n: nat, d: nat)
    ensures var z := Nth(negative, j);
      && Value(z) == Signed(negative, Val(j)) && AddendOf(z) == Val(j) && z.sign == negative
      && (z.IsFinite() <==> j < INFINITE) && (j == INFINITE ==> IsInfinite(z))
      && (AtMost(z, negative, n, d) <==> Signed(negative, Val(j) * d) <= Signed(negative, n))
      && (AtLeast(z, negative, n, d) <==> Signed(negative, Val(j) * d) >= Signed(negative, n))
      && Distance(z, negative, n, d) == Apart(Signed(negative, Val(j) * d), Signed(negative, n))
  {
    NthValue(negative, j);
    hide Val, AddendOf;
    SignedProduct(negative, Val(j), d);
  }

  lemma UpLaw(negative: bool, k: nat, n: nat, d: nat, up: bool)
    requires Between(k, n, d) && (up <==> TakesUpper(Up, negative, k, n, d))
    ensures RoundsUp(negative, n, d, Nth(negative, if up then k + 1 else k))
  {
    var j := if up then k + 1 else k;
    var z := Nth(negative, j);
    NthAgainst(negative, j, n, d);
    Neighbours(k, d);
    forall y: Double | y.IsFinite() && AtLeast(y, negative, n, d) ensures z.IsFinite() && Value(y) >= Value(z) {
      UpHere(negative, k, n, d, up, y);
    }
    hide Val, AddendOf, Nth, AtLeast, Value;
  }

  lemma UpHere(negative: bool, k: nat, n: nat, d: nat, up: bool, y: Double)
    requires Between(k, n, d) && (up <==> TakesUpper(Up, negative, k, n, d))
    requires y.IsFinite() && AtLeast(y, negative, n, d)
    ensures var z := Nth(negative, if up then k + 1 else k); z.IsFinite() && Value(y) >= Value(z)
  {
    var j := if up then k + 1 else k;
    NthAgainst(negative, j, n, d);
    Neighbours(k, d);
    Around(y, k, negative, n, d);
    hide Val, AddendOf, Nth, AtLeast, Value;
    UpCase(y.sign, AddendOf(y), AddendOf(y) * d, negative, Val(k), Val(k + 1), Val(k) * d, Val(k + 1) * d, n, up);
    BelowInfinity(k, j, negative, AddendOf(y), y);
  }

  lemma ZeroLaw(negative: bool, k: nat, n: nat, d: nat)
    requires Between(k, n, d)
    ensures RoundsToZero(n, d, Nth(negative, k))
  {
    NthValue(negative, k);
    hide Val, AddendOf, Nth;
    forall y: Double | y.IsFinite() && AddendOf(y) * d <= n ensures AddendOf(y) <= Val(k) {
      Around(y, k, negative, n, d);
    }
  }

  lemma NearLaw(mode: Mode, negative: bool, k: nat, n: nat, d: nat, up: bool)
    requires mode.NearEven? || mode.NearMaxMag?
    requires Between(k, n, d) && (up <==> TakesUpper(mode, negative, k, n, d))
    ensures RoundsNear(mode, negative, n, d, Nth(negative, if up then k + 1 else k))
  {
    var z := Nth(negative, if up then k + 1 else k);
    NthValue(negative, if up then k + 1 else k);
    LimitHolds(k, n, d);
    forall y: Double | y.IsFinite() && z.IsFinite() ensures Preferred(mode, negative, n, d, z, y) {
      NearerThan(mode, negative, k, n, d, up, y);
    }
    hide Val, AddendOf, Nth, TwiceLimit, Preferred;
  }

  /** The limit of the nearest modes is the middle above the largest number. */
  lemma LimitHolds(k: nat, n: nat, d: nat)
    requires Between(k, n, d)
    ensures k + 1 < INFINITE ==> 2 * n < TwiceLimit() * d
    ensures k + 1 == INFINITE ==> Middle(k, d) == TwiceLimit() * d && k % 2 == 1
  {
    LimitIs();
    hide Val;
    assert TwiceLimit() * d == Val(INFINITE - 1) * d + Val(INFINITE) * d;
    if k + 1 < INFINITE {
      ValOrder(k + 1, INFINITE - 1);
      ValOrder(k + 1, INFINITE);
      MulOrder(Val(k + 1), Val(INFINITE - 1), d);
      MulOrder(Val(k + 1), Val(INFINITE), d);
    }
  }

  lemma NearerThan(mode: Mode, negative: bool, k: nat, n: nat, d: nat, up: bool, y: Double)
    requires mode.NearEven? || mode.NearMaxMag?
    requires Between(k, n, d) && (up <==> TakesUpper(mode, negative, k, n, d)) && y.IsFinite()
    requires up ==> k + 1 < INFINITE
    ensures Preferred(mode, negative, n, d, Nth(negative, if up then k + 1 else k), y)
  {
    hide Val, AddendOf, Nth, Distance, Value, AtMost, AtLeast, Double.IsFinite, Signed;
    var j := if up then k + 1 else k;
    var z := Nth(negative, j);
    NthAgainst(negative, j, n, d);
    Neighbours(k, d);
    EvenFields(j);
    Around(y, k, negative, n, d);
    NearCase(mode.NearEven?, y.sign, AddendOf(y), AddendOf(y) * d, negative, Val(k), Val(k + 1), Val(k) * d,
      Val(k + 1) * d, k, n, up);
  }

  lemma NearCase(even: bool, s: bool, a: nat, ad: nat, negative: bool, lo: nat, hi: nat, lod: nat, hid: nat, k: nat,
      n: nat, up: bool)
    requires Placed(a, ad, lo, hi, lod, hid) && lo < hi && (lo == 0 <==> lod == 0) && (lo == 0 <==> k == 0)
    requires lod <= n < hid
    requires up <==> 2 * n > lod + hid || (2 * n == lod + hid && (even ==> k % 2 == 1))
    ensures var x := Signed(negative, n); var z, v := if up then hi else lo, Signed(s, a);
      var dz, dy := Apart(Signed(negative, if up then hid else lod), x), Apart(Signed(s, ad), x);
      dz < dy || (dz == dy && (v == Signed(negative, z) ||
        (if even then (if up then k + 1 else k) % 2 == 0 else z > a)))
  {
  }

  lemma EvenPart(x: nat, r: nat)
    ensures (2 * x + r) % 2 == r % 2
  {
  }

  lemma EvenFields(k: nat)
    ensures Nth(false, k).frac % 2 == k % 2 && Nth(true, k).frac % 2 == k % 2
  {
    var q, r := k / P52, k % P52;
    assert k == 2 * (q * (P52 / 2)) + r;
    EvenPart(q * (P52 / 2), r);
  }

  /** Only the first number is zero. */
  lemma FirstVal(k: nat)
    ensures Val(k) == 0 <==> k == 0
    ensures Val(k) < Val(k + 1)
  {
    assert Val(0) == 0;
    ValOrder(0, k);
    ValOrder(k, k + 1);
  }

  lemma NeighbourLaw(mode: Mode, negative: bool, k: nat, n: nat, d: nat, up: bool)
    requires Between(k, n, d) && (up <==> TakesUpper(mode, negative, k, n, d))
    ensures RoundsTo(mode, negative, n, d, Nth(negative, if up then k + 1 else k))
  {
    hide Between, Val, RoundsDown, RoundsUp, RoundsToZero, RoundsNear;
    match mode
    case NearEven => NearLaw(mode, negative, k, n, d, up);
    case NearMaxMag => NearLaw(mode, negative, k, n, d, up);
    case TowardZero => ZeroLaw(negative, k, n, d);
    case Down => DownLaw(negative, k, n, d, up);
    case Up => UpLaw(negative, k, n, d, up);
  }

  // ---- beyond the largest number ----

  lemma AllBelow(y: Double, d: nat)
    requires y.IsFinite() && d > 0
    ensures AddendOf(y) <= Val(INFINITE - 1) && AddendOf(y) * d <= Val(INFINITE - 1) * d < Val(INFINITE) * d
    ensures Value(y) == Signed(y.sign, AddendOf(y)) && Value(y) * d == Signed(y.sign, AddendOf(y) * d)
  {
    var j := EveryNumber(y);
    hide Val, AddendOf;
    ValOrder(j, INFINITE - 1);
    if AddendOf(y) < Val(INFINITE - 1) {
      MulOrder(AddendOf(y), Val(INFINITE - 1), d);
    }
    Neighbours(INFINITE - 1, d);
    SignedProduct(y.sign, AddendOf(y), d);
  }

  /** Whether the infinity is given, or the largest number. */
  predicate GivesInfinity(mode: Mode, negative: bool) {
    match mode case NearEven | NearMaxMag => true case TowardZero => false case Down => negative case Up => !negative
  }

  lemma HugeLaw(mode: Mode, negative: bool, n: nat, d: nat)
    requires d > 0 && n >= Val(INFINITE) * d
    ensures RoundsTo(mode, negative, n, d, Nth(negative, if GivesInfinity(mode, negative) then INFINITE
      else INFINITE - 1))
  {
    var j := if GivesInfinity(mode, negative) then INFINITE else INFINITE - 1;
    NthAgainst(negative, j, n, d);
    hide Val, RoundsDown, RoundsUp, RoundsToZero, RoundsNear, GivesInfinity, Nth;
    if mode.Down? || mode.Up? {
      HugeDirected(negative, n, d, j);
      assert GivesInfinity(Down, negative) == negative && GivesInfinity(Up, negative) == !negative;
    } else if mode.TowardZero? {
      HugeToZero(negative, n, d);
    } else {
      HugeNear(mode, negative, n, d);
    }
  }

  lemma HugeDirected(negative: bool, n: nat, d: nat, j: nat)
    requires d > 0 && n >= Val(INFINITE) * d && (j == INFINITE || j == INFINITE - 1)
    ensures (j == INFINITE <==> negative) ==> RoundsDown(negative, n, d, Nth(negative, j))
    ensures (j == INFINITE <==> !negative) ==> RoundsUp(negative, n, d, Nth(negative, j))
  {
    NthAgainst(negative, j, n, d);
    Neighbours(INFINITE - 1, d);
    hide Val, AddendOf, Nth, AtMost, AtLeast, Value;
    forall y: Double | y.IsFinite()
      ensures AtMost(y, negative, n, d) ==> !negative && Value(y) <= Val(INFINITE - 1)
      ensures AtLeast(y, negative, n, d) ==> negative && Value(y) >= 0 - Val(INFINITE - 1)
    {
      SmallerThanHuge(y, negative, n, d);
    }
  }

  lemma SmallerThanHuge(y: Double, negative: bool, n: nat, d: nat)
    requires y.IsFinite() && d > 0 && n >= Val(INFINITE) * d
    ensures AtMost(y, negative, n, d) ==> !negative && Value(y) <= Val(INFINITE - 1)
    ensures AtLeast(y, negative, n, d) ==> negative && Value(y) >= 0 - Val(INFINITE - 1)
  {
    AllBelow(y, d);
    hide Val, AddendOf, Value;
  }

  lemma HugeToZero(negative: bool, n: nat, d: nat)
    requires d > 0 && n >= Val(INFINITE) * d
    ensures RoundsToZero(n, d, Nth(negative, INFINITE - 1))
  {
    NthAgainst(negative, INFINITE - 1, n, d);
    Neighbours(INFINITE - 1, d);
    hide Val, AddendOf, Nth;
    forall y: Double | y.IsFinite() ensures AddendOf(y) <= Val(INFINITE - 1) {
      AllBelow(y, d);
    }
  }

  lemma HugeNear(mode: Mode, negative: bool, n: nat, d: nat)
    requires d > 0 && n >= Val(INFINITE) * d
    ensures RoundsNear(mode, negative, n, d, Nth(negative, INFINITE))
  {
    NthAgainst(negative, INFINITE, n, d);
    Neighbours(INFINITE - 1, d);
    LimitIs();
    hide Val, AddendOf, Nth, TwiceLimit;
    assert TwiceLimit() * d == Val(INFINITE - 1) * d + Val(INFINITE) * d;
  }

  // ---- the word that is packed ----

  lemma UnpackNth(negative: bool, k: nat)
    requires k <= INFINITE
    ensures var ui := (if negative then W63 else 0) + k; ui < W64 && Unpack(ui) == Nth(negative, k)
  {
  }

  /** Rounding to multiples of a unit picks one of two neighbours. */
  lemma RoundPicks(mode: Mode, negative: bool, k: nat, n: nat, d: nat, unit: nat, lower: nat)
    requires d > 0 && unit > 0 && k < INFINITE && k % 2 == lower % 2 && lower == n / (2 * (512 * unit))
    requires Multiples(k, d, lower, unit)
    ensures Between(k, n, d)
    ensures Round(mode, negative, n, unit, 512) == if TakesUpper(mode, negative, k, n, d) then lower + 1 else lower
  {
    var half := 512 * unit;
    MulSign(512, unit);
    Division(n, 2 * half);
    assert (lower + 1) * (2 * half) == lower * (2 * half) + 2 * half;
    hide Val;
    PickCase(mode, negative, k, n, lower, lower * (2 * half), n % (2 * half), half);
  }

  lemma PickCase(mode: Mode, negative: bool, k: nat, n: nat, lower: nat, base: nat, rest: nat, half: nat)
    requires n == base + rest && rest < 2 * half && k % 2 == lower % 2
    ensures Choose(mode, negative, lower, Locate(rest, half)) ==
      (match mode
       case NearEven => if 2 * n > 2 * base + 2 * half || (2 * n == 2 * base + 2 * half && k % 2 == 1) then lower + 1
         else lower
       case NearMaxMag => if 2 * n >= 2 * base + 2 * half then lower + 1 else lower
       case TowardZero => lower
       case Down => if negative && n > base then lower + 1 else lower
       case Up => if !negative && n > base then lower + 1 else lower)
  {
  }

  /** The neighbours of a value whose leading bit is that of the unit at this exponent. */
  lemma NormalNeighbours(exp: nat, lower: nat, d: nat)
    requires exp <= 0x7FD && P52 <= lower < P53
    ensures var k := exp * P52 + lower; var unit := d * Pow2(exp - SCALE);
      && k < INFINITE && k % 2 == lower % 2
      && Multiples(k, d, lower, unit)
  {
    var k := exp * P52 + lower;
    assert k / P52 == exp + 1 && k % P52 == lower - P52;
    assert k == 2 * (exp * (P52 / 2)) + lower;
    EvenPart(exp * (P52 / 2), lower);
    NextVal(k);
    var p := Pow2(exp - SCALE);
    assert Pow2(exp + 1 - SCALE) == 2 * p;
    hide Pow2;
    assert Val(k) == lower * 512 * (2 * p) && UnitOf(exp + 1) == 512 * (2 * p);
    hide Val, UnitOf;
    Rescale(lower, p, d);
    Rescale(lower + 1, p, d);
    assert lower * 512 * (2 * p) + 512 * (2 * p) == (lower + 1) * 512 * (2 * p);
  }

  lemma Rescale(s: nat, p: nat, d: nat)
    ensures s * 512 * (2 * p) * d == s * (2 * (512 * (d * p)))
  {
    assert s * 512 * (2 * p) * d == s * (512 * (2 * p) * d) by {
      assert s * 512 * (2 * p) == s * (512 * (2 * p));
    }
    assert 512 * (2 * p) * d == 2 * (512 * (d * p));
  }

  /** The neighbours of a value below the smallest exponent. */
  lemma SubnormalNeighbours(lower: nat, d: nat, unit: nat)
    requires lower < P52 && unit == d * Pow2(0 - SCALE)
    ensures lower < INFINITE && Multiples(lower, d, lower, unit)
  {
    assert lower / P52 == 0 && lower % P52 == lower;
    NextVal(lower);
    var p := Pow2(0 - SCALE);
    assert Pow2(1 - SCALE) == 2 * p;
    hide Pow2;
    assert Val(lower) == lower * 512 * (2 * p) && UnitOf(0) == 512 * (2 * p);
    hide Val, UnitOf;
    Rescale(lower, p, d);
    Rescale(lower + 1, p, d);
    assert lower * 512 * (2 * p) + 512 * (2 * p) == (lower + 1) * 512 * (2 * p);
  }

  /** The k-th number and the next one are multiples of the unit. */
  predicate Multiples(k: nat, d: nat, lower: nat, unit: nat) {
    Val(k) * d == lower * (2 * (512 * unit)) && Val(k + 1) * d == (lower + 1) * (2 * (512 * unit))
  }

  lemma SubnormalPicks(mode: Mode, negative: bool, n: nat, d: nat, unit: nat, lower: nat)
    requires d > 0 && unit > 0 && unit == d * Pow2(0 - SCALE)
    requires lower < P52 && lower == n / (2 * (512 * unit))
    ensures Between(lower, n, d)
    ensures Round(mode, negative, n, unit, 512) ==
      if TakesUpper(mode, negative, lower, n, d) then lower + 1 else lower
  {
    hide Pow2, Val, Round, TakesUpper, Multiples, Between;
    SubnormalNeighbours(lower, d, unit);
    RoundPicks(mode, negative, lower, n, d, unit, lower);
  }

  lemma UpperIncrements(mode: Mode, negative: bool, k: nat, n: nat, d: nat)
    ensures TakesUpper(mode, negative, k, n, d) ==> Increment(mode, negative) != 0
    ensures (Increment(mode, negative) != 0) == GivesInfinity(mode, negative)
  {
    hide Val, Middle;
  }

  lemma NormalWord(mode: Mode, sign: bool, exp: nat, n: nat, d: nat)
    requires d > 0 && exp <= 0x7FD
    requires var unit := d * Pow2(exp - SCALE); unit > 0 && P62 * unit <= n < W63 * unit
    ensures var ui := Word(mode, sign, exp, n, d * Pow2(exp - SCALE));
      0 <= ui < W64 && RoundsTo(mode, sign, n, d, Unpack(ui))
  {
    var unit := d * Pow2(exp - SCALE);
    var lower := n / (2 * (512 * unit));
    hide Pow2;
    LowerBounds(n, unit, lower);
    var k := exp * P52 + lower;
    NormalNeighbours(exp, lower, d);
    RoundPicks(mode, sign, k, n, d, unit, lower);
    var up := TakesUpper(mode, sign, k, n, d);
    NeighbourLaw(mode, sign, k, n, d, up);
    UpperIncrements(mode, sign, k, n, d);
    WordCases(mode, sign, exp, n, unit);
    UnpackNth(sign, if up then k + 1 else k);
    hide Val, Round, Word, Rounded, Overflows, TakesUpper, RoundsTo, Unpack, Nth, Increment;
    Carried(exp, lower, up);
  }

  lemma Carried(exp: nat, lower: nat, up: bool)
    requires exp <= 0x7FD && P52 <= lower < P53
    ensures exp == 0x7FD && (if up then lower + 1 else lower) >= P53 ==>
      up && exp * P52 + lower + 1 == INFINITE
  {
  }

  lemma LowerBounds(n: nat, unit: nat, lower: nat)
    requires unit > 0 && P62 * unit <= n < W63 * unit && lower == n / (2 * (512 * unit))
    ensures P52 <= lower < P53
  {
    Division(n, 2 * (512 * unit));
    assert P62 * unit == P52 * (2 * (512 * unit)) && W63 * unit == P53 * (2 * (512 * unit));
    MulOrder(lower, P53, 2 * (512 * unit));
    MulOrder(lower + 1, P52, 2 * (512 * unit));
    assert (lower + 1) * (2 * (512 * unit)) == lower * (2 * (512 * unit)) + 2 * (512 * unit);
  }

  lemma SubnormalWord(mode: Mode, sign: bool, exp: int, n: nat, d: nat)
    requires d > 0 && SCALE <= exp < 0
    requires n < W63 * (d * Pow2(exp - SCALE))
    ensures d * Pow2(exp - SCALE) > 0
    ensures var ui := Word(mode, sign, exp, n, d * Pow2(exp - SCALE));
      0 <= ui < W64 && RoundsTo(mode, sign, n, d, Unpack(ui))
  {
    hide Pow2, Val, Round, Word, Rounded, RoundsTo, Unpack, Nth, Increment, SubnormalScale;
    SubnormalUnits(exp, d, SCALE);
    SubnormalRounded(mode, sign, exp, n, d, SCALE);
    var part, unit := d * Pow2(exp - SCALE), d * Pow2(0 - SCALE);
    var lower := n / (2 * (512 * unit));
    SmallLower(n, W63 * part, Pow2(-exp - 1), 2 * (512 * unit));
    SubnormalPicks(mode, sign, n, d, unit, lower);
    var up := TakesUpper(mode, sign, lower, n, d);
    NeighbourLaw(mode, sign, lower, n, d, up);
    SubnormalBits(mode, sign, exp, n, part);
    UnpackNth(sign, if up then lower + 1 else lower);
    hide TakesUpper;
  }

  lemma SubnormalBits(mode: Mode, sign: bool, exp: int, n: nat, d: nat)
    requires d > 0 && exp < 0
    ensures Word(mode, sign, exp, n, d) == (if sign then W63 else 0) + Rounded(mode, sign, exp, n, d)
  {
    hide Rounded;
  }

  lemma SubnormalRounded(mode: Mode, sign: bool, exp: int, n: nat, d: nat, l: int)
    requires d > 0 && l <= exp < 0
    ensures d * Pow2(exp - l) > 0 && d * Pow2(0 - l) > 0
    ensures Rounded(mode, sign, exp, n, d * Pow2(exp - l)) == Round(mode, sign, n, d * Pow2(0 - l), 512)
  {
    MulSign(d, Pow2(exp - l));
    MulSign(d, Pow2(0 - l));
    Pow2Add(exp - l, -exp);
    hide Pow2, Round;
    assert d * (Pow2(exp - l) * Pow2(-exp)) == d * Pow2(exp - l) * Pow2(-exp);
  }

  lemma SubnormalUnits(exp: int, d: nat, l: int)
    requires d > 0 && l <= exp < 0
    ensures var part, unit := d * Pow2(exp - l), d * Pow2(0 - l);
      part > 0 && unit > 0 && SubnormalScale(W63 * part, Pow2(-exp - 1), 2 * (512 * unit))
  {
    MulSign(d, Pow2(exp - l));
    MulSign(d, Pow2(0 - l));
    Pow2Add(exp - l, -exp);
    assert Pow2(-exp) == 2 * Pow2(-exp - 1);
    hide Pow2, SubnormalScale;
    UnitScale(d, Pow2(exp - l), Pow2(-exp - 1), Pow2(0 - l));
  }

  lemma UnitScale(d: nat, p: nat, half: nat, q: nat)
    requires q == p * (2 * half) && half > 0 && d * q > 0
    ensures SubnormalScale(W63 * (d * p), half, 2 * (512 * (d * q)))
  {
    assert d * (p * (2 * half)) == d * p * (2 * half);
    ScaledUnit(d * p, half);
  }

  predicate SubnormalScale(w: nat, half: nat, u: nat) { half > 0 && u > 0 && P52 * u == half * w }

  lemma SmallLower(n: nat, w: nat, half: nat, u: nat)
    requires n < w && SubnormalScale(w, half, u)
    ensures u > 0 && 0 <= n / u < P52
  {
    SmallQuotient(n, w, half, u, P52);
  }

  lemma SmallQuotient(n: nat, w: nat, half: nat, u: nat, p: nat)
    requires n < w && half > 0 && u > 0 && p * u == half * w
    ensures 0 <= n / u < p
  {
    var q := n / u;
    Division(n, u);
    MulOrder(1, half, w);
    MulOrder(p, q, u);
    MulOrder(q, 0, u);
  }

  lemma ScaledUnit(part: nat, half: nat)
    ensures P52 * (2 * (512 * (part * (2 * half)))) == half * (W63 * part)
  {
  }

  lemma HugeWord(mode: Mode, sign: bool, exp: int, n: nat, d: nat)
    requires d > 0 && exp > 0x7FD
    requires var unit := d * Pow2(exp - SCALE); unit > 0 && P62 * unit <= n
    ensures var ui := Word(mode, sign, exp, n, d * Pow2(exp - SCALE));
      0 <= ui < W64 && RoundsTo(mode, sign, n, d, Unpack(ui))
  {
    HugeValue(exp, n, d);
    HugeLaw(mode, sign, n, d);
    UpperIncrements(mode, sign, 0, n, d);
    WordCases(mode, sign, exp, n, d * Pow2(exp - SCALE));
    UnpackNth(sign, INFINITE);
    UnpackNth(sign, INFINITE - 1);
    hide Val, Round, Word, Rounded, RoundsTo, Unpack, Nth, Increment, Pow2;
  }

  lemma HugeValue(exp: int, n: nat, d: nat)
    requires d > 0 && exp > 0x7FD && P62 * (d * Pow2(exp - SCALE)) <= n
    ensures n >= Val(INFINITE) * d
  {
    assert INFINITE / P52 == 0x7FF && INFINITE % P52 == 0;
    var p := Pow2(0x7FE - SCALE);
    assert Pow2(0x7FF - SCALE) == 2 * p;
    Pow2Add(0x7FE - SCALE, exp - 0x7FE);
    var q := Pow2(exp - 0x7FE);
    hide Pow2;
    assert Val(INFINITE) == P52 * 512 * (2 * p);
    hide Val;
    assert P62 * (d * (p * q)) == q * (P52 * 512 * (2 * p) * d);
    MulNonNegative(P52 * 512 * (2 * p), d);
    if P52 * 512 * (2 * p) * d > 0 {
      MulOrder(1, q, P52 * 512 * (2 * p) * d);
    }
  }

  /** The packed word of a value with its leading bit in place is the value rounded. */
  lemma WordRounds(mode: Mode, sign: bool, exp: int, n: nat, d: nat)
    requires d > 0 && exp >= SCALE
    requires var unit := d * Pow2(exp - SCALE); (exp >= 0 ==> P62 * unit <= n) && n < W63 * unit
    ensures d * Pow2(exp - SCALE) > 0
    ensures var ui := Word(mode, sign, exp, n, d * Pow2(exp - SCALE));
      0 <= ui < W64 && RoundsTo(mode, sign, n, d, Unpack(ui))
  {
    MulSign(d, Pow2(exp - SCALE));
    if exp < 0 {
      SubnormalWord(mode, sign, exp, n, d);
    } else if exp <= 0x7FD {
      NormalWord(mode, sign, exp, n, d);
    } else {
      HugeWord(mode, sign, exp, n, d);
    }
  }

  // ---- any unit ----

  /** The fraction n / d with the unit of this exponent, in units of two to the SCALE. */
  function ScaledN(exp: int, n: nat): nat { if exp >= SCALE then n * Pow2(exp - SCALE) else n }

  function ScaledD(exp: int, d: nat): nat { if exp >= SCALE then d else d * Pow2(SCALE - exp) }

  /** The word holds the fraction n / d, with the unit of this exponent, rounded. */
  ghost predicate IsRounded(mode: Mode, negative: bool, exp: int, n: nat, d: nat, ui: int) {
    0 <= ui < W64 && ScaledD(exp, d) > 0 && RoundsTo(mode, negative, ScaledN(exp, n), ScaledD(exp, d), Unpack(ui))
  }

  lemma RoundScales(mode: Mode, negative: bool, n: nat, d: nat, unit: nat, p: nat)
    requires d > 0 && unit > 0 && p > 0
    ensures d * p > 0 && Round(mode, negative, n * p, d * p, unit) == Round(mode, negative, n, d, unit)
  {
    MulSign(d, p);
    MulSign(unit, d);
    assert unit * (d * p) == unit * d * p;
    LocateScales(n, unit * d, p);
  }

  lemma LocateScales(n: nat, half: nat, p: nat)
    requires half > 0 && p > 0
    ensures half * p > 0 && n * p / (2 * (half * p)) == n / (2 * half)
    ensures Locate(n * p % (2 * (half * p)), half * p) == Locate(n % (2 * half), half)
  {
    MulSign(half, p);
    Division(n, 2 * half);
    var q, r := n / (2 * half), n % (2 * half);
    ScaledDivision(n, q, r, half, p);
    MulOrder(r, 2 * half, p);
    MulOrder(0, r, p);
    MulOrder(r, half, p);
    MulOrder(half, r, p);
    QuotientUnique(n * p, 2 * (half * p), q);
  }

  lemma ScaledDivision(n: nat, q: int, r: int, half: nat, p: nat)
    requires n == q * (2 * half) + r
    ensures n * p == q * (2 * (half * p)) + r * p && 2 * half * p == 2 * (half * p)
  {
    assert (q * (2 * half) + r) * p == q * (2 * half) * p + r * p;
    assert q * (2 * half) * p == q * (2 * (half * p));
  }

  lemma RoundedScales(mode: Mode, sign: bool, exp: int, n: nat, d: nat, p: nat)
    requires d > 0 && p > 0
    ensures d * p > 0 && Rounded(mode, sign, exp, n * p, d * p) == Rounded(mode, sign, exp, n, d)
  {
    hide Round, Pow2;
    MulSign(d, p);
    if exp < 0 {
      MulSign(d, Pow2(-exp));
      RoundScales(mode, sign, n, d * Pow2(-exp), 512, p);
      Swapped(d, Pow2(-exp), p);
    } else {
      RoundScales(mode, sign, n, d, 512, p);
    }
  }

  lemma Swapped(d: int, q: int, p: int)
    ensures d * q * p == d * p * q
  {
  }

  lemma WordScales(mode: Mode, sign: bool, exp: int, n: nat, d: nat, p: nat)
    requires d > 0 && p > 0
    ensures d * p > 0 && Word(mode, sign, exp, n * p, d * p) == Word(mode, sign, exp, n, d)
  {
    hide Rounded;
    RoundedScales(mode, sign, exp, n, d, p);
  }

  /** Below the scale too. */
  lemma TinyWord(mode: Mode, sign: bool, exp: int, n: nat, d: nat)
    requires d > 0 && exp < SCALE && n < W63 * d
    ensures d * Pow2(SCALE - exp) > 0
    ensures var ui := Word(mode, sign, exp, n, d);
      0 <= ui < W64 && RoundsTo(mode, sign, n, d * Pow2(SCALE - exp), Unpack(ui))
  {
    hide Pow2, Val, Round, Word, Rounded, RoundsTo, Unpack, Nth, Increment, SubnormalScale;
    TinyUnits(mode, sign, exp, n, d, SCALE);
    var dd, unit := d * Pow2(SCALE - exp), d * Pow2(SCALE - exp) * Pow2(0 - SCALE);
    var lower := n / (2 * (512 * unit));
    SmallLower(n, W63 * d, Pow2(-exp - 1), 2 * (512 * unit));
    SubnormalPicks(mode, sign, n, dd, unit, lower);
    var up := TakesUpper(mode, sign, lower, n, dd);
    NeighbourLaw(mode, sign, lower, n, dd, up);
    SubnormalBits(mode, sign, exp, n, d);
    UnpackNth(sign, if up then lower + 1 else lower);
    hide TakesUpper;
  }

  lemma TinyUnits(mode: Mode, sign: bool, exp: int, n: nat, d: nat, l: int)
    requires d > 0 && exp < l < 0
    ensures var unit := d * Pow2(l - exp) * Pow2(0 - l);
      && d * Pow2(l - exp) > 0 && unit > 0 && SubnormalScale(W63 * d, Pow2(-exp - 1), 2 * (512 * unit))
      && Rounded(mode, sign, exp, n, d) == Round(mode, sign, n, unit, 512)
  {
    MulSign(d, Pow2(l - exp));
    MulSign(d, Pow2(-exp));
    Pow2Add(l - exp, 0 - l);
    assert Pow2(-exp) == 2 * Pow2(-exp - 1);
    var p, q := Pow2(l - exp), Pow2(0 - l);
    hide Pow2, Round;
    assert d * (p * q) == d * p * q;
    ScaledUnit(d, Pow2(-exp - 1));
  }

  /** Whatever the unit, the packed word of a value with its leading bit in place is the value rounded. */
  lemma PackedRounds(mode: Mode, sign: bool, exp: int, n: nat, d: nat)
    requires d > 0 && (exp >= 0 ==> P62 * d <= n) && n < W63 * d
    ensures IsRounded(mode, sign, exp, n, d, Word(mode, sign, exp, n, d))
  {
    hide Word, RoundsTo, Pow2, Unpack;
    if exp < SCALE {
      TinyWord(mode, sign, exp, n, d);
    } else {
      var p := Pow2(exp - SCALE);
      WordScales(mode, sign, exp, n, d, p);
      ScaledBounds(n, d, p);
      WordRounds(mode, sign, exp, n * p, d);
    }
  }

  lemma ScaledBounds(n: nat, d: nat, p: nat)
    requires n < W63 * d && p > 0
    ensures n * p < W63 * (d * p) && (P62 * d <= n ==> P62 * (d * p) <= n * p)
  {
    if P62 * d <= n {
      MulOrder(P62 * d, n, p);
    }
    MulOrder(n, W63 * d, p);
    assert P62 * d * p == P62 * (d * p) && W63 * d * p == W63 * (d * p);
  }

  // ---- the fraction alone counts ----

  lemma SameProducts(x: int, n: int, d: nat, n2: int, d2: nat)
    requires d > 0 && d2 > 0 && n * d2 == n2 * d
    ensures x * d <= n <==> x * d2 <= n2
    ensures x * d >= n <==> x * d2 >= n2
    ensures (x * d - n) * d2 == (x * d2 - n2) * d
  {
    assert (x * d - n) * d2 == x * d * d2 - n * d2 && (x * d2 - n2) * d == x * d2 * d - n2 * d;
    Swapped(x, d, d2);
    MulOrder(x * d - n, 0, d2);
    MulOrder(0, x * d - n, d2);
    MulOrder(x * d2 - n2, 0, d);
    MulOrder(0, x * d2 - n2, d);
    MulSign(x * d - n, d2);
    MulSign(x * d2 - n2, d);
  }

  lemma SameComparisons(y: Double, negative: bool, n: nat, d: nat, n2: nat, d2: nat)
    requires d > 0 && d2 > 0 && n * d2 == n2 * d
    ensures AtMost(y, negative, n, d) <==> AtMost(y, negative, n2, d2)
    ensures AtLeast(y, negative, n, d) <==> AtLeast(y, negative, n2, d2)
    ensures AddendOf(y) * d <= n <==> AddendOf(y) * d2 <= n2
    ensures Distance(y, negative, n, d) * d2 == Distance(y, negative, n2, d2) * d
  {
    hide AddendOf, Value;
    SignedProduct(negative, n, d2);
    SignedProduct(negative, n2, d);
    SameProducts(Value(y), Signed(negative, n), d, Signed(negative, n2), d2);
    SameProducts(AddendOf(y), n, d, n2, d2);
    Negated(Value(y) * d - Signed(negative, n), d2);
    Negated(Value(y) * d2 - Signed(negative, n2), d);
    MulSign(Value(y) * d - Signed(negative, n), d2);
    MulSign(Value(y) * d2 - Signed(negative, n2), d);
  }

  lemma Negated(x: int, k: int)
    ensures (0 - x) * k == 0 - x * k
  {
  }

  lemma SamePreference(mode: Mode, negative: bool, n: nat, d: nat, n2: nat, d2: nat, z: Double, y: Double)
    requires d > 0 && d2 > 0 && n * d2 == n2 * d
    ensures Preferred(mode, negative, n, d, z, y) <==> Preferred(mode, negative, n2, d2, z, y)
  {
    SameComparisons(z, negative, n, d, n2, d2);
    SameComparisons(y, negative, n, d, n2, d2);
    hide AddendOf, Value, Distance;
    var dz, dy := Distance(z, negative, n, d), Distance(y, negative, n, d);
    var dz2, dy2 := Distance(z, negative, n2, d2), Distance(y, negative, n2, d2);
    MulOrder(dz, dy, d2);
    MulOrder(dy, dz, d2);
    MulOrder(dz2, dy2, d);
    MulOrder(dy2, dz2, d);
  }

  /** Equal fractions are rounded alike. */
  lemma SameFractionRounds(mode: Mode, negative: bool, n: nat, d: nat, n2: nat, d2: nat, z: Double)
    requires d > 0 && d2 > 0 && n * d2 == n2 * d && RoundsTo(mode, negative, n, d, z)
    ensures RoundsTo(mode, negative, n2, d2, z)
  {
    forall y: Double
      ensures AtMost(y, negative, n, d) <==> AtMost(y, negative, n2, d2)
      ensures AtLeast(y, negative, n, d) <==> AtLeast(y, negative, n2, d2)
      ensures AddendOf(y) * d <= n <==> AddendOf(y) * d2 <= n2
      ensures Preferred(mode, negative, n, d, z, y) <==> Preferred(mode, negative, n2, d2, z, y)
    {
      SameComparisons(y, negative, n, d, n2, d2);
      SamePreference(mode, negative, n, d, n2, d2, z, y);
    }
    SameLimit(TwiceLimit(), n, d, n2, d2);
    hide AtMost, AtLeast, AddendOf, Value, Preferred, TwiceLimit;
  }

  lemma SameLimit(t: nat, n: nat, d: nat, n2: nat, d2: nat)
    requires d > 0 && d2 > 0 && n * d2 == n2 * d
    ensures 2 * n < t * d <==> 2 * n2 < t * d2
  {
    assert 2 * n * d2 == 2 * n2 * d;
    SameProducts(t, 2 * n, d, 2 * n2, d2);
  }

  // ---- only one number is the rounded value ----

  lemma SameNumber(y: Double, z: Double)
    requires y.IsFinite() && z.IsFinite() && y.sign == z.sign && AddendOf(y) == AddendOf(z)
    ensures y == z
  {
    var j := EveryNumber(y);
    var k := EveryNumber(z);
    hide Val, AddendOf;
    if j < k {
      ValOrder(j, k);
    } else if k < j {
      ValOrder(k, j);
    }
  }

  /** Of two even numbers one is not the nearest. */
  lemma NotBothNearest(negative: bool, n: nat, d: nat, y: Double, z: Double) returns (w: Double)
    requires d > 0 && y.sign == z.sign == negative && y.IsFinite() && z.IsFinite() && AddendOf(y) < AddendOf(z)
    ensures w.IsFinite() &&
      (!Preferred(NearEven, negative, n, d, y, w) || !Preferred(NearEven, negative, n, d, z, w))
  {
    w := z;
    if Preferred(NearEven, negative, n, d, y, z) {
      w := y;
      if Preferred(NearEven, negative, n, d, z, y) {
        var j := EveryNumber(y);
        var k := EveryNumber(z);
        w := Nth(negative, j + 1);
        NearerBetween(negative, n, d, j, k);
      }
    }
  }

  /** Two numbers that are as near have a nearer one between them, or one of them is odd. */
  lemma NearerBetween(negative: bool, n: nat, d: nat, j: nat, k: nat)
    requires d > 0 && j < INFINITE && k < INFINITE && Val(j) < Val(k)
    requires Preferred(NearEven, negative, n, d, Nth(negative, j), Nth(negative, k))
    requires Preferred(NearEven, negative, n, d, Nth(negative, k), Nth(negative, j))
    ensures Nth(negative, j + 1).IsFinite()
    ensures !Preferred(NearEven, negative, n, d, Nth(negative, j), Nth(negative, j + 1))
  {
    hide Val, AddendOf, Value, Distance, Nth, AtMost, AtLeast;
    NthAgainst(negative, j, n, d);
    NthAgainst(negative, k, n, d);
    NthAgainst(negative, j + 1, n, d);
    EvenFields(j);
    EvenFields(k);
    Neighbours(j, d);
    Farther(j, k, d);
  }

  lemma Farther(j: nat, k: nat, d: nat)
    requires d > 0 && Val(j) < Val(k)
    ensures j < k && Val(j) * d < Val(k) * d && (j + 1 < k ==> Val(j + 1) * d < Val(k) * d)
  {
    hide Val;
    if k <= j {
      ValOrder(k, j);
    } else {
      MulOrder(Val(j), Val(k), d);
      if j + 1 < k {
        ValOrder(j + 1, k);
        MulOrder(Val(j + 1), Val(k), d);
      }
    }
  }

  lemma NotBothLarger(negative: bool, n: nat, d: nat, y: Double, z: Double)
    requires y.sign == z.sign && AddendOf(y) != AddendOf(z)
    ensures !Preferred(NearMaxMag, negative, n, d, y, z) || !Preferred(NearMaxMag, negative, n, d, z, y)
  {
    hide AddendOf, Distance;
  }

  /** The laws leave no choice. */
  lemma RoundsOnce(mode: Mode, negative: bool, n: nat, d: nat, y: Double, z: Double)
    requires d > 0 && RoundsTo(mode, negative, n, d, y) && RoundsTo(mode, negative, n, d, z)
    ensures y == z
  {
    hide AddendOf, Distance, AtMost, AtLeast, TwiceLimit;
    if y.IsFinite() && z.IsFinite() {
      if AddendOf(y) == AddendOf(z) {
        SameNumber(y, z);
      } else if mode.NearMaxMag? {
        NotBothLarger(negative, n, d, y, z);
      } else if mode.NearEven? {
        if AddendOf(y) < AddendOf(z) {
          var w := NotBothNearest(negative, n, d, y, z);
        } else {
          var w := NotBothNearest(negative, n, d, z, y);
        }
      }
    }
  }
}
