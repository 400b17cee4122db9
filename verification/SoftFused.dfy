/** The fused multiply-add as a whole: the exact sum, rounded once and packed (section 5.4.1 of IEEE 754-2008). */
module SoftFused {
  import opened Arith
  import opened Words
  import opened SoftRounding
  import opened SoftWord
  import opened SoftOrder
  import opened SoftRoundPack
  import opened SoftMulAdd64
  import opened SoftValue
  import opened SoftWhole

  /** The word of the exact sum rounded once; a zero sum takes the common sign, or else the one the mode asks for. */
  function SumWord(mode: Mode, a: Double, b: Double, c: Double): int {
    var sum := ExactSum(a, b, c);
    if sum < 0 then RoundedWord(mode, true, -sum, 1)
    else if sum > 0 then RoundedWord(mode, false, sum, 1)
    else if ProductOf(a, b) == 0 && c.sign == (a.sign != b.sign) then PackedBits(c)
    else if mode.Down? then W63 else 0
  }

  /** Without a product the addend is the result as it stands. */
  lemma AddendOnly(mode: Mode, a: Double, b: Double, c: Double)
    requires c.IsFinite() && ProductOf(a, b) == 0 && (c.Sig() == 0 ==> c.sign == (a.sign != b.sign))
    ensures SumWord(mode, a, b, c) == PackedBits(c)
  {
    hide RoundedWord, ProductOf, Pow2;
    if c.Sig() > 0 {
      MulSign(c.Sig() * 512, Pow2(c.Exp() - SCALE));
      AddendRoundsToItself(mode, c);
    }
  }

  /** What section 7.2 and the rest of the standard ask for, infinities and NaNs included. */
  function FusedWord(mode: Mode, a: Double, b: Double, c: Double): int {
    var signZ := a.sign != b.sign;
    if IsNaN(a) || IsNaN(b) || IsNaN(c) then DEFAULT_NAN
    else if IsInfinite(a) || IsInfinite(b) then
      if IsZero(a) || IsZero(b) || (IsInfinite(c) && c.sign != signZ) then DEFAULT_NAN else Infinity(signZ)
    else if IsInfinite(c) then Infinity(c.sign)
    else SumWord(mode, a, b, c)
  }

  /** The word holds a * b + c, rounded once; a zero sum has the common sign, or else that of the mode. */
  ghost predicate IsFused(mode: Mode, a: Double, b: Double, c: Double, ui: int) {
    0 <= ui < W64 && AddendOf(ONE) > 0 &&
    var x, z := Value(a) * Value(b) + Value(c) * AddendOf(ONE), Unpack(ui);
      if x == 0 then IsZero(z) && z.sign == ZeroSign(mode, a, b, c)
      else RoundsTo(mode, x < 0, if x < 0 then -x else x, AddendOf(ONE), z)
  }

  /** The sign of a zero sum. */
  predicate ZeroSign(mode: Mode, a: Double, b: Double, c: Double) {
    if (IsZero(a) || IsZero(b)) && c.sign == (a.sign != b.sign) then c.sign else mode.Down?
  }

  lemma ScaledSum(a: Double, b: Double, c: Double)
    requires a.IsFinite() && b.IsFinite() && c.IsFinite()
    ensures ExactSum(a, b, c) * AddendOf(ONE) == Value(a) * Value(b) + Value(c) * AddendOf(ONE)
    ensures AddendOf(ONE) > 0
  {
    ProductIs(a, b);
    var p, u, x, y, w := ProductOf(a, b), AddendOf(ONE), AddendOf(a), AddendOf(b), AddendOf(c);
    hide ProductOf, AddendOf;
    SignedProducts(a.sign, b.sign, c.sign, p, u, x, y, w);
  }

  lemma SignedProducts(s: bool, t: bool, v: bool, p: nat, u: nat, x: nat, y: nat, w: nat)
    requires p * u == x * y
    ensures (Signed(s != t, p) + Signed(v, w)) * u == Signed(s, x) * Signed(t, y) + Signed(v, w) * u
  {
    SignedProduct(s != t, p, u);
    assert (0 - x) * y == 0 - x * y && x * (0 - y) == 0 - x * y && (0 - x) * (0 - y) == x * y;
    assert (Signed(s != t, p) + Signed(v, w)) * u == Signed(s != t, p) * u + Signed(v, w) * u;
  }

  /** The word of the fused sum is the exact value, rounded by the order of the format. */
  lemma FusedRounds(mode: Mode, a: Double, b: Double, c: Double)
    requires a.IsFinite() && b.IsFinite() && c.IsFinite()
    ensures IsFused(mode, a, b, c, SumWord(mode, a, b, c))
  {
    var sum, u := ExactSum(a, b, c), AddendOf(ONE);
    hide RoundedWord, RoundsTo, ExactSum, Value, Unpack, AddendOf, ZeroSign;
    ScaledSum(a, b, c);
    if sum != 0 {
      var n: nat := if sum < 0 then -sum else sum;
      RoundedWordRounds(mode, sum < 0, n, 1);
      ScaledSign(sum, u);
      var x := Value(a) * Value(b) + Value(c) * u;
      SameFractionRounds(mode, sum < 0, n, 1, if x < 0 then -x else x, u, Unpack(SumWord(mode, a, b, c)));
    } else {
      ZeroFused(mode, a, b, c);
    }
  }

  lemma ScaledSign(sum: int, u: nat)
    requires u > 0 && sum != 0
    ensures sum * u != 0 && (sum < 0 <==> sum * u < 0)
    ensures (if sum < 0 then -sum else sum) * u == if sum * u < 0 then -(sum * u) else sum * u
  {
    MulSign(sum, u);
    assert (0 - sum) * u == 0 - sum * u;
  }

  lemma ZeroFused(mode: Mode, a: Double, b: Double, c: Double)
    requires a.IsFinite() && b.IsFinite() && c.IsFinite() && ExactSum(a, b, c) == 0
    ensures var ui := SumWord(mode, a, b, c);
      0 <= ui < W64 && IsZero(Unpack(ui)) && Unpack(ui).sign == ZeroSign(mode, a, b, c)
  {
    ProductIsZero(a, b);
    AddendIsZero(c);
    PackUnpacks(c);
    PackUnpacks(Double(mode.Down?, 0, 0));
    hide ProductOf, AddendOf;
  }

  datatype Operation = Plain | SubC | SubProd

  function ProductSign(op: Operation, a: Double): Double { a.(sign := a.sign != op.SubProd?) }

  function AddendSign(op: Operation, c: Double): Double { c.(sign := c.sign != op.SubC?) }

  /** The addend is to be subtracted, but its word is returned as it is. */
  predicate Unflipped(op: Operation, a: Double, b: Double, c: Double) {
    && op.SubC? && a.IsFinite() && b.IsFinite()
    && (IsInfinite(c) || (c.IsFinite() && (IsZero(a) || IsZero(b)) && !(IsZero(c) && c.sign == (a.sign != b.sign))))
  }

  /** The three kinds of operands. */
  lemma FusedCases(mode: Mode, op: Operation, a: Double, b: Double, c: Double)
    requires a.exp <= 0x7FF && b.exp <= 0x7FF && c.exp <= 0x7FF && a.frac < P52 && b.frac < P52 && c.frac < P52
    ensures var signZ, signC := (a.sign != b.sign) != op.SubProd?, c.sign != op.SubC?;
      var r := FusedWord(mode, ProductSign(op, a), b, AddendSign(op, c));
      && (IsNaN(a) || IsNaN(b) ==> r == DEFAULT_NAN && !Unflipped(op, a, b, c))
      && (!IsNaN(a) && !IsNaN(b) && (a.exp == 0x7FF || b.exp == 0x7FF) ==>
           !Unflipped(op, a, b, c) &&
           r == if IsZero(a) || IsZero(b) || IsNaN(c) || (IsInfinite(c) && signZ != signC) then DEFAULT_NAN
                else Infinity(signZ))
      && (a.exp < 0x7FF && b.exp < 0x7FF && IsNaN(c) ==> r == DEFAULT_NAN && !Unflipped(op, a, b, c))
      && (a.exp < 0x7FF && b.exp < 0x7FF && IsInfinite(c) ==>
           (Unflipped(op, a, b, c) <==> op.SubC?) && (!op.SubC? ==> r == Infinity(c.sign)))
      && (a.exp < 0x7FF && b.exp < 0x7FF && c.exp < 0x7FF ==>
           r == SumWord(mode, ProductSign(op, a), b, AddendSign(op, c)))
  {
    hide SumWord, Infinity;
  }

  /**
   softfloat_mulAddF64, rounding included: a * b + c rounded once, and what the standard asks for where an
   operand is not finite; except that subtracting forgets to flip the sign of an addend it returns as it is.
  */
  method FusedF64(mode: Mode, op: Operation, uiA: nat, uiB: nat, uiC: nat) returns (uiZ: int)
    requires uiA < W64 && uiB < W64 && uiC < W64
    ensures var a, b, c := Unpack(uiA), Unpack(uiB), Unpack(uiC);
      uiZ == if Unflipped(op, a, b, c) then uiC
             else FusedWord(mode, ProductSign(op, a), b, AddendSign(op, c))
    ensures var a, b, c := Unpack(uiA), Unpack(uiB), Unpack(uiC);
      a.IsFinite() && b.IsFinite() && c.IsFinite() && !Unflipped(op, a, b, c) ==>
        IsFused(mode, ProductSign(op, a), b, AddendSign(op, c), uiZ)
  {
    hide SumWord, PackedBits, Unpack, IsFused;
    var a, b, c := Unpack(uiA), Unpack(uiB), Unpack(uiC);
    if a.IsFinite() && b.IsFinite() && c.IsFinite() {
      FusedRounds(mode, ProductSign(op, a), b, AddendSign(op, c));
    }
    UnpackPacks(uiA);
    UnpackPacks(uiB);
    UnpackPacks(uiC);
    FusedCases(mode, op, a, b, c);
    hide FusedWord, Unflipped;
    var signC := c.sign != op.SubC?;
    var signZ := (a.sign != b.sign) != op.SubProd?;
    if a.exp == 0x7FF {
      if a.frac != 0 || (b.exp == 0x7FF && b.frac != 0) {
        return DEFAULT_NAN;
      }
      uiZ := InfiniteProduct(b.exp != 0 || b.frac != 0, signZ, c, signC);
    } else if b.exp == 0x7FF {
      if b.frac != 0 {
        return DEFAULT_NAN;
      }
      uiZ := InfiniteProduct(a.exp != 0 || a.frac != 0, signZ, c, signC);
    } else if c.exp == 0x7FF {
      uiZ := if c.frac != 0 then DEFAULT_NAN else uiC;
      InfiniteAddend(uiC, c);
    } else {
      uiZ := FiniteFused(mode, op, a, b, c);
    }
  }

  lemma InfiniteAddend(uiC: nat, c: Double)
    requires PackedBits(c) == uiC && c.exp == 0x7FF
    ensures c.frac == 0 ==> uiC == Infinity(c.sign)
  {
  }

  method InfiniteProduct(nonzero: bool, signZ: bool, c: Double, signC: bool) returns (uiZ: int)
    requires c.exp <= 0x7FF
    ensures uiZ == if !nonzero || IsNaN(c) || (IsInfinite(c) && signZ != signC) then DEFAULT_NAN else Infinity(signZ)
  {
    hide PackedBits;
    if nonzero {
      uiZ := Infinity(signZ);
      if c.exp != 0x7FF {
        return;
      }
      if c.frac != 0 {
        return DEFAULT_NAN;
      }
      if signZ == signC {
        return;
      }
    }
    uiZ := DEFAULT_NAN;
  }

  /** The part for finite operands. */
  method FiniteFused(mode: Mode, op: Operation, a: Double, b: Double, c: Double) returns (uiZ: int)
    requires a.IsFinite() && b.IsFinite() && c.IsFinite()
    ensures uiZ == if Unflipped(op, a, b, c) then PackedBits(c)
                   else SumWord(mode, ProductSign(op, a), b, AddendSign(op, c))
  {
    hide SumWord, PackedBits, ProductOf, ExactSum, AddendOf, Settled, SameSide, Word, Pow2;
    var a1, c1 := ProductSign(op, a), AddendSign(op, c);
    ProductIsZero(a1, b);
    AddendIsZero(c1);
    var r := MulAddF64(a1, b, c1);
    match r {
      case Addend =>
        uiZ := PackedBits(c);
        AddendOnly(mode, a1, b, c1);
      case ExactZero =>
        uiZ := if mode.Down? then W63 else 0;
        ZeroSum(mode, a1, b, c1);
      case ToRound(negative, exp, sig) =>
        ghost var sum := ExactSum(a1, b, c1);
        ghost var n: int := if negative then -sum else sum;
        SettledPositive(exp, sig, n, SCALE);
        SettledSum(mode, a1, b, c1, exp, sig);
        var flags;
        uiZ, flags := RoundPackF64(mode, negative, exp, sig, n, Pow2(exp - SCALE));
    }
  }

  lemma ProductIsZero(a: Double, b: Double)
    requires a.IsFinite() && b.IsFinite()
    ensures ProductOf(a, b) == 0 <==> IsZero(a) || IsZero(b)
  {
    hide Pow2;
    if !IsZero(a) && !IsZero(b) {
      SomeProduct(a, b);
    }
  }

  lemma AddendIsZero(c: Double)
    requires c.IsFinite()
    ensures AddendOf(c) == 0 <==> IsZero(c)
  {
    hide Pow2;
    if !IsZero(c) {
      MulSign(c.Sig() * 512, Pow2(c.Exp() - SCALE));
    }
  }

  /** Where the sign is forgotten the result is wrong. */
  lemma UnflippedIsWrong(mode: Mode, uiA: nat, uiB: nat, uiC: nat)
    requires uiA < W64 && uiB < W64 && uiC < W64 && Unflipped(SubC, Unpack(uiA), Unpack(uiB), Unpack(uiC))
    ensures FusedWord(mode, Unpack(uiA), Unpack(uiB), AddendSign(SubC, Unpack(uiC))) != uiC
  {
    var a, b, c := Unpack(uiA), Unpack(uiB), Unpack(uiC);
    UnpackPacks(uiC);
    hide SumWord, Unpack;
    var c1 := AddendSign(SubC, c);
    if !IsInfinite(c) {
      ProductIsZero(a, b);
      AddendOnly(mode, a, b, c1);
    }
  }

  lemma ZeroSum(mode: Mode, a: Double, b: Double, c: Double)
    requires ExactSum(a, b, c) == 0 && (ProductOf(a, b) == 0 ==> (a.sign != b.sign) != c.sign)
    ensures SumWord(mode, a, b, c) == if mode.Down? then W63 else 0
  {
  }

  lemma SettledSum(mode: Mode, a: Double, b: Double, c: Double, exp: int, sig: nat)
    requires ExactSum(a, b, c) != 0
    requires Settled(exp, sig, if ExactSum(a, b, c) < 0 then -ExactSum(a, b, c) else ExactSum(a, b, c), SCALE)
    ensures var sum := ExactSum(a, b, c); var n := if sum < 0 then -sum else sum;
      && -3000 <= SCALE <= exp && sig < W63 && SameSide(sig, n, Pow2(exp - SCALE), 512)
      && SumWord(mode, a, b, c) == Word(mode, sum < 0, exp, n, Pow2(exp - SCALE))
  {
    hide ExactSum, TopExponent, Word, ProductOf, Pow2, SameSide, RoundedWord;
    var sum := ExactSum(a, b, c);
    SettledWord(mode, sum < 0, exp, sig, if sum < 0 then -sum else sum, 1);
  }
}
