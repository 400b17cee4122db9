/** Double-precision words: their fields, their values, and the word that a rounded value is packed into. */
module SoftWord {
  import opened Arith
  import opened Words
  import opened SoftRounding
  import opened SoftMulAdd64

  /** What is added before the low ten bits are cut off. */
  function Increment(mode: Mode, sign: bool): nat {
    match mode
    case NearEven => 0x200
    case NearMaxMag => 0x200
    case TowardZero => 0
    case Down => if sign then 0x3FF else 0
    case Up => if sign then 0 else 0x3FF
  }

  /** The rounded value of n / d, its exponent raised to the smallest there is. */
  function Rounded(mode: Mode, sign: bool, exp: int, n: nat, d: nat): int
    requires d > 0
  {
    if exp < 0 then
      MulSign(d, Pow2(-exp));
      Round(mode, sign, n, d * Pow2(-exp), 512)
    else Round(mode, sign, n, d, 512)
  }

  /** The magnitude that is too large for the format. */
  predicate Overflows(exp: int, r: int) { exp > 0x7FD || (exp == 0x7FD && r >= P53) }

  /**
   The packed word of the magnitude n / d, whose unit is a quarter of the format's: rounded, or what the
   mode gives on overflow.
  */
  function Word(mode: Mode, sign: bool, exp: int, n: nat, d: nat): int
    requires d > 0
  {
    var r := Rounded(mode, sign, exp, n, d);
    (if sign then W63 else 0) +
    if Overflows(exp, r) then 0x7FF * P52 - (if Increment(mode, sign) == 0 then 1 else 0)
    else (if exp < 0 || r == 0 then 0 else exp) * P52 + r
  }

  /** The word in terms of the rounded significand. */
  lemma WordCases(mode: Mode, sign: bool, exp: int, n: nat, d: nat)
    requires d > 0
    ensures exp >= 0 ==> Rounded(mode, sign, exp, n, d) == Round(mode, sign, n, d, 512)
    ensures exp < 0 ==>
      d * Pow2(-exp) > 0 && Rounded(mode, sign, exp, n, d) == Round(mode, sign, n, d * Pow2(-exp), 512)
    ensures var r := Rounded(mode, sign, exp, n, d);
      && (Overflows(exp, r) <==> exp > 0x7FD || (exp == 0x7FD && r >= P53))
      && Word(mode, sign, exp, n, d) == (if sign then W63 else 0) +
           if Overflows(exp, r) then 0x7FF * P52 - (if Increment(mode, sign) == 0 then 1 else 0)
           else (if exp < 0 || r == 0 then 0 else exp) * P52 + r
  {
    hide Round, Pow2, Increment;
    if exp < 0 {
      MulSign(d, Pow2(-exp));
    }
  }

  // ---- words ----

  const DEFAULT_NAN := 0x7FF8_0000_0000_0000

  predicate IsNaN(x: Double) { x.exp == 0x7FF && x.frac != 0 }

  predicate IsInfinite(x: Double) { x.exp == 0x7FF && x.frac == 0 }

  predicate IsZero(x: Double) { x.exp == 0 && x.frac == 0 }

  function Infinity(sign: bool): nat { PackedBits(Double(sign, 0x7FF, 0)) }

  function Zero(sign: bool): nat { PackedBits(Double(sign, 0, 0)) }

  /** The word of these fields, and the fields of a word. */
  function PackedBits(x: Double): nat { (if x.sign then W63 else 0) + x.exp * P52 + x.frac }

  function Unpack(ui: nat): Double { Double(ui >= W63, ui / P52 % 0x800, ui % P52) }

  lemma UnpackPacks(ui: nat)
    requires ui < W64
    ensures var x := Unpack(ui); PackedBits(x) == ui && x.exp <= 0x7FF && x.frac < P52
  {
  }

  lemma PackUnpacks(x: Double)
    requires x.exp <= 0x7FF && x.frac < P52
    ensures PackedBits(x) < W64 && Unpack(PackedBits(x)) == x
  {
  }
}
