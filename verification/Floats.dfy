/** Option values and the binary64 arithmetic the scalar pipeline is parametric in. */
module Wrappers {

  datatype Option<+T> = None | Some(value: T) {
    predicate IsFailure() { None? }
    function PropagateFailure<U>(): Option<U> requires None? { None }
    function Extract(): T requires Some? { value }
  }
}

/** Numbers are the bit patterns of IEEE-754 binary64 values.  What addition, division or a
    comparison do to the bits is a parameter: every theorem about the pipeline holds for every
    `FloatModel` that is `WellBehaved`, so rounding never matters. */
module Floats {
  import opened Wrappers

  const TWO_TO_52: int := 0x10_0000_0000_0000
  const TWO_TO_63: int := 0x8000_0000_0000_0000
  const TWO_TO_64: int := 0x1_0000_0000_0000_0000

  type Word64 = x: int | 0 <= x < TWO_TO_64

  datatype Double = Double(bits: Word64)

  const ZERO := Double(0)
  const ONE := Double(0x3FF0_0000_0000_0000)

  datatype CalcOp = Add | Subtract | Multiply | Divide
  datatype TestOp = Equal | NotEqual | Less | LessEqual | Greater | GreaterEqual

  /** The host operations the C code uses on `double`.  `whole` is the test the verifier applies to
      the immediate of a CALL: the integer n when the number is exactly n with 0 <= n <= 256. */
  datatype FloatModel = FloatModel(
    finite: Double -> bool,
    isZero: Double -> bool,
    neg: Double -> Double,
    arith: (CalcOp, Double, Double) -> Double,
    test: (TestOp, Double, Double) -> bool,
    whole: Double -> Option<nat>,
    ofWhole: nat -> Double)
  {
    ghost predicate WellBehaved() {
      && finite(ZERO) && finite(ONE)
      && isZero(ZERO) && !isZero(ONE)
      && (forall d :: isZero(d) ==> finite(d))
      && test(Equal, ZERO, ZERO) && test(Equal, ONE, ONE)
      && !test(Equal, ZERO, ONE) && !test(Equal, ONE, ZERO)
      && !test(NotEqual, ZERO, ZERO) && !test(NotEqual, ONE, ONE)
      && test(NotEqual, ZERO, ONE) && test(NotEqual, ONE, ZERO)
      && (forall n: nat :: n <= 256 ==> whole(ofWhole(n)) == Some(n))
      && (forall d :: whole(d).Some? ==> whole(d).value <= 256)
    }
  }

  // ----- binary64 is such a model -----

  function Exponent(d: Double): int { d.bits / TWO_TO_52 % 2048 }

  predicate IsFinite(d: Double) { Exponent(d) != 2047 }

  predicate IsZeroBits(d: Double) { d.bits == 0 || d.bits == TWO_TO_63 }

  /** The place of a finite number on the number line, as an integer. */
  function Rank(d: Double): int {
    if d.bits < TWO_TO_63 then d.bits else TWO_TO_63 - d.bits
  }

  // ----- the numbers that patterns stand for -----

  function Fraction(d: Double): nat { d.bits % TWO_TO_52 }

  predicate IsNegative(d: Double) { d.bits >= TWO_TO_63 }

  function Doubled(x: nat, times: nat): nat { if times == 0 then x else 2 * Doubled(x, times - 1) }

  /** The number a finite pattern stands for, as a multiple of the smallest positive one, 2^-1074: the fraction, with
      its hidden bit unless the number is subnormal, doubled as often as the exponent says. */
  function NumberValue(d: Double): int {
    var magnitude :=
      if Exponent(d) == 0 then Fraction(d) else Doubled(TWO_TO_52 + Fraction(d), Exponent(d) - 1);
    if IsNegative(d) then -(magnitude as int) else magnitude
  }

  function Magnitude(e: nat, f: nat): nat { if e == 0 then f else Doubled(TWO_TO_52 + f, e - 1) }

  lemma {:induction false} DoubledGrows(x: nat, y: nat, times: nat)
    requires x < y
    ensures Doubled(x, times) < Doubled(y, times)
    decreases times
  {
    if times > 0 { DoubledGrows(x, y, times - 1); }
  }

  /** What a higher exponent is worth. */
  lemma {:induction false} HigherExponent(e: nat, f: nat, more: nat)
    requires e < more && f < TWO_TO_52
    ensures Magnitude(e, f) < Magnitude(more, 0)
    decreases more
  {
    if e + 1 < more {
      HigherExponent(e, f, more - 1);
      assert Doubled(TWO_TO_52, more - 1) == 2 * Doubled(TWO_TO_52, more - 2);
    } else if e > 0 {
      DoubledGrows(TWO_TO_52 + f, 2 * TWO_TO_52, e - 1);
      DoubledTwice(TWO_TO_52, e - 1);
    }
  }

  lemma {:induction false} DoubledTwice(x: nat, times: nat)
    ensures Doubled(2 * x, times) == Doubled(x, times + 1)
    decreases times
  {
    if times > 0 { DoubledTwice(x, times - 1); }
  }

  /** A pattern without its sign is exponent and fraction. */
  lemma {:induction false} Parts(d: Double)
    ensures var m := if IsNegative(d) then d.bits - TWO_TO_63 else d.bits;
            && m == Exponent(d) * TWO_TO_52 + Fraction(d) && 0 <= Exponent(d) < 2048
            && NumberValue(d) == (if IsNegative(d) then -(Magnitude(Exponent(d), Fraction(d)) as int) else Magnitude(Exponent(d), Fraction(d)))
            && Rank(d) == if IsNegative(d) then -m else m
  {
    assert TWO_TO_63 == 2048 * TWO_TO_52;
  }

  lemma {:induction false} MagnitudeGrows(e: nat, f: nat, e': nat, f': nat)
    requires f < TWO_TO_52 && f' < TWO_TO_52 && e * TWO_TO_52 + f < e' * TWO_TO_52 + f'
    ensures Magnitude(e, f) < Magnitude(e', f')
  {
    if e == e' {
      if e > 0 { DoubledGrows(TWO_TO_52 + f, TWO_TO_52 + f', e - 1); }
    } else {
      HigherExponent(e, f, e');
      if f' > 0 { DoubledGrows(TWO_TO_52, TWO_TO_52 + f', e' - 1); }
    }
  }

  /** Comparing ranks is comparing numbers. */
  lemma {:induction false} RankIsOrder(x: Double, y: Double)
    ensures Rank(x) <= Rank(y) <==> NumberValue(x) <= NumberValue(y)
    ensures Rank(x) < Rank(y) <==> NumberValue(x) < NumberValue(y)
  {
    Parts(x);
    Parts(y);
    var e, f, e', f' := Exponent(x), Fraction(x), Exponent(y), Fraction(y);
    if e * TWO_TO_52 + f < e' * TWO_TO_52 + f' { MagnitudeGrows(e, f, e', f'); }
    else if e' * TWO_TO_52 + f' < e * TWO_TO_52 + f { MagnitudeGrows(e', f', e, f); }
    else { assert e == e' && f == f'; }
    MagnitudeSign(e, f);
    MagnitudeSign(e', f');
  }

  /** Only the zeros are zero. */
  lemma {:induction false} MagnitudeSign(e: nat, f: nat)
    ensures Magnitude(e, f) == 0 <==> e == 0 && f == 0
  {
    if e > 0 { DoubledGrows(0, TWO_TO_52 + f, e - 1); }
  }

  /** The whole numbers are what they are called: 1 is 2^1074 times the smallest positive number. */
  lemma {:induction false} WholeValue(n: nat, scale: nat)
    requires n <= 256 && scale == 1074
    ensures IsFinite(OfWhole(n)) && NumberValue(OfWhole(n)) == n * Doubled(1, scale)
  {
    if n > 0 {
      var e := Exponent2(n);
      WholeBitsAre(n, e);
      WholeMagnitude(n, e, scale - 52);
      FullFraction(52);
      DoubledSum(1, 52, scale - 52);
    }
  }

  lemma {:induction false} FullFraction(bits: nat)
    requires bits == 52
    ensures Doubled(1, bits) == TWO_TO_52
  {
    SixteenTimes(1, 0);
    SixteenTimes(1, 4);
    SixteenTimes(1, 8);
    SixteenTimes(1, 12);
    SixteenTimes(1, 16);
    SixteenTimes(1, 20);
    SixteenTimes(1, 24);
    SixteenTimes(1, 28);
    SixteenTimes(1, 32);
    SixteenTimes(1, 36);
    SixteenTimes(1, 40);
    SixteenTimes(1, 44);
    SixteenTimes(1, 48);
  }

  lemma {:induction false} SixteenTimes(x: nat, times: nat)
    ensures Doubled(x, times + 4) == 16 * Doubled(x, times)
  {
    assert Doubled(x, times + 4) == 2 * Doubled(x, times + 3) && Doubled(x, times + 2) == 2 * Doubled(x, times + 1);
  }

  lemma {:induction false} WholeBitsAre(n: nat, e: nat)
    requires 1 <= n <= 256 && e == Exponent2(n)
    ensures Exponent(OfWhole(n)) == 1023 + e && Fraction(OfWhole(n)) == (n - Power(e)) * Unit(e) && !IsNegative(OfWhole(n))
  {
    var f := (n - Power(e)) * Unit(e);
    FractionFits(e, n - Power(e));
    assert OfWhole(n).bits == (1023 + e) * TWO_TO_52 + f && 0 <= f < TWO_TO_52;
    assert OfWhole(n).bits / TWO_TO_52 == 1023 + e && OfWhole(n).bits % TWO_TO_52 == f;
  }

  lemma {:induction false} WholeMagnitude(n: nat, e: nat, times: nat)
    requires 1 <= n <= 256 && e == Exponent2(n)
    ensures Doubled(TWO_TO_52 + (n - Power(e)) * Unit(e), times + e) == n * Doubled(TWO_TO_52, times)
  {
    UnitDoubled(e);
    assert TWO_TO_52 + (n - Power(e)) * Unit(e) == n * Unit(e);
    DoubledTimes(n, Unit(e), times + e);
    DoubledSum(Unit(e), e, times);
  }

  lemma {:induction false} UnitDoubled(e: nat)
    requires e <= 8
    ensures Doubled(Unit(e), e) == TWO_TO_52 == Power(e) * Unit(e)
  {
    if e > 0 {
      UnitDoubled(e - 1);
      DoubledTwice(Unit(e), e - 1);
      assert 2 * Unit(e) == Unit(e - 1) && Power(e) == 2 * Power(e - 1);
    }
  }

  lemma {:induction false} DoubledTimes(n: nat, x: nat, times: nat)
    ensures Doubled(n * x, times) == n * Doubled(x, times)
    decreases times
  {
    if times > 0 { DoubledTimes(n, x, times - 1); }
  }

  lemma {:induction false} DoubledSum(x: nat, a: nat, b: nat)
    ensures Doubled(x, a + b) == Doubled(Doubled(x, a), b)
    decreases b
  {
    if b > 0 { DoubledSum(x, a, b - 1); }
  }

  predicate IsNan(d: Double) { Exponent(d) == 2047 && Fraction(d) != 0 }

  /** What is no number is not equal to anything, and not ordered. */
  predicate TestBits(op: TestOp, x: Double, y: Double) {
    if IsNan(x) || IsNan(y) then op == NotEqual else TestRanks(op, x, y)
  }

  predicate TestRanks(op: TestOp, x: Double, y: Double) {
    match op
    case Equal => Rank(x) == Rank(y)
    case NotEqual => Rank(x) != Rank(y)
    case Less => Rank(x) < Rank(y)
    case LessEqual => Rank(x) <= Rank(y)
    case Greater => Rank(x) > Rank(y)
    case GreaterEqual => Rank(x) >= Rank(y)
  }

  /** 2^e for the exponents of the whole numbers up to 256. */
  function Power(e: nat): nat
    requires e <= 8
  {
    if e == 0 then 1 else if e == 1 then 2 else if e == 2 then 4 else if e == 3 then 8
    else if e == 4 then 16 else if e == 5 then 32 else if e == 6 then 64 else if e == 7 then 128 else 256
  }

  /** The weight, in units of the last place, of 1 in a number with exponent e. */
  function Unit(e: nat): nat
    requires e <= 8
  {
    if e == 0 then 0x10_0000_0000_0000 else if e == 1 then 0x8_0000_0000_0000
    else if e == 2 then 0x4_0000_0000_0000 else if e == 3 then 0x2_0000_0000_0000
    else if e == 4 then 0x1_0000_0000_0000 else if e == 5 then 0x8000_0000_0000
    else if e == 6 then 0x4000_0000_0000 else if e == 7 then 0x2000_0000_0000 else 0x1000_0000_0000
  }

  function Exponent2(n: nat): (e: nat)
    requires 1 <= n <= 256
    ensures e <= 8 && Power(e) <= n < 2 * Power(e)
  {
    if n >= 256 then 8 else if n >= 128 then 7 else if n >= 64 then 6 else if n >= 32 then 5
    else if n >= 16 then 4 else if n >= 8 then 3 else if n >= 4 then 2 else if n >= 2 then 1 else 0
  }

  lemma {:induction false} FractionFits(e: nat, k: nat)
    requires e <= 8 && k < Power(e)
    ensures 0 <= k * Unit(e) < TWO_TO_52
    ensures k * Unit(e) / Unit(e) == k
  {
    if e == 0 {} else if e == 1 {} else if e == 2 {} else if e == 3 {}
    else if e == 4 {} else if e == 5 {} else if e == 6 {} else if e == 7 {} else {}
  }

  /** The bits of the number n: biased exponent, then the fraction n / 2^e - 1. */
  function OfWhole(n: nat): Double {
    if 1 <= n <= 256 then
      var e := Exponent2(n);
      FractionFits(e, n - Power(e));
      Double((1023 + e) * TWO_TO_52 + (n - Power(e)) * Unit(e))
    else ZERO
  }

  /** A positive whole number is read back from its exponent and fraction. */
  lemma {:induction false} WholeFromBits(n: nat)
    requires 1 <= n <= 256
    ensures OfWhole(n).bits >= 1023 * TWO_TO_52
    ensures var e := OfWhole(n).bits / TWO_TO_52 - 1023;
            0 <= e <= 8 && n == Power(e) + OfWhole(n).bits % TWO_TO_52 / Unit(e)
  {
    var e := Exponent2(n);
    FractionFits(e, n - Power(e));
    assert OfWhole(n).bits / TWO_TO_52 == 1023 + e;
    assert OfWhole(n).bits % TWO_TO_52 == (n - Power(e)) * Unit(e);
  }

  lemma {:induction false} OfWholeInjective(m: nat, n: nat)
    requires m <= 256 && n <= 256 && OfWhole(m) == OfWhole(n)
    ensures m == n
  {
    if m > 0 { WholeFromBits(m); }
    if n > 0 { WholeFromBits(n); }
  }

  function WholeUpTo(d: Double, n: nat): (r: Option<nat>)
    requires n <= 256
    ensures r.Some? ==> r.value <= n && OfWhole(r.value) == d
    ensures r.None? ==> forall k: nat :: k <= n ==> OfWhole(k) != d
  {
    if OfWhole(n) == d then Some(n)
    else if n == 0 then None
    else WholeUpTo(d, n - 1)
  }

  /** Minus zero passes the verifier's test too: it is not below 0 and equals its own floor. */
  function WholeBits(d: Double): Option<nat> {
    if d.bits == TWO_TO_63 then Some(0) else WholeUpTo(d, 256)
  }

  /** The comparisons compare the numbers that patterns stand for, and the zeros are what stands for zero. */
  lemma {:induction false} TestsAreOfValues(op: TestOp, x: Double, y: Double)
    requires IsFinite(x) && IsFinite(y)
    ensures TestBits(op, x, y) <==>
              match op
              case Equal => NumberValue(x) == NumberValue(y)
              case NotEqual => NumberValue(x) != NumberValue(y)
              case Less => NumberValue(x) < NumberValue(y)
              case LessEqual => NumberValue(x) <= NumberValue(y)
              case Greater => NumberValue(x) > NumberValue(y)
              case GreaterEqual => NumberValue(x) >= NumberValue(y)
    ensures IsZeroBits(x) <==> NumberValue(x) == 0
  {
    RankIsOrder(x, y);
    RankIsOrder(y, x);
    ZeroIff(x);
  }

  lemma {:induction false} ZeroIff(x: Double)
    ensures IsZeroBits(x) <==> NumberValue(x) == 0
  {
    Parts(x);
    MagnitudeSign(Exponent(x), Fraction(x));
  }

  /** The test on the immediate of a CALL finds exactly the whole numbers from 0 to 256. */
  lemma {:induction false} WholeIff(d: Double, n: nat, scale: nat)
    requires scale == 1074
    ensures WholeBits(d) == Some(n) <==> n <= 256 && NumberValue(d) == n * Doubled(1, scale)
  {
    if WholeBits(d) == Some(n) {
      WholeValue(n, scale);
      ZeroIff(d);
    }
    if n <= 256 && NumberValue(d) == n * Doubled(1, scale) { WholeIsFound(d, n, scale); }
  }

  lemma {:induction false} WholeIsFound(d: Double, n: nat, scale: nat)
    requires scale == 1074 && n <= 256 && NumberValue(d) == n * Doubled(1, scale)
    ensures WholeBits(d) == Some(n)
  {
    WholeValue(n, scale);
    RankIsOrder(d, OfWhole(n));
    RankIsOrder(OfWhole(n), d);
    PositiveRank(d, OfWhole(n));
    ZeroIff(d);
    DoubledPositive(scale);
    ZeroFactor(n, Doubled(1, scale));
    if d.bits != TWO_TO_63 { OfWholeInjective(n, WholeUpTo(d, 256).value); }
  }

  lemma {:induction false} ZeroFactor(n: nat, x: nat)
    requires x > 0
    ensures n * x == 0 <==> n == 0
  {
  }

  lemma {:induction false} DoubledPositive(times: nat)
    ensures Doubled(1, times) > 0
    decreases times
  {
    if times > 0 { DoubledPositive(times - 1); }
  }

  lemma {:induction false} PositiveRank(x: Double, y: Double)
    requires Rank(x) == Rank(y)
    ensures x == y || (IsZeroBits(x) && IsZeroBits(y))
  {
  }

  /** Whatever the rounding of the four operations, binary64 meets the assumptions above. */
  lemma {:induction false} BinarySixtyFourIsWellBehaved(arith: (CalcOp, Double, Double) -> Double, neg: Double -> Double)
    ensures FloatModel(IsFinite, IsZeroBits, neg, arith, TestBits, WholeBits, OfWhole).WellBehaved()
  {
    forall n: nat | n <= 256
      ensures WholeBits(OfWhole(n)) == Some(n)
    {
      var d := OfWhole(n);
      if n > 0 { FractionFits(Exponent2(n), n - Power(Exponent2(n))); }
      assert d.bits != TWO_TO_63;
      var r := WholeUpTo(d, 256);
      OfWholeInjective(n, r.value);
    }
  }
}
