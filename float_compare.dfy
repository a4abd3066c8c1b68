/**
 * Comparing binary32 floats through their integer representation
 * (FloatingPoint/CompareAsInt/CompareAsInt.cpp).
 *
 * A float is its 32-bit IEEE 754 binary32 encoding (IEEE 754-2008 section 3.4):
 * a sign bit, eight exponent bits and 23 mantissa bits, held here as the
 * unsigned value of the 32 bits. The masks of the source become arithmetic on
 * that value: `& 0x7FFFFFFF` keeps the low 31 bits (`% 2^31`), `& 0x007FFFFF`
 * the low 23 (`% 2^23`), and the exponent is bits 23 to 30.
 * `*(int *)&A` reads the pattern as a two's-complement `int`; `int` arithmetic
 * wraps modulo 2^32, and `abs(INT_MIN)` is `INT_MIN`, as on the x86 targets the
 * program was written for. Float equality `A == B` is IEEE equality
 * (IEEE 754-2008 section 5.11): +0 equals -0 and a NaN equals nothing.
 */
module FloatCompare {

  const TWO_TO_23: int := 0x80_0000
  const TWO_TO_31: int := 0x8000_0000
  const TWO_TO_32: int := 0x1_0000_0000
  const INT_MIN: int := -0x8000_0000
  const INT_MAX: int := 0x7FFF_FFFF

  /**
   * The 32 bits of a `float`, as an unsigned value. An integer range rather than `bv32`: the
   * comparisons reinterpret these bits as a signed `int` and subtract, and that two's-complement
   * arithmetic, with its wrap-around written out, is what the lemmas reason about.
   */
  type Bits = x: int | 0 <= x < TWO_TO_32

  /** The values of a 32-bit `int`. */
  type Int32 = x: int | INT_MIN <= x <= INT_MAX

  const POSITIVE_INFINITY: Bits := 0x7F80_0000
  const NEGATIVE_INFINITY: Bits := 0xFF80_0000
  /** `0x7F800000`: the exponent field all ones. */
  const EXPONENT_ALL_ONES: nat := 0xFF

  /** `a & 0x80000000 != 0`: the sign bit is set. */
  predicate Negative(a: Bits) {
    a >= TWO_TO_31
  }

  /** `a & 0x7FFFFFFF`: the encoding without its sign bit, i.e. how many representable steps the value is from zero. */
  function Magnitude(a: Bits): (r: nat)
    ensures r <= INT_MAX
    ensures a == (if Negative(a) then TWO_TO_31 else 0) + r
  {
    a % TWO_TO_31
  }

  /** `(a & 0x7F800000) >> 23`: the biased exponent. */
  function Exponent(a: Bits): (r: nat)
    ensures r <= EXPONENT_ALL_ONES
  {
    Magnitude(a) / TWO_TO_23
  }

  /** `a & 0x007FFFFF`: the mantissa field. */
  function Mantissa(a: Bits): (r: nat)
    ensures r < TWO_TO_23
    ensures Magnitude(a) == Exponent(a) * TWO_TO_23 + r
  {
    a % TWO_TO_23
  }

  /** `*(int *)&A`: the pattern read as a two's-complement `int`. */
  function AsInt(a: Bits): (r: Int32)
    ensures r < 0 <==> Negative(a)
    ensures r == if Negative(a) then INT_MIN + Magnitude(a) else Magnitude(a)
  {
    if a < TWO_TO_31 then a else a - TWO_TO_32
  }

  /** An `int` result of 32-bit arithmetic: `x` reduced modulo 2^32 into the `int` range. */
  function Wrap(x: int): (r: Int32)
    ensures (r - x) % TWO_TO_32 == 0
    ensures INT_MIN <= x <= INT_MAX ==> r == x
  {
    (x - INT_MIN) % TWO_TO_32 + INT_MIN
  }

  /** `abs` on `int`: `abs(INT_MIN)` overflows back to `INT_MIN`. */
  function Abs(x: Int32): (r: Int32)
    ensures x != INT_MIN ==> r >= 0 && (r == x || r == -x)
    ensures x == INT_MIN ==> r == INT_MIN
  {
    if x == INT_MIN then INT_MIN else if x < 0 then -x else x
  }

  /** `IsInfinite`: the exponent is all ones and the mantissa zero, with either sign. */
  function IsInfinite(a: Bits): (r: bool)
    ensures r <==> a == POSITIVE_INFINITY || a == NEGATIVE_INFINITY
  {
    Magnitude(a) == POSITIVE_INFINITY
  }

  /** `IsNan`: the exponent is all ones and the mantissa non-zero. */
  function IsNan(a: Bits): (r: bool)
    ensures r <==> Magnitude(a) > POSITIVE_INFINITY
    ensures r ==> !IsInfinite(a)
  {
    Exponent(a) == EXPONENT_ALL_ONES && Mantissa(a) != 0
  }

  /** `Sign`: the sign bit in place, read as an `int`, so either 0 or `INT_MIN`. */
  function Sign(a: Bits): (r: Int32)
    ensures r == 0 || r == INT_MIN
    ensures r == INT_MIN <==> Negative(a)
  {
    AsInt(a - Magnitude(a))
  }

  /** `A == B` on floats (IEEE 754-2008 section 5.11): no NaN, and the same pattern or two zeros. */
  predicate FloatEquals(a: Bits, b: Bits) {
    !IsNan(a) && !IsNan(b) && (a == b || (Magnitude(a) == 0 && Magnitude(b) == 0))
  }

  /**
   * The remap `if (aInt < 0) aInt = 0x80000000 - aInt;`. The literal 0x80000000 is an
   * `unsigned int`, so the subtraction is modulo 2^32 before the result is stored in `aInt`.
   */
  function Lexicographic(a: Bits): (r: Int32)
    ensures r == if Negative(a) then -(Magnitude(a) as int) else Magnitude(a)
  {
    var aInt := AsInt(a);
    if aInt < 0 then AsInt((TWO_TO_31 - aInt) % TWO_TO_32) else aInt
  }

  /** The numeric order of two non-NaN floats, stated on sign and magnitude. */
  predicate FloatAtMost(a: Bits, b: Bits)
    requires !IsNan(a) && !IsNan(b)
  {
    if Magnitude(a) == 0 && Magnitude(b) == 0 then true
    else if !Negative(a) && !Negative(b) then Magnitude(a) <= Magnitude(b)
    else if Negative(a) && Negative(b) then Magnitude(b) <= Magnitude(a)
    else Negative(a)
  }

  /** The remap orders non-NaN floats as their values are ordered, with both zeros at 0. */
  lemma LexicographicIsOrdered(a: Bits, b: Bits)
    requires !IsNan(a) && !IsNan(b)
    ensures Lexicographic(a) <= Lexicographic(b) <==> FloatAtMost(a, b)
    ensures Lexicographic(a) == Lexicographic(b) <==> FloatEquals(a, b)
  {
  }

  /** The difference of the magnitudes: the distance in representable steps between two floats of the same sign. */
  function UlpDistance(a: Bits, b: Bits): nat {
    if Magnitude(a) <= Magnitude(b) then Magnitude(b) - Magnitude(a) else Magnitude(a) - Magnitude(b)
  }

  /**
   * `abs(*(int*)&A - *(int*)&B)`: the ulp distance for one sign; across the sign the difference
   * wraps to 2^31 minus the magnitude difference, which is `INT_MIN` for equal magnitudes.
   */
  lemma RawDifference(a: Bits, b: Bits)
    ensures Negative(a) == Negative(b) ==> Abs(Wrap(AsInt(a) - AsInt(b))) == UlpDistance(a, b)
    ensures Negative(a) != Negative(b) ==>
      Abs(Wrap(AsInt(a) - AsInt(b))) == (if UlpDistance(a, b) == 0 then INT_MIN else TWO_TO_31 - UlpDistance(a, b))
  {
    var d := AsInt(a) - AsInt(b);
    if Negative(a) != Negative(b) && d < INT_MIN {
      assert Wrap(d) == d + TWO_TO_32;
    } else if Negative(a) != Negative(b) && d > INT_MAX {
      assert Wrap(d) == d - TWO_TO_32;
    }
  }

  /** `AlmostEqualUlps`: equal as floats, or the raw patterns are at most `maxUlps` apart. */
  function AlmostEqualUlps(a: Bits, b: Bits, maxUlps: Int32): (r: bool)
    ensures FloatEquals(a, b) ==> r
    ensures !FloatEquals(a, b) && Negative(a) == Negative(b) ==> (r <==> UlpDistance(a, b) <= maxUlps)
    ensures !FloatEquals(a, b) && Negative(a) != Negative(b) ==>
      (r <==> UlpDistance(a, b) == 0 || TWO_TO_31 - UlpDistance(a, b) <= maxUlps)
  {
    RawDifference(a, b);
    FloatEquals(a, b) || Abs(Wrap(AsInt(a) - AsInt(b))) <= maxUlps
  }

  /**
   * `AlmostEqual2sComplement`: the remapped patterns, subtracted in 32 bits, are at most
   * `maxUlps` apart. Across the sign the difference is the sum of the magnitudes, which wraps
   * once it reaches 2^31: at 2^31 it is `INT_MIN`, which passes every bound, and above it the
   * distance comes out as 2^32 minus the sum.
   */
  function AlmostEqual2sComplement(a: Bits, b: Bits, maxUlps: Int32): (r: bool)
    ensures Negative(a) == Negative(b) ==> (r <==> UlpDistance(a, b) <= maxUlps)
    ensures Magnitude(a) == 0 && Magnitude(b) == 0 ==> (r <==> 0 <= maxUlps)
    ensures Negative(a) != Negative(b) && Magnitude(a) + Magnitude(b) < TWO_TO_31 ==>
      (r <==> Magnitude(a) + Magnitude(b) <= maxUlps)
    ensures Negative(a) != Negative(b) && Magnitude(a) + Magnitude(b) == TWO_TO_31 ==> r
    ensures Negative(a) != Negative(b) && Magnitude(a) + Magnitude(b) > TWO_TO_31 ==>
      (r <==> TWO_TO_32 - (Magnitude(a) + Magnitude(b)) <= maxUlps)
  {
    var aInt := Lexicographic(a);
    var bInt := Lexicographic(b);
    var intDiff := Abs(Wrap(aInt - bInt));
    intDiff <= maxUlps
  }

  /** Swapping the operands never changes the answer of AlmostEqual2sComplement. */
  lemma AlmostEqual2sComplementSymmetric(a: Bits, b: Bits, maxUlps: Int32)
    ensures AlmostEqual2sComplement(a, b, maxUlps) == AlmostEqual2sComplement(b, a, maxUlps)
  {
    var d := Lexicographic(a) - Lexicographic(b);
    WrapNegate(d);
  }

  /** Negating before wrapping negates after wrapping, except that `INT_MIN` stays itself. */
  lemma WrapNegate(x: int)
    ensures Wrap(-x) == if Wrap(x) == INT_MIN then INT_MIN else -Wrap(x)
  {
    var w := Wrap(x);
    assert (w - x) % TWO_TO_32 == 0;
    var k := (w - x) / TWO_TO_32;
    assert w == x + k * TWO_TO_32;
    var v := if w == INT_MIN then INT_MIN else -w;
    assert v == -x - k * TWO_TO_32 || v == -x - k * TWO_TO_32 - TWO_TO_32;
    WrapUnique(-x, v);
  }

  /** `Wrap(x)` is the only `int` congruent to `x` modulo 2^32. */
  lemma WrapUnique(x: int, v: Int32)
    requires (v - x) % TWO_TO_32 == 0
    ensures Wrap(x) == v
  {
    var w := Wrap(x);
    assert ((w - x) - (v - x)) % TWO_TO_32 == 0;
    assert (w - v) % TWO_TO_32 == 0;
  }

  /**
   * `AlmostEqualUlpsFinal`: infinities equal only an equal infinity, a NaN equals
   * nothing, floats of opposite signs are close only when they are equal (the two
   * zeros), and otherwise the patterns are at most `maxUlps` apart.
   */
  function AlmostEqualUlpsFinal(a: Bits, b: Bits, maxUlps: Int32): (r: bool)
    ensures IsInfinite(a) || IsInfinite(b) ==> (r <==> FloatEquals(a, b))
    ensures IsNan(a) || IsNan(b) ==> !r
    ensures Negative(a) != Negative(b) ==> (r <==> FloatEquals(a, b))
    ensures Negative(a) == Negative(b) && !IsInfinite(a) && !IsInfinite(b) && !IsNan(a) && !IsNan(b) ==>
              (r <==> UlpDistance(a, b) <= maxUlps)
  {
    if IsInfinite(a) || IsInfinite(b) then FloatEquals(a, b)
    else if IsNan(a) || IsNan(b) then false
    else if Sign(a) != Sign(b) then FloatEquals(a, b)
    else
      var aInt := Lexicographic(a);
      var bInt := Lexicographic(b);
      var intDiff := Abs(Wrap(aInt - bInt));
      intDiff <= maxUlps
  }

  // ---------------------------------------------------------------------------
  // The expectations main checks, on the patterns of its operands

  const ZERO: Bits := 0x0000_0000
  const NEGATIVE_ZERO: Bits := 0x8000_0000
  const TWO: Bits := 0x4000_0000                  // 2.0f
  const JUST_BELOW_TWO: Bits := 0x3FFF_FFFF       // 1.9999999f rounds to one step below 2
  const FOUR_BELOW_TWO: Bits := 0x3FFF_FFFC       // 1.9999995f rounds to four steps below 2
  const FLT_MAX: Bits := 0x7F7F_FFFF
  const DEFAULT_NAN: Bits := 0xFFC0_0000          // 0/0 and inf - inf on x86
  const SMALLEST_DENORMAL: Bits := 0x0000_0001
  const NEGATIVE_SMALLEST_DENORMAL: Bits := 0x8000_0001

  /** The cases both functions should get right, with the default maxUlps of 10. */
  lemma CommonExpectations()
    ensures AlmostEqual2sComplement(ZERO, NEGATIVE_ZERO, 10) && AlmostEqualUlpsFinal(ZERO, NEGATIVE_ZERO, 10)
    ensures AlmostEqual2sComplement(TWO, JUST_BELOW_TWO, 10) && AlmostEqualUlpsFinal(TWO, JUST_BELOW_TWO, 10)
    ensures AlmostEqual2sComplement(TWO, FOUR_BELOW_TWO, 10) && AlmostEqualUlpsFinal(TWO, FOUR_BELOW_TWO, 10)
    ensures AlmostEqual2sComplement(FOUR_BELOW_TWO, TWO, 10) && AlmostEqualUlpsFinal(FOUR_BELOW_TWO, TWO, 10)
  {
  }

  /** The cases where the two functions differ: 32-bit wrap, FLT_MAX next to infinity, NaNs, opposite-sign denormals. */
  lemma DifferingExpectations()
    ensures AlmostEqual2sComplement(POSITIVE_INFINITY, NEGATIVE_INFINITY, 16 * 1024 * 1024)
    ensures !AlmostEqualUlpsFinal(POSITIVE_INFINITY, NEGATIVE_INFINITY, 16 * 1024 * 1024)
    ensures AlmostEqual2sComplement(FLT_MAX, POSITIVE_INFINITY, 10)
    ensures !AlmostEqualUlpsFinal(FLT_MAX, POSITIVE_INFINITY, 10)
    ensures AlmostEqual2sComplement(DEFAULT_NAN, DEFAULT_NAN, 10)
    ensures !AlmostEqualUlpsFinal(DEFAULT_NAN, DEFAULT_NAN, 10)
    ensures AlmostEqual2sComplement(SMALLEST_DENORMAL, NEGATIVE_SMALLEST_DENORMAL, 10)
    ensures !AlmostEqualUlpsFinal(SMALLEST_DENORMAL, NEGATIVE_SMALLEST_DENORMAL, 10)
  {
  }

  // ---------------------------------------------------------------------------
  // abs(INT_MIN): a float and its negation can compare as equal

  const NEGATIVE_TWO: Bits := 0xC000_0000        // -2.0f
  const ONE: Bits := 0x3F80_0000                 // 1.0f
  const NEGATIVE_ONE: Bits := 0xBF80_0000        // -1.0f

  /**
   * As written, AlmostEqualUlps calls every non-zero float equal to its own negation:
   * the raw difference is exactly 2^31, which wraps to `INT_MIN`, whose `abs` stays negative.
   */
  lemma UlpsEqualsItsNegation(a: Bits, maxUlps: Int32)
    requires !Negative(a)
    ensures AlmostEqualUlps(a, a + TWO_TO_31, maxUlps)
  {
    assert Wrap(AsInt(a) - AsInt(a + TWO_TO_31)) == INT_MIN;
  }

  /** As written, AlmostEqual2sComplement calls 2.0 and -2.0 equal, for every maxUlps. */
  lemma TwosComplementTwoEqualsMinusTwo(maxUlps: Int32)
    ensures AlmostEqual2sComplement(TWO, NEGATIVE_TWO, maxUlps)
    ensures AlmostEqualUlps(ONE, NEGATIVE_ONE, maxUlps)
  {
    assert Wrap(Lexicographic(TWO) - Lexicographic(NEGATIVE_TWO)) == INT_MIN;
    UlpsEqualsItsNegation(ONE, maxUlps);
  }

  /** The size of a wrapped 32-bit difference, read without overflow: `INT_MIN` is 2^31 steps away. */
  function Distance(x: Int32): (r: nat)
    ensures r <= TWO_TO_31
    ensures r == if x < 0 then -(x as int) else x
  {
    if x < 0 then -(x as int) else x
  }

  /** AlmostEqualUlps with the difference's size taken without the `abs(INT_MIN)` overflow. */
  function AlmostEqualUlpsCorrected(a: Bits, b: Bits, maxUlps: Int32): (r: bool)
    ensures FloatEquals(a, b) ==> r
    ensures !FloatEquals(a, b) && Negative(a) == Negative(b) ==> (r <==> UlpDistance(a, b) <= maxUlps)
    ensures Negative(a) != Negative(b) && Magnitude(a) == Magnitude(b) && Magnitude(a) != 0 ==> !r
    ensures Wrap(AsInt(a) - AsInt(b)) != INT_MIN ==> r == AlmostEqualUlps(a, b, maxUlps)
  {
    FloatEquals(a, b) || Distance(Wrap(AsInt(a) - AsInt(b))) <= maxUlps
  }

  /**
   * AlmostEqual2sComplement with the difference's size taken without the `abs(INT_MIN)`
   * overflow. It still wraps (infinity and -infinity are 2^24 steps apart), as main expects.
   */
  function AlmostEqual2sComplementCorrected(a: Bits, b: Bits, maxUlps: Int32): (r: bool)
    ensures Negative(a) == Negative(b) ==> (r <==> UlpDistance(a, b) <= maxUlps)
    ensures Magnitude(a) == 0 && Magnitude(b) == 0 ==> (r <==> 0 <= maxUlps)
    ensures r ==> Wrap(Lexicographic(a) - Lexicographic(b)) != INT_MIN
    ensures Wrap(Lexicographic(a) - Lexicographic(b)) != INT_MIN ==> r == AlmostEqual2sComplement(a, b, maxUlps)
  {
    Distance(Wrap(Lexicographic(a) - Lexicographic(b))) <= maxUlps
  }

  /** The corrected functions keep every expectation of main and reject 2.0 against -2.0. */
  lemma CorrectedExpectations(maxUlps: Int32)
    ensures !AlmostEqual2sComplementCorrected(TWO, NEGATIVE_TWO, maxUlps)
    ensures !AlmostEqualUlpsCorrected(ONE, NEGATIVE_ONE, maxUlps)
    ensures AlmostEqual2sComplementCorrected(ZERO, NEGATIVE_ZERO, 10)
    ensures AlmostEqual2sComplementCorrected(TWO, FOUR_BELOW_TWO, 10)
    ensures AlmostEqual2sComplementCorrected(POSITIVE_INFINITY, NEGATIVE_INFINITY, 16 * 1024 * 1024)
    ensures AlmostEqual2sComplementCorrected(FLT_MAX, POSITIVE_INFINITY, 10)
    ensures AlmostEqual2sComplementCorrected(DEFAULT_NAN, DEFAULT_NAN, 10)
    ensures AlmostEqual2sComplementCorrected(SMALLEST_DENORMAL, NEGATIVE_SMALLEST_DENORMAL, 10)
  {
  }

  /** The corrected AlmostEqual2sComplement is symmetric too. */
  lemma AlmostEqual2sComplementCorrectedSymmetric(a: Bits, b: Bits, maxUlps: Int32)
    ensures AlmostEqual2sComplementCorrected(a, b, maxUlps) == AlmostEqual2sComplementCorrected(b, a, maxUlps)
  {
    WrapNegate(Lexicographic(a) - Lexicographic(b));
  }
}
