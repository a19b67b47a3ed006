/** The bit operations of FloatingPoint in gtest-internal.h, in the widths of float and double, and
    the proof that they compute what FloatingPoint says of numbers: the biased form of a pattern,
    the test for NaN, the distance of two patterns and the whole comparison.  Wide patterns are
    taken apart into bytes where a mask is compared. */
module FloatBits {
  import opened BitNumbers
  import opened FloatingPoint

  // ---------- 32 bits ----------

  function SignAndMagnitudeToBiased32(sam: bv32): bv32 {
    if 0x8000_0000 & sam != 0 then !sam + 1 else 0x8000_0000 | sam
  }

  predicate IsNan32(b: bv32) {
    0x7F80_0000 & b == 0x7F80_0000 && 0x7F_FFFF & b != 0
  }

  /** The bits are biased as the number is: to 2^32 - b with the sign, and to 2^31 + b without. */
  lemma BiasedBits32(b: bv32)
    ensures Number32(SignAndMagnitudeToBiased32(b)) == SignAndMagnitudeToBiased(FLOAT, Number32(b))
  {
    hide Number32;
    Masks();
    Bits32(b);
    Bits32(!b);
  }

  // ---------- 64 bits ----------

  function SignAndMagnitudeToBiased64(sam: bv64): bv64 {
    if 0x8000_0000_0000_0000 & sam != 0 then !sam + 1 else 0x8000_0000_0000_0000 | sam
  }

  predicate IsNan64(b: bv64) {
    0x7FF0_0000_0000_0000 & b == 0x7FF0_0000_0000_0000 && 0xF_FFFF_FFFF_FFFF & b != 0
  }

  /** The bits are biased as the number is: to 2^64 - b with the sign, and to 2^63 + b without. */
  lemma BiasedBits64(b: bv64)
    ensures Number64(SignAndMagnitudeToBiased64(b)) == SignAndMagnitudeToBiased(DOUBLE, Number64(b))
  {
    hide Number64;
    Masks();
    Bits64(b);
    Bits64(!b);
  }

  // ---------- NaN ----------

  /** The exponent bits in the two highest bytes, for a float and for a double. */
  lemma ExponentBytes(x: bv8, y: bv8)
    ensures 0x7F & x == 0x7F <==> Number8(x) % 0x80 == 0x7F
    ensures 0x80 & y == 0x80 <==> Number8(y) >= 0x80
    ensures 0x7F & y == 0 <==> Number8(y) % 0x80 == 0
    ensures 0xF0 & y == 0xF0 <==> Number8(y) >= 0xF0
    ensures 0xF & y == 0 <==> Number8(y) % 0x10 == 0
  {
  }

  lemma NanParts32(b: bv32, x: bv8, y: bv8)
    requires x == High16(High32(b)) && y == Low16(High32(b))
    ensures IsNan32(b) <==> 0x7F & x == 0x7F && 0x80 & y == 0x80 && (0x7F & y != 0 || Low32(b) != 0)
  {
  }

  /** All exponent bits and some fraction bit are set in the magnitudes above the mask. */
  lemma NanBits32(b: bv32)
    ensures IsNan32(b) <==> IsNan(FLOAT, Number32(b))
  {
    hide IsNan32, High16, Low16, High32, Low32;
    var x, y := High16(High32(b)), Low16(High32(b));
    Masks();
    NanParts32(b, x, y);
    ExponentBytes(x, y);
    NotZero(Low32(b), 0);
  }

  lemma NotZero(b: bv16, c: bv32)
    ensures (b == 0 <==> Number16(b) == 0) && (c == 0 <==> Number32(c) == 0)
  {
    Bits16(b);
    Bits32(c);
  }

  lemma NanParts64(b: bv64, x: bv8, y: bv8, z: bv16)
    requires x == High16(High32(High64(b))) && y == Low16(High32(High64(b))) && z == Low32(High64(b))
    ensures IsNan64(b) <==> 0x7F & x == 0x7F && 0xF0 & y == 0xF0 && (0xF & y != 0 || z != 0 || Low64(b) != 0)
  {
  }

  lemma NanBytes64(x: nat, y: nat, z: nat, low: nat, n: nat)
    requires x < 0x100 && y < 0x100 && z < 0x1_0000 && low < 0x1_0000_0000
    requires n == 0x1_0000_0000 * (0x1_0000 * (0x100 * x + y) + z) + low
    ensures (if n >= 0x8000_0000_0000_0000 then n - 0x8000_0000_0000_0000 else n) > 0x7FF0_0000_0000_0000
            <==> x % 0x80 == 0x7F && y >= 0xF0 && (y % 0x10 != 0 || z > 0 || low > 0)
  {
  }

  lemma NanBits64(b: bv64)
    ensures IsNan64(b) <==> IsNan(DOUBLE, Number64(b))
  {
    hide IsNan64, High16, Low16, High32, Low32, High64, Low64, Number8;
    var h := High64(b);
    var x, y := High16(High32(h)), Low16(High32(h));
    Masks();
    NanBytes64(Number8(x), Number8(y), Number16(Low32(h)), Number32(Low64(b)), Number64(b));
    NanParts64(b, x, y, Low32(h));
    ExponentBytes(x, y);
    NotZero(Low32(h), Low64(b));
  }

  // ---------- The comparison ----------

  function Apart32(biased1: bv32, biased2: bv32): bv32 {
    if !Less32(biased1, biased2) then Minus32(biased1, biased2) else Minus32(biased2, biased1)
  }

  lemma ApartBits32(x: bv32, y: bv32)
    ensures var a, b := Number32(x), Number32(y);
            Number32(Apart32(x, y)) == if a >= b then a - b else b - a
  {
    hide Number32, Minus32, Less32;
    Order32(x, y);
    if Number32(x) >= Number32(y) {
      Difference32(x, y);
    } else {
      Difference32(y, x);
    }
  }

  function DistanceBetweenSignAndMagnitudeNumbers32(sam1: bv32, sam2: bv32): bv32 {
    Apart32(SignAndMagnitudeToBiased32(sam1), SignAndMagnitudeToBiased32(sam2))
  }

  lemma DistanceBits32(a: bv32, b: bv32)
    ensures Number32(DistanceBetweenSignAndMagnitudeNumbers32(a, b))
            == DistanceBetweenSignAndMagnitudeNumbers(FLOAT, Number32(a), Number32(b))
  {
    hide Number32, Apart32, SignAndMagnitudeToBiased32, SignAndMagnitudeToBiased;
    BiasedBits32(a);
    BiasedBits32(b);
    ApartBits32(SignAndMagnitudeToBiased32(a), SignAndMagnitudeToBiased32(b));
  }

  const MAX_ULPS_32: bv32 := 4

  predicate AlmostEquals32(lhs: bv32, rhs: bv32) {
    if IsNan32(lhs) || IsNan32(rhs) then false
    else !Less32(MAX_ULPS_32, DistanceBetweenSignAndMagnitudeNumbers32(lhs, rhs))
  }

  lemma MaxUlps32()
    ensures Number32(MAX_ULPS_32) == MAX_ULPS
  {
  }

  /** The comparison that is made on bits is the one of the numbers. */
  lemma AlmostEqualsBits32(a: bv32, b: bv32)
    ensures AlmostEquals32(a, b) <==> AlmostEquals(FLOAT, Number32(a), Number32(b))
  {
    hide Number32, Less32, IsNan32, IsNan;
    hide DistanceBetweenSignAndMagnitudeNumbers32, DistanceBetweenSignAndMagnitudeNumbers;
    NanBits32(a);
    NanBits32(b);
    DistanceBits32(a, b);
    MaxUlps32();
    Order32(MAX_ULPS_32, DistanceBetweenSignAndMagnitudeNumbers32(a, b));
  }

  function Apart64(biased1: bv64, biased2: bv64): bv64 {
    if !Less64(biased1, biased2) then Minus64(biased1, biased2) else Minus64(biased2, biased1)
  }

  lemma ApartBits64(x: bv64, y: bv64)
    ensures var a, b := Number64(x), Number64(y);
            Number64(Apart64(x, y)) == if a >= b then a - b else b - a
  {
    hide Number64, Minus64, Less64;
    Order64(x, y);
    if Number64(x) >= Number64(y) {
      Difference64(x, y);
    } else {
      Difference64(y, x);
    }
  }

  function DistanceBetweenSignAndMagnitudeNumbers64(sam1: bv64, sam2: bv64): bv64 {
    Apart64(SignAndMagnitudeToBiased64(sam1), SignAndMagnitudeToBiased64(sam2))
  }

  lemma DistanceBits64(a: bv64, b: bv64)
    ensures Number64(DistanceBetweenSignAndMagnitudeNumbers64(a, b))
            == DistanceBetweenSignAndMagnitudeNumbers(DOUBLE, Number64(a), Number64(b))
  {
    hide Number64, Apart64, SignAndMagnitudeToBiased64, SignAndMagnitudeToBiased;
    BiasedBits64(a);
    BiasedBits64(b);
    ApartBits64(SignAndMagnitudeToBiased64(a), SignAndMagnitudeToBiased64(b));
  }

  const MAX_ULPS_64: bv64 := 4

  predicate AlmostEquals64(lhs: bv64, rhs: bv64) {
    if IsNan64(lhs) || IsNan64(rhs) then false
    else !Less64(MAX_ULPS_64, DistanceBetweenSignAndMagnitudeNumbers64(lhs, rhs))
  }

  lemma MaxUlps64()
    ensures Number64(MAX_ULPS_64) == MAX_ULPS
  {
  }

  /** The comparison that is made on bits is the one of the numbers. */
  lemma AlmostEqualsBits64(a: bv64, b: bv64)
    ensures AlmostEquals64(a, b) <==> AlmostEquals(DOUBLE, Number64(a), Number64(b))
  {
    hide Number64, Less64, IsNan64, IsNan;
    hide DistanceBetweenSignAndMagnitudeNumbers64, DistanceBetweenSignAndMagnitudeNumbers;
    NanBits64(a);
    NanBits64(b);
    DistanceBits64(a, b);
    MaxUlps64();
    Order64(MAX_ULPS_64, DistanceBetweenSignAndMagnitudeNumbers64(a, b));
  }
}
