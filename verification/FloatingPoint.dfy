/** The floating-point comparison of gtest-internal.h: bit patterns as numbers, their distance in
    units in the last place, and what the distance says about the values.  FloatBits has the
    operations on bits that the source uses; here a format is given by how many fractions and
    exponents it has, so that the theorems hold for float and double alike. */
module FloatingPoint {
  import opened Basics

  /** A format of sign, exponent and fraction, given by how many fractions and exponents there
      are. Bit patterns are numbers below twice SignBit. */
  datatype Format = Format(fractions: nat, exponents: nat) {
    predicate Valid() {
      fractions >= 2 && exponents >= 2
    }

    /** The sign bit alone, which is also how many patterns are positive. */
    function SignBit(): (n: nat)
      requires Valid()
      ensures n > 0
    {
      ProductGrows(fractions, exponents);
      fractions * exponents
    }

    /** All exponent bits set: infinity. */
    function ExponentMask(): nat
      requires Valid()
    {
      SignBit() - fractions
    }

    predicate IsBits(b: nat)
      requires Valid()
    {
      b < 2 * SignBit()
    }
  }

  const FLOAT := Format(0x80_0000, 0x100)
  const DOUBLE := Format(0x10_0000_0000_0000, 0x800)
  const MAX_ULPS: nat := 4

  lemma ProductGrows(a: nat, b: nat)
    requires a >= 1 && b >= 1
    ensures a * b >= a && a * b >= b
  {
    assert a * b == a + a * (b - 1);
    assert a * b == b + (a - 1) * b;
  }

  /** The masks of the two formats. */
  lemma Masks()
    ensures FLOAT.SignBit() == 0x8000_0000 && FLOAT.ExponentMask() == 0x7F80_0000
    ensures DOUBLE.SignBit() == 0x8000_0000_0000_0000 && DOUBLE.ExponentMask() == 0x7FF0_0000_0000_0000
  {
  }

  /** The pattern without its sign. */
  function Magnitude(f: Format, b: nat): nat
    requires f.Valid() && f.IsBits(b)
  {
    if b >= f.SignBit() then b - f.SignBit() else b
  }

  predicate IsNan(f: Format, b: nat)
    requires f.Valid() && f.IsBits(b)
  {
    Magnitude(f, b) > f.ExponentMask()
  }

  function SignAndMagnitudeToBiased(f: Format, sam: nat): (biased: nat)
    requires f.Valid() && f.IsBits(sam)
    ensures f.IsBits(biased)
  {
    if sam >= f.SignBit() then
      2 * f.SignBit() - sam
    else f.SignBit() + sam
  }

  function DistanceBetweenSignAndMagnitudeNumbers(f: Format, sam1: nat, sam2: nat): nat
    requires f.Valid() && f.IsBits(sam1) && f.IsBits(sam2)
  {
    var biased1, biased2 := SignAndMagnitudeToBiased(f, sam1), SignAndMagnitudeToBiased(f, sam2);
    if biased1 >= biased2 then biased1 - biased2 else biased2 - biased1
  }

  predicate AlmostEquals(f: Format, lhs: nat, rhs: nat)
    requires f.Valid() && f.IsBits(lhs) && f.IsBits(rhs)
  {
    if IsNan(f, lhs) || IsNan(f, rhs) then false
    else DistanceBetweenSignAndMagnitudeNumbers(f, lhs, rhs) <= MAX_ULPS
  }

  // ---------- The values ----------

  function Pow2(n: nat): (p: nat)
    ensures p > 0
  {
    if n == 0 then 1 else 2 * Pow2(n - 1)
  }

  /** The value of a magnitude, in units of the smallest positive number: the fraction alone when
      the exponent is 0, and otherwise with a leading one, doubled for each further exponent. */
  function Scaled(f: Format, m: nat): nat
    requires f.Valid()
  {
    var exponent, fraction := m / f.fractions, m % f.fractions;
    if exponent == 0 then fraction else (f.fractions + fraction) * Pow2(exponent - 1)
  }

  /** The value that a pattern stands for; the infinities are the next values after the others. */
  function Value(f: Format, b: nat): int
    requires f.Valid() && f.IsBits(b)
  {
    if b >= f.SignBit() then -(Scaled(f, b - f.SignBit()) as int) else Scaled(f, b)
  }

  /** The place of a pattern among all the patterns: both zeros at 0. */
  function Rank(f: Format, b: nat): int
    requires f.Valid() && f.IsBits(b)
  {
    if b >= f.SignBit() then -((b - f.SignBit()) as int) else b
  }

  /** Magnitudes with the two lowest exponents are spaced as whole numbers, and from there on one
      more in the exponent doubles the value. */
  lemma ScaledDoubles(f: Format, m: nat)
    requires f.Valid()
    ensures m < 2 * f.fractions ==> Scaled(f, m) == m
    ensures m >= f.fractions ==> Scaled(f, m + f.fractions) == 2 * Scaled(f, m)
  {
    var n := f.fractions;
    var exponent, fraction := m / n, m % n;
    assert m == n * exponent + fraction;
    Quotient(m + n, n, exponent + 1, fraction);
    if m < n {
      Quotient(m, n, 0, m);
    } else {
      Doubled(n + fraction, exponent);
      if m < 2 * n {
        Quotient(m, n, 1, m - n);
      }
    }
  }

  lemma Doubled(a: nat, exponent: nat)
    requires exponent > 0
    ensures a * Pow2(exponent) == 2 * (a * Pow2(exponent - 1))
    ensures a * Pow2(0) == a
  {
    assert a * (2 * Pow2(exponent - 1)) == 2 * (a * Pow2(exponent - 1));
  }

  lemma ScaledStep(f: Format, m: nat)
    requires f.Valid()
    ensures Scaled(f, m) < Scaled(f, m + 1)
  {
    var n := f.fractions;
    var exponent, fraction := m / n, m % n;
    NextQuotient(m, n);
    if exponent > 0 {
      if fraction == n - 1 {
        LastFraction(n, Pow2(exponent - 1));
      } else {
        NextFraction(n, fraction, Pow2(exponent - 1));
      }
    } else if fraction == n - 1 {
      NoFraction(n);
    }
  }

  lemma NextFraction(n: nat, fraction: nat, p: nat)
    requires p > 0
    ensures (n + fraction) * p < (n + (fraction + 1)) * p
  {
    assert (n + (fraction + 1)) * p == (n + fraction) * p + p;
  }

  /** The first number of the next exponent. */
  lemma LastFraction(n: nat, p: nat)
    requires n > 0 && p > 0
    ensures (n + (n - 1)) * p < (n + 0) * (2 * p)
  {
    assert n * (2 * p) == (n + (n - 1)) * p + p;
  }

  lemma NoFraction(n: nat)
    ensures (n + 0) * Pow2(0) == n
  {
  }

  lemma {:induction false} ScaledGrows(f: Format, a: nat, b: nat)
    requires f.Valid() && a < b
    ensures Scaled(f, a) < Scaled(f, b)
    decreases b
  {
    ScaledStep(f, b - 1);
    if a < b - 1 {
      ScaledGrows(f, a, b - 1);
    }
  }

  lemma ScaledZero(f: Format)
    requires f.Valid()
    ensures Scaled(f, 0) == 0
  {
    Quotient(0, f.fractions, 0, 0);
  }

  /** Patterns are ranked as their values are ordered. */
  lemma RankIsOrder(f: Format, a: nat, b: nat)
    requires f.Valid() && f.IsBits(a) && f.IsBits(b)
    ensures Rank(f, a) < Rank(f, b) <==> Value(f, a) < Value(f, b)
    ensures Rank(f, a) == Rank(f, b) <==> Value(f, a) == Value(f, b)
  {
    var m, n := Magnitude(f, a), Magnitude(f, b);
    ScaledZero(f);
    if m > 0 {
      ScaledGrows(f, 0, m);
    }
    if n > 0 {
      ScaledGrows(f, 0, n);
    }
    if m < n {
      ScaledGrows(f, m, n);
    } else if n < m {
      ScaledGrows(f, n, m);
    }
  }

  /** The distance is how far the ranks are apart; nothing wraps around. */
  lemma DistanceIsRankDifference(f: Format, a: nat, b: nat)
    requires f.Valid() && f.IsBits(a) && f.IsBits(b)
    ensures DistanceBetweenSignAndMagnitudeNumbers(f, a, b) ==
      if Rank(f, a) >= Rank(f, b) then Rank(f, a) - Rank(f, b) else Rank(f, b) - Rank(f, a)
    ensures DistanceBetweenSignAndMagnitudeNumbers(f, a, b) < 2 * f.SignBit()
  {
  }

  /** Two numbers are almost equal exactly if neither is NaN and at most three other values lie
      between them. */
  lemma AlmostEqualsIff(f: Format, a: nat, b: nat)
    requires f.Valid() && f.IsBits(a) && f.IsBits(b)
    ensures AlmostEquals(f, a, b) <==>
      !IsNan(f, a) && !IsNan(f, b) && -4 <= Rank(f, a) - Rank(f, b) <= 4
  {
    DistanceIsRankDifference(f, a, b);
  }

  /** Equal values are at distance 0 and no others: the two zeros are one. */
  lemma DistanceZeroIffEqual(f: Format, a: nat, b: nat)
    requires f.Valid() && f.IsBits(a) && f.IsBits(b)
    ensures DistanceBetweenSignAndMagnitudeNumbers(f, a, b) == 0 <==> Value(f, a) == Value(f, b)
    ensures DistanceBetweenSignAndMagnitudeNumbers(f, a, b) == 0 <==>
      a == b || (Magnitude(f, a) == 0 && Magnitude(f, b) == 0)
  {
    RankIsOrder(f, a, b);
  }

  /** AlmostEquals is symmetric, and reflexive but for NaN. */
  lemma AlmostEqualsIsSymmetric(f: Format, a: nat, b: nat)
    requires f.Valid() && f.IsBits(a) && f.IsBits(b)
    ensures AlmostEquals(f, a, b) <==> AlmostEquals(f, b, a)
    ensures AlmostEquals(f, a, a) <==> !IsNan(f, a)
  {
  }

  /** Numbers between two almost equal ones are almost equal to both. */
  lemma MovingCloser(f: Format, a: nat, b: nat, c: nat)
    requires f.Valid() && f.IsBits(a) && f.IsBits(b) && f.IsBits(c) && AlmostEquals(f, a, b)
    requires Value(f, a) <= Value(f, c) <= Value(f, b) || Value(f, b) <= Value(f, c) <= Value(f, a)
    ensures AlmostEquals(f, c, b) && AlmostEquals(f, a, c)
  {
    hide Value, DistanceBetweenSignAndMagnitudeNumbers;
    DistanceIsRankDifference(f, a, b);
    DistanceIsRankDifference(f, c, b);
    DistanceIsRankDifference(f, a, c);
    RankIsOrder(f, a, c);
    RankIsOrder(f, c, b);
    RankIsOrder(f, a, b);
    RankIsOrder(f, c, a);
    RankIsOrder(f, b, c);
  }

  /** Of two steps along the values, the distances add up. */
  lemma DistancesAddUp(f: Format, a: nat, b: nat, c: nat)
    requires f.Valid() && f.IsBits(a) && f.IsBits(b) && f.IsBits(c)
    requires Value(f, a) <= Value(f, b) <= Value(f, c)
    ensures DistanceBetweenSignAndMagnitudeNumbers(f, a, c) ==
      DistanceBetweenSignAndMagnitudeNumbers(f, a, b) + DistanceBetweenSignAndMagnitudeNumbers(f, b, c)
  {
    RankIsOrder(f, a, b);
    RankIsOrder(f, b, c);
    RankIsOrder(f, b, a);
    RankIsOrder(f, c, b);
  }
}
