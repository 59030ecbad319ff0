/**
  The arithmetic the kernels compute with: binary32 words multiplied in binary64, rounded
  binary64 addition, and the quotient by delta, rounded to binary64 and truncated. It
  obeys every law the searches ask for, for every positive finite delta.
 */
module BinaryArithmetic {
  import opened Basics
  import opened Binary64
  import opened RoutingGraph
  import opened DeltaNecessity

  const HIDDEN_BIT_32: nat := 0x80_0000
  const BUCKET_BOUND: nat := 0x1_0000_0000_0000_0000

  /** The value of a finite binary32 word in units of 2^-149; negative zero is zero. */
  function Value32(bits: nat): (v: nat) {
    var exponent := bits / HIDDEN_BIT_32;
    var fraction := bits % HIDDEN_BIT_32;
    if exponent == 0 || bits == 0x8000_0000 then fraction else (HIDDEN_BIT_32 + fraction) * Pow2(exponent - 1)
  }

  /** From units of 2^-298 to units of 2^-1074. */
  const PRODUCT_SHIFT: nat := 776

  /** The product of two words, in units of 2^-1074 and rounded to binary64. */
  ghost function RoundedProduct(base: nat, multiplier: nat, shift: nat): nat {
    NearestEven(Value32(base) * Value32(multiplier) * Pow2(shift))
  }

  /** distance / delta, rounded to binary64; one is the pattern of one. */
  ghost function RoundedQuotient(x: nat, delta: nat, one: nat): nat
    requires x < INFINITY && one < INFINITY && 0 < delta < INFINITY
  {
    PositiveValue(delta);
    Nearest(Value(x) * Value(one), Value(delta))
  }

  /** The whole part of a finite pattern. */
  ghost function Whole(q: nat, one: nat): nat
    requires q < INFINITY && 0 < one < INFINITY
  {
    PositiveValue(one);
    Divide(Value(q), Value(one))
  }

  function Divide(n: nat, d: nat): nat
    requires d > 0
  {
    n / d
  }

  /** bucket_index: the rounded quotient, truncated, where it is finite and below 2^64. */
  ghost function BucketIndex(x: nat, delta: nat, one: nat): Option<nat>
    requires 0 < one < INFINITY
  {
    if x < INFINITY && 0 < delta < INFINITY then
      var q := RoundedQuotient(x, delta, one);
      if q < INFINITY && Whole(q, one) < BUCKET_BOUND then Some(Whole(q, one)) else None
    else
      None
  }

  ghost function Binary(delta: nat): Arithmetic {
    Arithmetic((x: nat, y: nat) => RoundedSum(NearestEven, x, y),
               (base: nat, multiplier: nat) => RoundedProduct(base, multiplier, PRODUCT_SHIFT),
               delta,
               (x: nat) => BucketIndex(x, delta, ONE))
  }

  // The laws.

  lemma ZeroValue(zero: nat)
    requires zero == 0
    ensures Value(zero) == 0 && Value32(zero) == 0
  {
  }

  lemma PositiveValue(delta: nat)
    requires 0 < delta < INFINITY
    ensures Value(delta) > 0
  {
    ZeroValue(0);
    BitOrderIsNumericOrder(0, delta);
  }

  lemma QuotientGrows(x: nat, y: nat, delta: nat, one: nat)
    requires x <= y < INFINITY && one < INFINITY && 0 < delta < INFINITY
    ensures RoundedQuotient(x, delta, one) <= RoundedQuotient(y, delta, one)
  {
    PositiveValue(delta);
    BitOrderIsNumericOrder(x, y);
    Scale(Value(x), Value(y), Value(one));
    NearestIsMonotone(Value(x) * Value(one), Value(y) * Value(one), Value(delta));
  }

  lemma WholeGrows(q: nat, r: nat, one: nat)
    requires q <= r < INFINITY && 0 < one < INFINITY
    ensures Whole(q, one) <= Whole(r, one)
  {
    PositiveValue(one);
    BitOrderIsNumericOrder(q, r);
    QuotientIsMonotone(Value(q), Value(r), Value(one));
  }

  lemma BucketGrows(x: nat, y: nat, delta: nat, one: nat)
    requires 0 < one < INFINITY && x <= y && BucketIndex(y, delta, one).Some?
    ensures BucketIndex(x, delta, one).Some? && BucketIndex(x, delta, one).value <= BucketIndex(y, delta, one).value
  {
    QuotientGrows(x, y, delta, one);
    WholeGrows(RoundedQuotient(x, delta, one), RoundedQuotient(y, delta, one), one);
  }

  lemma BucketOfZero(delta: nat, one: nat)
    requires 0 < delta < INFINITY && 0 < one < INFINITY
    ensures BucketIndex(0, delta, one) == Some(0)
  {
    PositiveValue(delta);
    PositiveValue(one);
    ZeroValue(0);
    NearestOfValue(0, Value(delta));
    AtMostQuotient(1, 0, Value(one));
  }

  lemma SumsAreLawful(arithmetic: Arithmetic)
    requires forall x: nat, y: nat :: arithmetic.add(x, y) == RoundedSum(NearestEven, x, y)
    ensures arithmetic.Lawful()
  {
    NearestEvenIsRounding();
    forall x: nat, y: nat, w: nat | x <= y
      ensures arithmetic.add(x, w) <= arithmetic.add(y, w)
    {
      RoundedSumIsMonotone(NearestEven, x, y, w);
    }
    forall x: nat, w: nat | x <= INFINITY
      ensures x <= arithmetic.add(x, w) <= INFINITY
    {
      RoundedSumInflates(NearestEven, x, w);
    }
  }

  lemma QuotientsAreBuckets(arithmetic: Arithmetic, one: nat)
    requires 0 < arithmetic.delta < INFINITY
    requires 0 < one < INFINITY && forall x: nat :: arithmetic.bucket(x) == BucketIndex(x, arithmetic.delta, one)
    ensures arithmetic.Bucketed()
  {
    BucketOfZero(arithmetic.delta, one);
    forall x: nat, y: nat | x <= y && arithmetic.bucket(y).Some?
      ensures arithmetic.bucket(x).Some? && arithmetic.bucket(x).value <= arithmetic.bucket(y).value
    {
      BucketGrows(x, y, arithmetic.delta, one);
    }
  }

  lemma AddingZero(x: nat)
    requires x <= INFINITY
    ensures RoundedSum(NearestEven, x, 0) == x
  {
    if x < INFINITY {
      ZeroValue(0);
      NearestEvenOfValue(x);
    }
  }

  lemma AddingToZero(x: nat)
    requires x < INFINITY
    ensures RoundedSum(NearestEven, 0, x) == x
  {
    ZeroValue(0);
    NearestEvenOfValue(x);
  }

  lemma ZeroWeight(multiplier: nat, shift: nat)
    ensures RoundedProduct(0, multiplier, shift) == 0
  {
    ZeroValue(0);
    NearestEvenOfValue(0);
  }

  /** The kernels' arithmetic obeys every law the searches ask for. */
  lemma BinaryIsLawful(delta: nat)
    requires 0 < delta < INFINITY
    ensures Binary(delta).Lawful() && Binary(delta).Bucketed() && Grounded(Binary(delta))
  {
    SumsAreLawful(Binary(delta));
    QuotientsAreBuckets(Binary(delta), ONE);
    forall m: nat
      ensures RoundedProduct(0, m, PRODUCT_SHIFT) == 0
    {
      ZeroWeight(m, PRODUCT_SHIFT);
    }
    forall x: nat | x <= INFINITY
      ensures RoundedSum(NearestEven, x, 0) == x
    {
      AddingZero(x);
    }
  }

  // Powers of two and whole numbers.

  lemma HiddenBitsArePowers()
    ensures Pow2(23) == HIDDEN_BIT_32 && Pow2(52) == HIDDEN_BIT
  {
    assert Pow2(13) == 8192;
    assert Pow2(10) == 1024;
    Pow2Splits(13, 10);
    Pow2Splits(13, 13);
    Pow2Splits(26, 26);
  }

  lemma PatternParts(e: nat, f: nat)
    requires f < HIDDEN_BIT
    ensures (e * HIDDEN_BIT + f) / HIDDEN_BIT == e && (e * HIDDEN_BIT + f) % HIDDEN_BIT == f
    ensures e < 2047 ==> e * HIDDEN_BIT + f < INFINITY
  {
  }

  lemma PowerValue(e: nat)
    requires 1 <= e < 2047
    ensures e * HIDDEN_BIT < INFINITY && Value(e * HIDDEN_BIT) == HIDDEN_BIT * Pow2(e - 1) == Pow2(52 + (e - 1))
  {
    PatternParts(e, 0);
    HiddenBitsArePowers();
    Pow2Splits(52, e - 1);
  }

  /** Multiplying by a power of two moves the exponent. */
  lemma ShiftedValue(z: nat, d: nat, one: nat)
    requires 1 <= d < 2047 && HIDDEN_BIT <= z < INFINITY && one == 1023 * HIDDEN_BIT
    requires one + HIDDEN_BIT <= z + d * HIDDEN_BIT < INFINITY + one
    ensures Value(z) * Value(d * HIDDEN_BIT) == Value(z + d * HIDDEN_BIT - one) * Value(one)
  {
    var e, f := z / HIDDEN_BIT, z % HIDDEN_BIT;
    var g := e + d - 1023;
    assert z + d * HIDDEN_BIT - one == g * HIDDEN_BIT + f;
    PatternParts(g, f);
    PowerValue(d);
    PowerValue(1023);
    Pow2Splits(e - 1, d - 1);
    Pow2Splits(g - 1, 1023 - 1);
    Regroup(HIDDEN_BIT + f, Pow2(e - 1), HIDDEN_BIT, Pow2(d - 1));
    Regroup(HIDDEN_BIT + f, Pow2(g - 1), HIDDEN_BIT, Pow2(1023 - 1));
  }

  lemma Regroup(a: nat, b: nat, c: nat, d: nat)
    ensures (a * b) * (c * d) == (a * c) * (b * d)
  {
  }

  /** The word of 2^k, in units of 2^-149: subnormal below 2^23. */
  function PowerWord(k: nat): nat {
    if k < 23 then Pow2(k) else (k - 22) * HIDDEN_BIT_32
  }

  lemma WordParts(e: nat)
    ensures (e * HIDDEN_BIT_32) / HIDDEN_BIT_32 == e && (e * HIDDEN_BIT_32) % HIDDEN_BIT_32 == 0
  {
  }

  lemma PowerWordValue(k: nat)
    requires k <= 276
    ensures Value32(PowerWord(k)) == Pow2(k) && FiniteNonNegative(PowerWord(k))
  {
    HiddenBitsArePowers();
    if k < 23 {
      Pow2Grows(k, 22);
      Pow2Splits(22, 1);
      SmallWord(Pow2(k));
    } else {
      NormalWord(k - 22);
      Pow2Splits(23, k - 23);
    }
  }

  lemma SmallWord(f: nat)
    requires f < HIDDEN_BIT_32
    ensures Value32(f) == f && FiniteNonNegative(f)
  {
  }

  lemma NormalWord(e: nat)
    requires 1 <= e < 255
    ensures Value32(e * HIDDEN_BIT_32) == HIDDEN_BIT_32 * Pow2(e - 1) && FiniteNonNegative(e * HIDDEN_BIT_32)
  {
    WordParts(e);
  }

  /** Powers of two multiply without rounding: the exponents add up. */
  lemma PowerProduct(j: nat, k: nat, shift: nat, g: nat)
    requires j <= 276 && k <= 276 && 1 <= g < 2047 && 52 + (g - 1) == j + k + shift
    ensures RoundedProduct(PowerWord(j), PowerWord(k), shift) == g * HIDDEN_BIT
  {
    PowerWordValue(j);
    PowerWordValue(k);
    Pow2Splits(j, k);
    Pow2Splits(j + k, shift);
    PowerValue(g);
    NearestEvenOfValue(g * HIDDEN_BIT);
  }
}
