/**
  When a rounded sum lies in a later bucket than its first summand, with buckets computed
  by rounded division: for a delta that is a power of two, whenever the second summand
  exceeds delta and the sum is below 2^54 deltas; for any delta, whenever the sum exceeds
  the summand by more than delta and is below 2^53 deltas, where whole numbers of deltas
  are still told apart.
 */
module BucketSteps {
  import opened Basics
  import opened Binary64
  import opened BinaryArithmetic

  /** The quotients up to which every whole number is representable. */
  const WHOLE_LIMIT: nat := 2 * HIDDEN_BIT

  lemma {:induction false} Log2(n: nat) returns (j: nat)
    requires n >= 1
    ensures Pow2(j) <= n < Pow2(j + 1)
  {
    j := 0;
    if n > 1 {
      var k := Log2(n / 2);
      j := k + 1;
      assert Pow2(j) == 2 * Pow2(k) && Pow2(j + 1) == 2 * Pow2(k + 1);
    }
  }

  lemma Pow2Order(a: nat, b: nat)
    requires Pow2(a) < Pow2(b)
    ensures a < b
  {
    if b <= a {
      Pow2Grows(b, a);
    }
  }

  lemma WholeLimitIsPower()
    ensures Pow2(53) == WHOLE_LIMIT
  {
    HiddenBitsArePowers();
    Pow2Splits(52, 1);
  }

  /** The significand of a whole number in the binade of 2^j. */
  lemma Normalised(n: nat, j: nat)
    requires Pow2(j) <= n < Pow2(j + 1) && j <= 52
    ensures HIDDEN_BIT <= n * Pow2(52 - j) < 2 * HIDDEN_BIT
  {
    HiddenBitsArePowers();
    WholeLimitIsPower();
    Pow2Splits(j, 52 - j);
    Pow2Splits(j + 1, 52 - j);
    Scale(Pow2(j), n, Pow2(52 - j));
    Less(n, Pow2(j + 1), Pow2(52 - j));
  }

  lemma SmallWholePattern(n: nat, one: nat) returns (z: nat)
    requires 1 <= n < WHOLE_LIMIT && one == 1023 * HIDDEN_BIT
    ensures one <= z < 1076 * HIDDEN_BIT && Value(z) == n * Value(one)
  {
    var j := Log2(n);
    WholeLimitIsPower();
    Pow2Order(j, 53);
    Normalised(n, j);
    var f := n * Pow2(52 - j) - HIDDEN_BIT;
    var e := 1023 + j;
    z := e * HIDDEN_BIT + f;
    PatternParts(e, f);
    PowerValue(1023);
    WholeValue(n, j, e);
  }

  lemma WholeValue(n: nat, j: nat, e: nat)
    requires j <= 52 && e == 1023 + j
    ensures (n * Pow2(52 - j)) * Pow2(e - 1) == n * Pow2(52 + (1023 - 1))
  {
    Pow2Splits(52 - j, e - 1);
    assert (n * Pow2(52 - j)) * Pow2(e - 1) == n * (Pow2(52 - j) * Pow2(e - 1));
  }

  /** Every whole number up to 2^53 has a pattern. */
  lemma WholePattern(n: nat, one: nat) returns (z: nat)
    requires 1 <= n <= WHOLE_LIMIT && one == 1023 * HIDDEN_BIT
    ensures one <= z <= 1076 * HIDDEN_BIT && Value(z) == n * Value(one)
  {
    if n < WHOLE_LIMIT {
      z := SmallWholePattern(n, one);
    } else {
      z := 1076 * HIDDEN_BIT;
      PowerValue(1076);
      PowerValue(1023);
      WholeLimitIsPower();
      Pow2Splits(53, 52 + (1023 - 1));
    }
  }

  /** The whole part of a pattern, read off the pattern of a whole number. */
  lemma WholeAgainst(q: nat, z: nat, n: nat, one: nat)
    requires q < INFINITY && z < INFINITY && 0 < one < INFINITY && Value(z) == n * Value(one)
    ensures n <= Whole(q, one) <==> z <= q
  {
    PositiveValue(one);
    AtMostQuotient(n, Value(q), Value(one));
    BitOrderIsNumericOrder(z, q);
  }

  // A delta that is a power of two.

  /** n deltas, for a delta that is a power of two, are the pattern of n shifted. */
  lemma WholeDeltas(n: nat, z: nat, d: nat, one: nat)
    requires 2 <= d <= 1993 && one == 1023 * HIDDEN_BIT && one <= z <= 1076 * HIDDEN_BIT && Value(z) == n * Value(one)
    ensures var shifted := z + d * HIDDEN_BIT - one;
            && 1 <= shifted < INFINITY && Value(shifted) == n * Value(d * HIDDEN_BIT)
            && Value(shifted - 1) * Value(one) == Value(z - 1) * Value(d * HIDDEN_BIT)
  {
    var shifted := z + d * HIDDEN_BIT - one;
    assert d * HIDDEN_BIT >= 2 * HIDDEN_BIT;
    ShiftedValue(z, d, one);
    ShiftedValue(z - 1, d, one);
    assert z - 1 + d * HIDDEN_BIT - one == shifted - 1;
    PositiveValue(one);
    PowerValue(d);
    CancelUnit(Value(shifted), n, Value(d * HIDDEN_BIT), Value(one));
  }

  lemma CancelUnit(s: nat, n: nat, v: nat, u: nat)
    requires u > 0 && (n * u) * v == s * u
    ensures s == n * v
  {
    Exchange(n, u, v);
    QuotientOfProduct(s, u);
    QuotientOfProduct(n * v, u);
  }

  /** A distance below n deltas lies in a bucket below n. */
  lemma BelowDeltas(x: nat, n: nat, z: nat, d: nat, one: nat)
    requires 2 <= d <= 1993 && one == 1023 * HIDDEN_BIT && one <= z <= 1076 * HIDDEN_BIT && Value(z) == n * Value(one)
    requires x < INFINITY && Value(x) < n * Value(d * HIDDEN_BIT)
    requires BucketIndex(x, d * HIDDEN_BIT, one).Some?
    ensures BucketIndex(x, d * HIDDEN_BIT, one).value < n
  {
    var delta := d * HIDDEN_BIT;
    WholeDeltas(n, z, d, one);
    PowerValue(d);
    var shifted := z + delta - one;
    BitOrderIsNumericOrder(x, shifted);
    QuotientGrows(x, shifted - 1, delta, one);
    NearestOfValue(z - 1, Value(delta));
    WholeAgainst(RoundedQuotient(x, delta, one), z, n, one);
  }

  lemma Exchange(n: nat, v: nat, u: nat)
    ensures (n * v) * u == (n * u) * v
  {
  }

  lemma Multiples(n: nat, v: nat, y: nat, u: nat)
    requires n * v <= y
    ensures (n * u) * v <= y * u
  {
    Scale(n * v, y, u);
    Exchange(n, v, u);
  }

  lemma QuotientReaches(y: nat, z: nat, delta: nat, one: nat)
    requires z < INFINITY && y < INFINITY && one < INFINITY && 0 < delta < INFINITY
    requires Value(z) * Value(delta) <= Value(y) * Value(one)
    ensures z <= RoundedQuotient(y, delta, one)
  {
    PositiveValue(delta);
    NearestIsMonotone(Value(z) * Value(delta), Value(y) * Value(one), Value(delta));
    NearestOfValue(z, Value(delta));
  }

  lemma QuotientAtMost(x: nat, z: nat, delta: nat, one: nat)
    requires z < INFINITY && x < INFINITY && one < INFINITY && 0 < delta < INFINITY
    requires Value(x) * Value(one) <= Value(z) * Value(delta)
    ensures RoundedQuotient(x, delta, one) <= z
  {
    PositiveValue(delta);
    NearestIsMonotone(Value(x) * Value(one), Value(z) * Value(delta), Value(delta));
    NearestOfValue(z, Value(delta));
  }

  /** A distance of at least n deltas lies in bucket n or above. */
  lemma ReachesDeltas(y: nat, n: nat, z: nat, delta: nat, one: nat)
    requires 0 < one < INFINITY && z < INFINITY && Value(z) == n * Value(one)
    requires y < INFINITY && 0 < delta < INFINITY && n * Value(delta) <= Value(y)
    requires BucketIndex(y, delta, one).Some?
    ensures n <= BucketIndex(y, delta, one).value
  {
    Multiples(n, Value(delta), Value(y), Value(one));
    QuotientReaches(y, z, delta, one);
    WholeAgainst(RoundedQuotient(y, delta, one), z, n, one);
  }

  lemma SumReaches(x: nat, w: nat, target: nat)
    requires x < INFINITY && w < INFINITY && target < INFINITY && Value(target) <= Value(x) + Value(w)
    ensures target <= RoundedSum(NearestEven, x, w)
  {
    NearestEvenIsMonotone(Value(target), Value(x) + Value(w));
    NearestEvenOfValue(target);
  }

  lemma QuotientCount(v: nat, y: nat, d: nat, limit: nat) returns (n: nat)
    requires d > 0 && v <= y < limit * d
    ensures 1 <= n <= limit && n * d <= v + d && v < n * d
  {
    n := v / d + 1;
    AtMostQuotient(limit, v, d);
    AtMostQuotient(n - 1, v, d);
    AtMostQuotient(n, v, d);
    assert n * d == (n - 1) * d + d;
  }

  /** The sum passes the next whole number of deltas. */
  lemma SumPasses(x: nat, w: nat, n: nat, z: nat, d: nat, one: nat)
    requires 2 <= d <= 1993 && one == 1023 * HIDDEN_BIT && one <= z <= 1076 * HIDDEN_BIT && Value(z) == n * Value(one)
    requires x < INFINITY && d * HIDDEN_BIT < w < INFINITY && RoundedSum(NearestEven, x, w) < INFINITY
    requires n * Value(d * HIDDEN_BIT) <= Value(x) + Value(d * HIDDEN_BIT)
    ensures n * Value(d * HIDDEN_BIT) <= Value(RoundedSum(NearestEven, x, w))
  {
    var delta := d * HIDDEN_BIT;
    WholeDeltas(n, z, d, one);
    BitOrderIsNumericOrder(delta, w);
    SumReaches(x, w, z + delta - one);
    BitOrderIsNumericOrder(z + delta - one, RoundedSum(NearestEven, x, w));
  }

  lemma SumIsNotBelow(x: nat, w: nat)
    requires x < INFINITY && RoundedSum(NearestEven, x, w) < INFINITY
    ensures Value(x) <= Value(RoundedSum(NearestEven, x, w))
  {
    NearestEvenIsRounding();
    RoundedSumInflates(NearestEven, x, w);
    BitOrderIsNumericOrder(x, RoundedSum(NearestEven, x, w));
  }

  /** With a power of two for delta, a summand above delta leaves the bucket: below 2^53 deltas, ... */
  lemma FineStep(x: nat, w: nat, d: nat, one: nat)
    requires 2 <= d <= 1993 && one == 1023 * HIDDEN_BIT
    requires x < INFINITY && d * HIDDEN_BIT < w < INFINITY && RoundedSum(NearestEven, x, w) < INFINITY
    requires Value(RoundedSum(NearestEven, x, w)) < WHOLE_LIMIT * Value(d * HIDDEN_BIT)
    requires BucketIndex(x, d * HIDDEN_BIT, one).Some?
    requires BucketIndex(RoundedSum(NearestEven, x, w), d * HIDDEN_BIT, one).Some?
    ensures BucketIndex(x, d * HIDDEN_BIT, one).value
            < BucketIndex(RoundedSum(NearestEven, x, w), d * HIDDEN_BIT, one).value
  {
    PositiveValue(d * HIDDEN_BIT);
    SumIsNotBelow(x, w);
    var n := QuotientCount(Value(x), Value(RoundedSum(NearestEven, x, w)), Value(d * HIDDEN_BIT), WHOLE_LIMIT);
    var z := WholePattern(n, one);
    SumPasses(x, w, n, z, d, one);
    BelowDeltas(x, n, z, d, one);
    ReachesDeltas(RoundedSum(NearestEven, x, w), n, z, d * HIDDEN_BIT, one);
  }

  /** ... where the sum passes 2^53 deltas, ... */
  lemma PassingStep(x: nat, y: nat, d: nat, one: nat)
    requires 2 <= d <= 1993 && one == 1023 * HIDDEN_BIT && x < INFINITY && y < INFINITY
    requires Value(x) < WHOLE_LIMIT * Value(d * HIDDEN_BIT) <= Value(y)
    requires BucketIndex(x, d * HIDDEN_BIT, one).Some? && BucketIndex(y, d * HIDDEN_BIT, one).Some?
    ensures BucketIndex(x, d * HIDDEN_BIT, one).value < BucketIndex(y, d * HIDDEN_BIT, one).value
  {
    var z := WholePattern(WHOLE_LIMIT, one);
    BelowDeltas(x, WHOLE_LIMIT, z, d, one);
    ReachesDeltas(y, WHOLE_LIMIT, z, d * HIDDEN_BIT, one);
  }

  /** From 2^53 to 2^54 deltas, patterns are two deltas apart, ... */
  lemma CoarseValue(x: nat, d: nat, f: nat)
    requires 2 <= d <= 1993 && f < HIDDEN_BIT && x == (d + 53) * HIDDEN_BIT + f
    ensures x < INFINITY && Value(x) == (2 * (HIDDEN_BIT + f)) * Value(d * HIDDEN_BIT)
    ensures Gap(x) == 2 * Value(d * HIDDEN_BIT)
  {
    PatternParts(d + 53, f);
    PowerValue(d);
    Pow2Splits(52 + (d - 1), 1);
    assert Pow2(d + 52) == 2 * Value(d * HIDDEN_BIT);
    Twist(HIDDEN_BIT + f, Value(d * HIDDEN_BIT));
  }

  lemma Twist(a: nat, b: nat)
    ensures a * (2 * b) == (2 * a) * b
  {
  }

  /** ... so the bucket is the distance in deltas. */
  lemma CoarseBucket(x: nat, d: nat, f: nat, one: nat)
    requires 2 <= d <= 1993 && one == 1023 * HIDDEN_BIT && f < HIDDEN_BIT && x == (d + 53) * HIDDEN_BIT + f
    requires BucketIndex(x, d * HIDDEN_BIT, one).Some?
    ensures BucketIndex(x, d * HIDDEN_BIT, one).value == 2 * (HIDDEN_BIT + f)
  {
    var z := 1076 * HIDDEN_BIT + f;
    CoarseValue(x, d, f);
    CoarseValue(z, 1023, f);
    PowerValue(d);
    PositiveValue(one);
    ShiftedValue(z, d, one);
    assert z + d * HIDDEN_BIT - one == x;
    NearestOfValue(z, Value(d * HIDDEN_BIT));
    QuotientOfProduct(2 * (HIDDEN_BIT + f), Value(one));
  }

  lemma CoarsePattern(x: nat, d: nat)
    requires 2 <= d <= 1993 && x < INFINITY
    requires WHOLE_LIMIT * Value(d * HIDDEN_BIT) <= Value(x) < 2 * WHOLE_LIMIT * Value(d * HIDDEN_BIT)
    ensures (d + 53) * HIDDEN_BIT <= x < (d + 54) * HIDDEN_BIT
  {
    CoarseValue((d + 53) * HIDDEN_BIT, d, 0);
    BitOrderIsNumericOrder((d + 53) * HIDDEN_BIT, x);
    if d < 1993 {
      PowerValue(d);
      PowerValue(d + 54);
      WholeLimitIsPower();
      Pow2Splits(53, 1);
      Pow2Splits(54, 52 + (d - 1));
      BitOrderIsNumericOrder((d + 54) * HIDDEN_BIT, x);
    }
  }

  /** A summand above delta is not lost there. */
  lemma CoarseSum(x: nat, w: nat, d: nat)
    requires 2 <= d <= 1993 && (d + 53) * HIDDEN_BIT <= x < (d + 54) * HIDDEN_BIT && d * HIDDEN_BIT < w < INFINITY
    ensures x < RoundedSum(NearestEven, x, w)
  {
    CoarseValue(x, d, x - (d + 53) * HIDDEN_BIT);
    BitOrderIsNumericOrder(d * HIDDEN_BIT, w);
    if x + 1 < INFINITY {
      NextValue(x);
      NearestReaches(Value(x) + Value(w), 1, x + 1);
    } else {
      FloorAtLeast(Value(x) + Value(w), x);
      assert (Value(x) + Value(w)) / 1 == Value(x) + Value(w);
    }
  }

  /** ... and up to 2^54 deltas. */
  lemma CoarseStep(x: nat, w: nat, d: nat, one: nat)
    requires 2 <= d <= 1993 && one == 1023 * HIDDEN_BIT && x < INFINITY && d * HIDDEN_BIT < w < INFINITY
    requires RoundedSum(NearestEven, x, w) < INFINITY && WHOLE_LIMIT * Value(d * HIDDEN_BIT) <= Value(x)
    requires Value(RoundedSum(NearestEven, x, w)) < 2 * WHOLE_LIMIT * Value(d * HIDDEN_BIT)
    requires BucketIndex(x, d * HIDDEN_BIT, one).Some?
    requires BucketIndex(RoundedSum(NearestEven, x, w), d * HIDDEN_BIT, one).Some?
    ensures BucketIndex(x, d * HIDDEN_BIT, one).value
            < BucketIndex(RoundedSum(NearestEven, x, w), d * HIDDEN_BIT, one).value
  {
    var y := RoundedSum(NearestEven, x, w);
    SumIsNotBelow(x, w);
    CoarsePattern(x, d);
    CoarsePattern(y, d);
    CoarseSum(x, w, d);
    CoarseBucket(x, d, x - (d + 53) * HIDDEN_BIT, one);
    CoarseBucket(y, d, y - (d + 53) * HIDDEN_BIT, one);
  }

  /** With a power of two for delta, a summand above delta leaves the bucket as long as the sum is below 2^54 deltas. */
  lemma PowerOfTwoStep(x: nat, w: nat, d: nat, one: nat)
    requires 2 <= d <= 1993 && one == 1023 * HIDDEN_BIT
    requires x < INFINITY && d * HIDDEN_BIT < w < INFINITY && RoundedSum(NearestEven, x, w) < INFINITY
    requires Value(RoundedSum(NearestEven, x, w)) < 2 * WHOLE_LIMIT * Value(d * HIDDEN_BIT)
    requires BucketIndex(x, d * HIDDEN_BIT, one).Some?
    requires BucketIndex(RoundedSum(NearestEven, x, w), d * HIDDEN_BIT, one).Some?
    ensures BucketIndex(x, d * HIDDEN_BIT, one).value
            < BucketIndex(RoundedSum(NearestEven, x, w), d * HIDDEN_BIT, one).value
  {
    if Value(RoundedSum(NearestEven, x, w)) < WHOLE_LIMIT * Value(d * HIDDEN_BIT) {
      FineStep(x, w, d, one);
    } else if Value(x) < WHOLE_LIMIT * Value(d * HIDDEN_BIT) {
      PassingStep(x, RoundedSum(NearestEven, x, w), d, one);
    } else {
      CoarseStep(x, w, d, one);
    }
  }

  // Any delta.

  /** A quotient above n - 1 and one more is above the midpoint below n. */
  lemma MidpointsApart(a: nat, b: nat, k: nat, one: nat)
    requires 0 < one < INFINITY && 1 <= a <= b < INFINITY
    requires Value(a) == k * Value(one) && Value(b) == (k + 1) * Value(one)
    ensures Value(b - 1) + Value(b) <= Value(a - 1) + Value(a) + 2 * Value(one)
  {
    NextValue(a - 1);
    NextValue(b - 1);
    GapGrows(a - 1, b - 1);
    assert (k + 1) * Value(one) == k * Value(one) + Value(one);
  }

  /** If x is at least the midpoint below k deltas, more than one delta above it lies in bucket k + 1 or above. */
  lemma NextWhole(x: nat, y: nat, k: nat, a: nat, b: nat, delta: nat, one: nat)
    requires 0 < one < INFINITY && 1 <= a <= b < INFINITY && 0 < delta < INFINITY && x < INFINITY && y < INFINITY
    requires Value(a) == k * Value(one) && Value(b) == (k + 1) * Value(one)
    requires Value(x) + Value(delta) < Value(y) && a <= RoundedQuotient(x, delta, one)
    ensures b <= RoundedQuotient(y, delta, one)
  {
    PositiveValue(one);
    QuotientAtLeast(x, a, delta, one);
    MidpointsApart(a, b, k, one);
    Apart(Value(x), Value(y), Value(delta), Value(one), Value(a - 1) + Value(a), Value(b - 1) + Value(b));
    QuotientAbove(y, b, delta, one);
  }

  lemma QuotientAtLeast(x: nat, a: nat, delta: nat, one: nat)
    requires one < INFINITY && 1 <= a < INFINITY && 0 < delta < INFINITY && x < INFINITY
    requires a <= RoundedQuotient(x, delta, one)
    ensures (Value(a - 1) + Value(a)) * Value(delta) <= 2 * (Value(x) * Value(one))
  {
    PositiveValue(delta);
    NearestAtLeast(Value(x) * Value(one), Value(delta), a);
  }

  lemma QuotientAbove(y: nat, b: nat, delta: nat, one: nat)
    requires one < INFINITY && 1 <= b < INFINITY && 0 < delta < INFINITY && y < INFINITY
    requires (Value(b - 1) + Value(b)) * Value(delta) < 2 * (Value(y) * Value(one))
    ensures b <= RoundedQuotient(y, delta, one)
  {
    PositiveValue(delta);
    NearestReaches(Value(y) * Value(one), Value(delta), b);
  }

  lemma Apart(x: nat, y: nat, v: nat, u: nat, low: nat, high: nat)
    requires x + v < y && u > 0 && low * v <= 2 * (x * u) && high <= low + 2 * u
    ensures high * v < 2 * (y * u)
  {
    Less(x + v, y, u);
    assert (x + v) * u == x * u + v * u;
    Scale(high, low + 2 * u, v);
    assert (low + 2 * u) * v == low * v + 2 * (v * u);
  }

  /** A distance below n deltas has a rounded quotient of at most n. */
  lemma QuotientStaysBelow(x: nat, n: nat, z: nat, delta: nat, one: nat)
    requires one < INFINITY && z < INFINITY && Value(z) == n * Value(one)
    requires x < INFINITY && 0 < delta < INFINITY && Value(x) <= n * Value(delta)
    ensures RoundedQuotient(x, delta, one) <= z
  {
    Scale(Value(x), n * Value(delta), Value(one));
    Exchange(n, Value(delta), Value(one));
    QuotientAtMost(x, z, delta, one);
  }

  lemma OneLess(x: nat, y: nat, v: nat, limit: nat)
    requires x + v < y < limit * v && limit >= 1
    ensures x <= (limit - 1) * v
  {
    assert limit * v == (limit - 1) * v + v;
  }

  /** The bucket of x is below the last whole number when x plus delta is below the limit. */
  lemma BucketBelowLimit(x: nat, y: nat, delta: nat, one: nat)
    requires one == 1023 * HIDDEN_BIT && x < INFINITY && y < INFINITY && 0 < delta < INFINITY
    requires Value(x) + Value(delta) < Value(y) < WHOLE_LIMIT * Value(delta)
    requires BucketIndex(x, delta, one).Some?
    ensures BucketIndex(x, delta, one).value < WHOLE_LIMIT
  {
    OneLess(Value(x), Value(y), Value(delta), WHOLE_LIMIT);
    var z := WholePattern(WHOLE_LIMIT - 1, one);
    QuotientStaysBelow(x, WHOLE_LIMIT - 1, z, delta, one);
    var top := WholePattern(WHOLE_LIMIT, one);
    PositiveValue(one);
    Less(WHOLE_LIMIT - 1, WHOLE_LIMIT, Value(one));
    BitOrderIsNumericOrder(z, top);
    WholeAgainst(RoundedQuotient(x, delta, one), top, WHOLE_LIMIT, one);
  }

  /** More than a delta further on lies a later bucket. */
  lemma WideStep(x: nat, y: nat, delta: nat, one: nat)
    requires one == 1023 * HIDDEN_BIT && x < INFINITY && y < INFINITY && 0 < delta < INFINITY
    requires Value(x) + Value(delta) < Value(y) < WHOLE_LIMIT * Value(delta)
    requires BucketIndex(x, delta, one).Some? && BucketIndex(y, delta, one).Some?
    ensures BucketIndex(x, delta, one).value < BucketIndex(y, delta, one).value
  {
    var k := BucketIndex(x, delta, one).value;
    BucketBelowLimit(x, y, delta, one);
    var b := WholePattern(k + 1, one);
    if k == 0 {
      ReachesDeltas(y, 1, b, delta, one);
    } else {
      var a := WholePattern(k, one);
      PositiveValue(one);
      Less(k, k + 1, Value(one));
      BitOrderIsNumericOrder(a, b);
      WholeAgainst(RoundedQuotient(x, delta, one), a, k, one);
      NextWhole(x, y, k, a, b, delta, one);
      WholeAgainst(RoundedQuotient(y, delta, one), b, k + 1, one);
    }
  }
}
