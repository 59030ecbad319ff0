/**
  Distances are binary64 values kept as their 64-bit patterns. This module gives
  every finite non-negative pattern its numeric value (in units of the smallest
  subnormal, 2^-1074), shows that the integer order of the patterns is the numeric
  order, and shows that every rounded sum whose rounding is monotone and exact on
  representable values obeys the two laws the searches rely on.
 */
module Binary64 {
  import opened Basics

  /** The pattern of positive infinity; smaller patterns are the finite non-negative values. */
  const INFINITY: nat := 0x7FF0_0000_0000_0000
  const HIDDEN_BIT: nat := 0x10_0000_0000_0000

  function Pow2(n: nat): (r: nat)
    ensures r >= 1
  {
    if n == 0 then 1 else 2 * Pow2(n - 1)
  }

  /** The value of a finite pattern: significand times a power of two. */
  function Value(bits: nat): (v: nat)
    requires bits < INFINITY
  {
    var exponent := bits / HIDDEN_BIT;
    var fraction := bits % HIDDEN_BIT;
    if exponent == 0 then fraction else (HIDDEN_BIT + fraction) * Pow2(exponent - 1)
  }

  /** The distance from a pattern to the next: the scale of its binade. */
  function Gap(bits: nat): (g: nat)
    ensures g >= 1
  {
    if bits < HIDDEN_BIT then 1 else Pow2(bits / HIDDEN_BIT - 1)
  }

  lemma NextValue(bits: nat)
    requires bits + 1 < INFINITY
    ensures Value(bits + 1) == Value(bits) + Gap(bits)
  {
    var exponent := bits / HIDDEN_BIT;
    var fraction := bits % HIDDEN_BIT;
    if fraction + 1 < HIDDEN_BIT {
      assert (bits + 1) / HIDDEN_BIT == exponent && (bits + 1) % HIDDEN_BIT == fraction + 1;
      if exponent > 0 {
        var scale := Pow2(exponent - 1);
        assert (HIDDEN_BIT + (fraction + 1)) * scale == (HIDDEN_BIT + fraction) * scale + scale;
      }
    } else {
      assert bits + 1 == (exponent + 1) * HIDDEN_BIT;
      assert (bits + 1) / HIDDEN_BIT == exponent + 1 && (bits + 1) % HIDDEN_BIT == 0;
      if exponent > 0 {
        var scale := Pow2(exponent - 1);
        assert Pow2(exponent) == 2 * scale;
        assert (HIDDEN_BIT + fraction) * scale == (2 * HIDDEN_BIT) * scale - scale;
        assert HIDDEN_BIT * (2 * scale) == (2 * HIDDEN_BIT) * scale;
      }
    }
  }

  lemma {:induction false} LargerBitsLargerValue(a: nat, b: nat)
    requires a < b < INFINITY
    ensures Value(a) < Value(b)
    decreases b - a
  {
    NextValue(b - 1);
    if a < b - 1 {
      LargerBitsLargerValue(a, b - 1);
    }
  }

  /** An integer comparison of two finite patterns is the numeric comparison of their values. */
  lemma BitOrderIsNumericOrder(a: nat, b: nat)
    requires a < INFINITY && b < INFINITY
    ensures a < b <==> Value(a) < Value(b)
    ensures a == b <==> Value(a) == Value(b)
  {
    if a < b {
      LargerBitsLargerValue(a, b);
    } else if b < a {
      LargerBitsLargerValue(b, a);
    }
  }

  /**
    A rounding from exact sums to patterns: monotone, and the identity on values that
    are representable. Every IEEE 754 rounding direction has both properties.
   */
  ghost predicate Rounding(round: nat -> nat) {
    && (forall x, y :: x <= y ==> round(x) <= round(y))
    && (forall x :: round(x) <= INFINITY)
    && (forall bits: nat :: bits < INFINITY ==> round(Value(bits)) == bits)
  }

  /** f is the largest finite pattern whose value does not exceed x. */
  ghost predicate IsFloor(x: nat, f: nat) {
    f < INFINITY && Value(f) <= x && (f + 1 < INFINITY ==> x < Value(f + 1))
  }

  lemma {:induction false} FloorExists(x: nat, bits: nat) returns (f: nat)
    requires bits < INFINITY && (bits + 1 < INFINITY ==> x < Value(bits + 1))
    ensures IsFloor(x, f)
  {
    if Value(bits) <= x {
      f := bits;
    } else {
      assert bits > 0;
      f := FloorExists(x, bits - 1);
    }
  }

  lemma HasFloor(x: nat)
    ensures exists f: nat :: IsFloor(x, f)
  {
    var f := FloorExists(x, INFINITY - 1);
  }

  ghost function Floor(x: nat): (f: nat)
    ensures IsFloor(x, f)
  {
    HasFloor(x);
    var f: nat :| IsFloor(x, f);
    f
  }

  /** Twice the value halfway between a pattern and the next, or where the next would be beyond the largest. */
  ghost function Midpoint(f: nat): nat
    requires f < INFINITY
  {
    2 * Value(f) + Gap(f)
  }

  /** n / d rounded to nearest, ties to even, overflowing to infinity (roundTiesToEven of IEEE 754). */
  ghost function Nearest(n: nat, d: nat): (r: nat)
    requires d > 0
  {
    var f := Floor(n / d);
    if 2 * n < Midpoint(f) * d || (2 * n == Midpoint(f) * d && f % 2 == 0) then f else f + 1
  }

  ghost function NearestEven(x: nat): (r: nat) {
    Nearest(x, 1)
  }

  lemma FloorIsMonotone(x: nat, y: nat)
    requires x <= y
    ensures Floor(x) <= Floor(y)
  {
    if Floor(y) < Floor(x) {
      assert y < Value(Floor(y) + 1);
      BitOrderIsNumericOrder(Floor(y) + 1, Floor(x));
    }
  }

  lemma FloorOfValue(bits: nat)
    requires bits < INFINITY
    ensures Floor(Value(bits)) == bits
  {
    BitOrderIsNumericOrder(Floor(Value(bits)), bits);
    if Floor(Value(bits)) < bits {
      BitOrderIsNumericOrder(Floor(Value(bits)) + 1, bits);
    }
  }

  /** An integer is at most a quotient exactly when its multiple is at most the dividend. */
  lemma AtMostQuotient(v: nat, n: nat, d: nat)
    requires d > 0
    ensures v <= n / d <==> v * d <= n
  {
    var q := n / d;
    assert q * d <= n < (q + 1) * d;
    Scale(v, q, d);
    Scale(q + 1, v, d);
  }

  lemma QuotientOfProduct(v: nat, d: nat)
    requires d > 0
    ensures (v * d) / d == v
  {
    AtMostQuotient(v, v * d, d);
    AtMostQuotient(v + 1, v * d, d);
    assert (v + 1) * d == v * d + d;
  }

  lemma Twice(v: nat, d: nat)
    ensures (2 * v) * d == 2 * (v * d)
  {
  }

  lemma NearestOfValue(bits: nat, d: nat)
    requires bits < INFINITY && d > 0
    ensures Nearest(Value(bits) * d, d) == bits
  {
    QuotientOfProduct(Value(bits), d);
    FloorOfValue(bits);
    Less(2 * Value(bits), Midpoint(bits), d);
    Twice(Value(bits), d);
  }

  lemma Less(a: nat, b: nat, d: nat)
    requires d > 0 && a < b
    ensures a * d < b * d
  {
  }

  lemma NearestIsMonotone(m: nat, n: nat, d: nat)
    requires d > 0 && m <= n
    ensures Nearest(m, d) <= Nearest(n, d) <= INFINITY
  {
    QuotientIsMonotone(m, n, d);
    FloorIsMonotone(m / d, n / d);
  }

  lemma NearestEvenOfValue(bits: nat)
    requires bits < INFINITY
    ensures NearestEven(Value(bits)) == bits
  {
    NearestOfValue(bits, 1);
  }

  lemma NearestEvenIsMonotone(x: nat, y: nat)
    requires x <= y
    ensures NearestEven(x) <= NearestEven(y) <= INFINITY
  {
    NearestIsMonotone(x, y, 1);
  }

  lemma FloorAtLeast(x: nat, g: nat)
    requires g < INFINITY
    ensures g <= Floor(x) <==> Value(g) <= x
  {
    FloorOfValue(g);
    if Value(g) <= x {
      FloorIsMonotone(Value(g), x);
    } else {
      BitOrderIsNumericOrder(Floor(x), g);
    }
  }

  /** A quotient that rounds to a pattern or above lies at or above the midpoint below the pattern. */
  lemma NearestAtLeast(n: nat, d: nat, g: nat)
    requires d > 0 && 1 <= g < INFINITY && g <= Nearest(n, d)
    ensures (Value(g - 1) + Value(g)) * d <= 2 * n
  {
    var f := Floor(n / d);
    NextValue(g - 1);
    if g <= f {
      FloorAtLeast(n / d, g);
      AtMostQuotient(Value(g), n, d);
      BitOrderIsNumericOrder(g - 1, g);
      BelowTwice(Value(g - 1), Value(g), n, d);
    }
  }

  lemma BelowTwice(u: nat, v: nat, n: nat, d: nat)
    requires u <= v && v * d <= n
    ensures (u + v) * d <= 2 * n
  {
    Scale(u + v, 2 * v, d);
    Twice(v, d);
  }

  lemma AboveTwice(u: nat, v: nat, n: nat, d: nat)
    requires u <= v && (u + v) * d < 2 * n
    ensures u * d <= n
  {
    Scale(2 * u, u + v, d);
    Twice(u, d);
  }

  /** A quotient above the midpoint below a pattern rounds to the pattern or above. */
  lemma NearestReaches(n: nat, d: nat, g: nat)
    requires d > 0 && 1 <= g < INFINITY && (Value(g - 1) + Value(g)) * d < 2 * n
    ensures g <= Nearest(n, d)
  {
    BitOrderIsNumericOrder(g - 1, g);
    AboveTwice(Value(g - 1), Value(g), n, d);
    AtMostQuotient(Value(g - 1), n, d);
    FloorAtLeast(n / d, g - 1);
    NearestFromFloor(n, d, Floor(n / d), g);
  }

  lemma NearestFromFloor(n: nat, d: nat, f: nat, g: nat)
    requires d > 0 && 1 <= g < INFINITY && f == Floor(n / d) && g - 1 <= f
    requires (Value(g - 1) + Value(g)) * d < 2 * n
    ensures g <= Nearest(n, d)
  {
    NextValue(g - 1);
  }

  lemma {:induction false} Pow2Grows(a: nat, b: nat)
    requires a <= b
    ensures Pow2(a) <= Pow2(b)
    decreases b - a
  {
    if a < b {
      Pow2Grows(a, b - 1);
    }
  }

  lemma GapGrows(a: nat, b: nat)
    requires a <= b
    ensures Gap(a) <= Gap(b)
  {
    if HIDDEN_BIT <= a {
      QuotientIsMonotone(a, b, HIDDEN_BIT);
      Pow2Grows(a / HIDDEN_BIT - 1, b / HIDDEN_BIT - 1);
    }
  }

  /** Rounding to nearest loses at most half the gap above the result. */
  lemma NearestEvenError(x: nat)
    requires NearestEven(x) + 1 < INFINITY
    ensures 2 * x <= 2 * Value(NearestEven(x)) + Gap(NearestEven(x))
  {
    var f := Floor(x);
    assert x / 1 == x;
    if NearestEven(x) == f + 1 {
      assert x < Value(f + 1);
    } else {
      NextValue(f);
    }
  }

  /** Round-to-nearest-even has the two properties the laws below ask of a rounding. */
  lemma NearestEvenIsRounding()
    ensures Rounding(NearestEven)
  {
    forall x: nat, y: nat | x <= y
      ensures NearestEven(x) <= NearestEven(y) <= INFINITY
    {
      NearestEvenIsMonotone(x, y);
    }
    forall x: nat
      ensures NearestEven(x) <= INFINITY
    {
      NearestEvenIsMonotone(x, x);
    }
    forall bits: nat | bits < INFINITY
      ensures NearestEven(Value(bits)) == bits
    {
      NearestEvenOfValue(bits);
    }
  }

  /** The rounded sum of two patterns; anything not finite stays at infinity. */
  function RoundedSum(round: nat -> nat, a: nat, b: nat): (r: nat) {
    if a < INFINITY && b < INFINITY then round(Value(a) + Value(b)) else INFINITY
  }

  /** A rounded sum never falls below its left operand. */
  lemma RoundedSumInflates(round: nat -> nat, a: nat, b: nat)
    requires Rounding(round) && a <= INFINITY
    ensures a <= RoundedSum(round, a, b) <= INFINITY
  {
    if a < INFINITY && b < INFINITY {
      assert round(Value(a)) == a;
      assert Value(a) <= Value(a) + Value(b);
    }
  }

  /** A rounded sum is monotone in its left operand. */
  lemma RoundedSumIsMonotone(round: nat -> nat, a: nat, b: nat, w: nat)
    requires Rounding(round) && a <= b
    ensures RoundedSum(round, a, w) <= RoundedSum(round, b, w)
  {
    if b < INFINITY && w < INFINITY {
      BitOrderIsNumericOrder(a, b);
      assert Value(a) + Value(w) <= Value(b) + Value(w);
    }
  }

  lemma {:induction false} Pow2Splits(a: nat, b: nat)
    ensures Pow2(a + b) == Pow2(a) * Pow2(b)
  {
    if b == 0 {
    } else {
      Pow2Splits(a, b - 1);
      assert Pow2(a + b) == 2 * Pow2(a + (b - 1));
      assert 2 * (Pow2(a) * Pow2(b - 1)) == Pow2(a) * (2 * Pow2(b - 1));
    }
  }

  /** The pattern of one. */
  const ONE: nat := 1023 * HIDDEN_BIT

  lemma FloorBetween(x: nat, bits: nat)
    requires bits + 1 < INFINITY && Value(bits) <= x < Value(bits + 1)
    ensures Floor(x) == bits
  {
    FloorAtLeast(x, bits);
    FloorAtLeast(x, bits + 1);
  }

  /** A summand of less than half the gap above a value is lost by the rounding, and half the gap above an even one. */
  lemma SmallSummandVanishes(a: nat, b: nat)
    requires a + 1 < INFINITY && b < INFINITY
    requires 2 * Value(b) < Gap(a) || (2 * Value(b) == Gap(a) && a % 2 == 0)
    ensures RoundedSum(NearestEven, a, b) == a
  {
    var x := Value(a) + Value(b);
    NextValue(a);
    FloorBetween(x, a);
    assert x / 1 == x;
  }
}
