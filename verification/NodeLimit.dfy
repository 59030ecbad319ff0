/**
  Delta-stepping on the networks the router accepts, whose node and relation counts fit 32
  bits. Four nodes are enough for a wrong answer with every delta from 2^-307 to 2^200.
  With as many nodes as the router accepts, sums come close to 2^288 but do not reach it,
  so every delta from 2^-307 to 2^234 fails on some network, and a power of two from 2^234
  on fails on none.
 */
module NodeLimit {
  import opened Basics
  import opened Binary64
  import opened RoutingGraph
  import opened FrontierSearch
  import opened DeltaSearch
  import opened DeltaNecessity
  import opened BinaryArithmetic
  import opened BucketSteps
  import opened DeltaCondition

  /** Node and relation counts have 32 bits. */
  const MAX_COUNT: nat := 0xFFFF_FFFF

  // Four nodes.

  /** Three arcs in a row: a large weight, a small one, and none. */
  ghost function Four(delta: nat, large: Term, small: Term): Network {
    Network(4, {Arc(0, 1, 0, large.base), Arc(1, 2, 1, small.base), Arc(2, 3, 1, 0)}, [1, 1],
            [large.multiplier, small.multiplier], Binary(delta))
  }

  /** The large weight is 2^(d+55), the small one 2^(d+1), and delta lies between 2^(d-8) and 2^(d+1). */
  ghost predicate Lossy(delta: nat, large: Term, small: Term, d: nat) {
    && Valid([large]) && Valid([small]) && d + 56 < 2047
    && WeightOf(Binary(delta), large) == (d + 55) * HIDDEN_BIT
    && WeightOf(Binary(delta), small) == (d + 1) * HIDDEN_BIT
    && 716 <= delta / HIDDEN_BIT <= d <= delta / HIDDEN_BIT + 8
  }

  lemma FourIsWellFormed(delta: nat, large: Term, small: Term)
    requires 0 < delta < INFINITY && Valid([large]) && Valid([small])
    ensures Four(delta, large, small).WellFormed()
  {
    BinaryIsLawful(delta);
    assert [large][0] == large && [small][0] == small;
  }

  /** The walk over the large weight, and the arc that is lost. */
  lemma FourCosts(delta: nat, large: Term, small: Term, d: nat)
    requires Lossy(delta, large, small, d)
    ensures var net, p, a := Four(delta, large, small), [Arc(0, 1, 0, large.base)], Arc(1, 2, 1, small.base);
            && net.Walk(0, p, 1) && net.Cost(p) == (d + 55) * HIDDEN_BIT == net.Extend(net.Cost(p), a)
  {
    var net, p := Four(delta, large, small), [Arc(0, 1, 0, large.base)];
    PatternParts(d + 55, 0);
    AddingToZero((d + 55) * HIDDEN_BIT);
    WeightIsLost((d + 1) * HIDDEN_BIT, d);
    assert net.Walk(0, [], 0) && net.Cost([]) == 0;
    AppendArc(net, 0, [], p[0]);
    assert [] + [p[0]] == p;
  }

  lemma FourIsAPath(delta: nat, large: Term, small: Term)
    ensures var net := Four(delta, large, small);
            Path(net, [Arc(0, 1, 0, large.base)], Arc(1, 2, 1, small.base)) == net
  {
    var net, p, a := Four(delta, large, small), [Arc(0, 1, 0, large.base)], Arc(1, 2, 1, small.base);
    assert PathArc(p, a, 0) == p[0] && PathArc(p, a, 1) == a && PathArc(p, a, 2) == Arc(2, 3, 1, 0);
    assert Path(net, p, a).arcs == net.arcs;
  }

  lemma FourStalls(delta: nat, large: Term, small: Term, d: nat)
    requires Lossy(delta, large, small, d) && delta < (d + 1) * HIDDEN_BIT
    ensures Stalls(Four(delta, large, small), 0, [Arc(0, 1, 0, large.base)], Arc(1, 2, 1, small.base))
  {
    var e := delta / HIDDEN_BIT;
    LargeSumHasBucket(delta, e, d + 55 - e, ONE);
    DeltaBinade(delta);
    BinaryIsLawful(delta);
    FourIsWellFormed(delta, large, small);
    FourCosts(delta, large, small, d);
  }

  /** Every run over these four nodes that ends normally reports the last of them as unreachable. */
  lemma FourNodesAreMisrouted(delta: nat, large: Term, small: Term, d: nat, states: seq<DeltaState>)
    requires Lossy(delta, large, small, d) && delta < (d + 1) * HIDDEN_BIT
    requires DeltaRun(Four(delta, large, small), 0, states) && states[|states| - 1].stage == Settled
    ensures var distance := states[|states| - 1].memory.distance;
            |distance| == 4 && distance[3] == INFINITY && !Four(delta, large, small).Exact(0, distance)
  {
    FourStalls(delta, large, small, d);
    FourIsAPath(delta, large, small);
    StalledRunIsWrong(Four(delta, large, small), 0, [Arc(0, 1, 0, large.base)], Arc(1, 2, 1, small.base), states);
  }

  lemma FourNodesHaveARun(delta: nat, large: Term, small: Term, d: nat) returns (states: seq<DeltaState>)
    requires Lossy(delta, large, small, d) && delta < (d + 1) * HIDDEN_BIT
    ensures Sane(Four(delta, large, small), 0) && DeltaRun(Four(delta, large, small), 0, states)
    ensures states[|states| - 1].stage == Settled
    ensures !Four(delta, large, small).Exact(0, states[|states| - 1].memory.distance)
  {
    FourStalls(delta, large, small, d);
    FourIsAPath(delta, large, small);
    states := StallIsInexact(Four(delta, large, small), 0, [Arc(0, 1, 0, large.base)], Arc(1, 2, 1, small.base));
  }

  /** For every delta from 2^-307 to 2^200, some network of four nodes is routed wrongly. */
  lemma FourNodesAreInexact(delta: nat) returns (net: Network, states: seq<DeltaState>)
    requires 716 * HIDDEN_BIT <= delta < 1223 * HIDDEN_BIT
    ensures Within(net, Binary(delta), 4, 2) && Sane(net, 0)
    ensures DeltaRun(net, 0, states) && states[|states| - 1].stage == Settled
    ensures !net.Exact(0, states[|states| - 1].memory.distance)
  {
    var e := delta / HIDDEN_BIT;
    DeltaBinade(delta);
    var d := if e < 724 then 724 else e;
    var large := PowerTerm(delta, d + 55);
    var small := PowerTerm(delta, d + 1);
    net := Four(delta, large, small);
    states := FourNodesHaveARun(delta, large, small, d);
  }

  lemma PowerTimesOne(delta: nat, k: nat, g: nat)
    requires k <= 276 && g == k + 874
    ensures Valid([Term(PowerWord(k), PowerWord(149))])
    ensures WeightOf(Binary(delta), Term(PowerWord(k), PowerWord(149))) == g * HIDDEN_BIT
  {
    PowerWordValue(k);
    PowerWordValue(149);
    PowerProduct(k, 149, PRODUCT_SHIFT, g);
  }

  /** For instance delta 1 with the weights 2^55 and 2, both with multiplier 1. */
  lemma DeltaOneIsInexact(large: Term, small: Term) returns (states: seq<DeltaState>)
    requires large == Term(PowerWord(204), PowerWord(149)) && small == Term(PowerWord(150), PowerWord(149))
    ensures Sane(Four(ONE, large, small), 0) && DeltaRun(Four(ONE, large, small), 0, states)
    ensures states[|states| - 1].stage == Settled
    ensures |states[|states| - 1].memory.distance| == 4 && states[|states| - 1].memory.distance[3] == INFINITY
    ensures !Four(ONE, large, small).Exact(0, states[|states| - 1].memory.distance)
  {
    PowerTimesOne(ONE, 204, 1078);
    PowerTimesOne(ONE, 150, 1024);
    PatternParts(1023, 0);
    states := FourNodesHaveARun(ONE, large, small, 1023);
    FourNodesAreMisrouted(ONE, large, small, 1023, states);
  }

  // As many nodes as the router accepts: below 2^234.

  /** Whole multiples of a power of two, up to 2^53 of it, have patterns. */
  lemma MultiplePattern(n: nat, g: nat, one: nat) returns (q: nat)
    requires 1 <= n <= WHOLE_LIMIT && 2 <= g <= 1993 && one == 1023 * HIDDEN_BIT
    ensures IsMultiple(q, n, g)
  {
    var z := WholePattern(n, one);
    WholeDeltas(n, z, g, one);
    q := z + g * HIDDEN_BIT - one;
  }

  /** x is n times 2^g, counted in exponents of binary64. */
  ghost predicate IsMultiple(x: nat, n: nat, g: nat)
    requires 2 <= g <= 1993
  {
    PatternParts(g, 0);
    x < INFINITY && Value(x) == n * Value(g * HIDDEN_BIT)
  }

  ghost function PatternOf(n: nat, g: nat): (q: nat)
    requires n <= WHOLE_LIMIT && 2 <= g <= 1993
    ensures IsMultiple(q, n, g)
  {
    if n == 0 then
      ZeroValue(0);
      0
    else
      HasPattern(n, g);
      var q: nat :| IsMultiple(q, n, g);
      q
  }

  lemma HasPattern(n: nat, g: nat)
    requires 1 <= n <= WHOLE_LIMIT && 2 <= g <= 1993
    ensures exists q: nat :: IsMultiple(q, n, g)
  {
    var q := MultiplePattern(n, g, ONE);
  }

  /** Multiples of a power of two add up without rounding. */
  lemma AddMultiples(x: nat, w: nat, m: nat, c: nat, g: nat)
    requires c >= 1 && m + c <= WHOLE_LIMIT && 2 <= g <= 1993 && IsMultiple(x, m, g) && IsMultiple(w, c, g)
    ensures RoundedSum(NearestEven, x, w) == PatternOf(m + c, g)
  {
    var q := PatternOf(m + c, g);
    Distribute(m, c, Value(g * HIDDEN_BIT));
    NearestEvenOfValue(q);
  }

  /** The sum of k copies is the k-th pattern of a row in which each follows from the one before. */
  lemma {:induction false} CopiesAlong(arithmetic: Arithmetic, t: Term, row: nat -> nat, k: nat)
    requires row(0) == 0 && forall i: nat :: i < k ==> arithmetic.add(row(i), WeightOf(arithmetic, t)) == row(i + 1)
    ensures Fold(arithmetic, Copies(t, k)) == row(k)
  {
    if k == 0 {
      assert Copies(t, 0) == [];
    } else {
      CopiesAlong(arithmetic, t, row, k - 1);
      FoldOfCopies(arithmetic, t, k - 1);
    }
  }

  /** The row of the multiples of nine. */
  ghost function Nines(g: nat): nat -> nat {
    (i: nat) => if 9 * i <= WHOLE_LIMIT && 2 <= g <= 1993 then PatternOf(9 * i, g) else 0
  }

  lemma CopiesAddUp(delta: nat, t: Term, g: nat, k: nat)
    requires 9 * k <= WHOLE_LIMIT && 2 <= g <= 1993 && IsMultiple(WeightOf(Binary(delta), t), 9, g)
    ensures IsMultiple(Fold(Binary(delta), Copies(t, k)), 9 * k, g)
  {
    forall i: nat | i < k
      ensures RoundedSum(NearestEven, Nines(g)(i), WeightOf(Binary(delta), t)) == Nines(g)(i + 1)
    {
      AddMultiples(PatternOf(9 * i, g), WeightOf(Binary(delta), t), 9 * i, 9, g);
    }
    CopiesAlong(Binary(delta), t, Nines(g), k);
  }

  lemma Distribute(a: nat, b: nat, v: nat)
    ensures a * v + b * v == (a + b) * v
  {
  }

  /** The word of 3 * 2^k, in units of 2^-149. */
  function TripleWord(k: nat): nat
    requires k >= 22
  {
    (k - 21) * HIDDEN_BIT_32 + HIDDEN_BIT_32 / 2
  }

  lemma TripleWordValue(k: nat)
    requires 22 <= k <= 275
    ensures Value32(TripleWord(k)) == 3 * Pow2(k) && FiniteNonNegative(TripleWord(k))
  {
    TripleParts(k - 21, HIDDEN_BIT_32 / 2);
    ValueOfWord(TripleWord(k), k - 21, HIDDEN_BIT_32 / 2);
    HiddenBitsArePowers();
    Pow2Splits(22, 1);
    Pow2Splits(22, k - 22);
    Associate(3, Pow2(22), Pow2(k - 22));
  }

  lemma TripleParts(e: nat, f: nat)
    requires e <= 254 && f < HIDDEN_BIT_32
    ensures (e * HIDDEN_BIT_32 + f) / HIDDEN_BIT_32 == e && (e * HIDDEN_BIT_32 + f) % HIDDEN_BIT_32 == f
    ensures e * HIDDEN_BIT_32 + f < 0x7F80_0000
  {
  }

  /** A weight of nine times 2^(e+19), counted in exponents of binary64. */
  lemma NineTerm(delta: nat, e: nat, shift: nat) returns (t: Term)
    requires 1223 <= e <= 1256 && shift == PRODUCT_SHIFT
    ensures Valid([t]) && IsMultiple(WeightOf(Binary(delta), t), 9, e + 19)
  {
    var k := e - 981;
    t := Term(TripleWord(275), TripleWord(k));
    TripleWordValue(275);
    TripleWordValue(k);
    NineValue(275, k, shift, e + 19);
    var q := MultiplePattern(9, e + 19, ONE);
    NearestEvenOfValue(q);
  }

  lemma NineValue(j: nat, k: nat, shift: nat, g: nat)
    requires 1 <= g < 2047 && 52 + (g - 1) == j + k + shift
    ensures (3 * Pow2(j)) * (3 * Pow2(k)) * Pow2(shift) == 9 * Value(g * HIDDEN_BIT)
  {
    PowerValue(g);
    Pow2Splits(j, k);
    Pow2Splits(j + k, shift);
    Nine(Pow2(j), Pow2(k), Pow2(shift));
  }

  lemma Nine(a: nat, b: nat, c: nat)
    ensures (3 * a) * (3 * b) * c == 9 * ((a * b) * c)
  {
    assert (3 * a) * (3 * b) == 9 * (a * b);
  }

  const COPIES: nat := 0xF000_0000

  /** What the copies add up to: 135 * 2^45 * 2^(e+53), an even pattern. */
  ghost function Brim(e: nat): nat {
    (e + 54) * HIDDEN_BIT + 7 * 0x2000_0000_0000
  }

  lemma BrimValue(e: nat)
    requires 1223 <= e <= 1256
    ensures Brim(e) + 1 < INFINITY && Brim(e) % 2 == 0 && Gap(Brim(e)) == Pow2(e + 53)
    ensures IsMultiple(Brim(e), 9 * COPIES, e + 19)
  {
    PatternParts(e + 54, 7 * 0x2000_0000_0000);
    PowerValue(e + 19);
    BrimFactors(e);
  }

  /** 135 * 2^45 * 2^(e+53) == 135 * 2^28 * 2^(e+70). */
  lemma BrimFactors(e: nat)
    ensures (HIDDEN_BIT + 7 * 0x2000_0000_0000) * Pow2(e + 53) == (9 * COPIES) * Pow2(52 + (e + 18))
  {
    Pow2Splits(17, e + 53);
    SeventeenBits(17);
    Associate(9 * COPIES, 131072, Pow2(e + 53));
  }

  lemma SeventeenBits(n: nat)
    requires n == 17
    ensures Pow2(n) == 131072
  {
    assert Pow2(8) == 256;
    Pow2Splits(8, 8);
    Pow2Splits(16, 1);
  }

  lemma Associate(a: nat, b: nat, c: nat)
    ensures (a * b) * c == a * (b * c)
  {
  }

  lemma CopiesFillTheBrim(delta: nat, t: Term, e: nat)
    requires 1223 <= e <= 1256 && IsMultiple(WeightOf(Binary(delta), t), 9, e + 19)
    ensures Fold(Binary(delta), Copies(t, COPIES)) == Brim(e)
  {
    CopiesAddUp(delta, t, e + 19, COPIES);
    BrimValue(e);
    BitOrderIsNumericOrder(Fold(Binary(delta), Copies(t, COPIES)), Brim(e));
  }

  /** 2^(e+1) is half the gap above the brim, and lost by a tie. */
  lemma BrimAbsorbs(e: nat)
    requires 1223 <= e <= 1256
    ensures RoundedSum(NearestEven, Brim(e), (e + 1) * HIDDEN_BIT) == Brim(e)
  {
    BrimValue(e);
    PowerValue(e + 1);
    Pow2Splits(52 + e, 1);
    SmallSummandVanishes(Brim(e), (e + 1) * HIDDEN_BIT);
  }

  lemma BrimHasBucket(delta: nat, e: nat)
    requires e == delta / HIDDEN_BIT && 1223 <= e <= 1256
    ensures BucketIndex(Brim(e), delta, ONE).Some?
  {
    LargeSumHasBucket(delta, e, 55, ONE);
    BucketGrows(Brim(e), (e + 55) * HIDDEN_BIT, delta, ONE);
  }

  /** A sum that stays where it is when its last, heavy term is added. */
  lemma StuckSum(arithmetic: Arithmetic, t: Term, n: nat, small: Term)
    requires Valid([t]) && Valid([small]) && !arithmetic.Light(WeightOf(arithmetic, small))
    requires arithmetic.bucket(Fold(arithmetic, Copies(t, n))).Some?
    requires arithmetic.add(Fold(arithmetic, Copies(t, n)), WeightOf(arithmetic, small))
             == Fold(arithmetic, Copies(t, n))
    ensures !SumsAdvance(arithmetic, n + 1)
  {
    var terms := Copies(t, n) + [small];
    assert [t][0] == t && [small][0] == small;
    assert terms[..n] == Copies(t, n);
    assert !LastAdvances(arithmetic, terms);
  }

  lemma StuckForLonger(arithmetic: Arithmetic, m: nat, n: nat)
    requires m <= n && !SumsAdvance(arithmetic, m)
    ensures !SumsAdvance(arithmetic, n)
  {
  }

  /** Some sum of fewer than 2^32 weights absorbs a weight above delta. */
  lemma LongSumIsStuck(delta: nat)
    requires 1223 * HIDDEN_BIT <= delta < 1257 * HIDDEN_BIT
    ensures !SumsAdvance(Binary(delta), MAX_COUNT - 2)
  {
    var e := delta / HIDDEN_BIT;
    DeltaBinade(delta);
    var t := NineTerm(delta, e, PRODUCT_SHIFT);
    var small := PowerTerm(delta, e + 1);
    CopiesFillTheBrim(delta, t, e);
    BrimAbsorbs(e);
    BrimHasBucket(delta, e);
    StuckSum(Binary(delta), t, COPIES, small);
    StuckForLonger(Binary(delta), COPIES + 1, MAX_COUNT - 2);
  }

  /** Every delta from 2^-307 to 2^234 routes some network that the router accepts wrongly. */
  lemma RouterIsInexact(delta: nat)
    requires 716 * HIDDEN_BIT <= delta < 1257 * HIDDEN_BIT
    ensures !ExactUpTo(Binary(delta), MAX_COUNT, MAX_COUNT)
  {
    if delta < 1223 * HIDDEN_BIT {
      var net, states := FourNodesAreInexact(delta);
    } else {
      LongSumIsStuck(delta);
      KernelIsExactIffSumsAdvance(delta, MAX_COUNT, MAX_COUNT);
    }
  }

  // From 2^234 on.

  lemma TermIsBounded(delta: nat, t: Term)
    requires Valid([t])
    ensures WeightOf(Binary(delta), t) < INFINITY
    ensures Value(WeightOf(Binary(delta), t)) <= Value(1279 * HIDDEN_BIT)
  {
    assert [t][0] == t;
    NoHeavierTerm(delta, t);
    HeaviestIsBounded(PRODUCT_SHIFT);
    PatternParts(1279, 0);
    BitOrderIsNumericOrder(WeightOf(Binary(delta), t), 1279 * HIDDEN_BIT);
  }

  /** A sum is at most 2^256 for each of its weights, rounding included. */
  lemma {:induction false} FoldIsBounded(delta: nat, terms: seq<Term>)
    requires Valid(terms) && |terms| <= WHOLE_LIMIT
    ensures Fold(Binary(delta), terms) < INFINITY
    ensures Value(Fold(Binary(delta), terms)) <= |terms| * Value(1279 * HIDDEN_BIT)
  {
    if terms == [] {
      ZeroValue(0);
    } else {
      var n := |terms| - 1;
      FoldIsBounded(delta, terms[..n]);
      TermIsBounded(delta, terms[n]);
      StepIsBounded(Fold(Binary(delta), terms[..n]), WeightOf(Binary(delta), terms[n]), n);
    }
  }

  lemma StepIsBounded(x: nat, w: nat, n: nat)
    requires n + 1 <= WHOLE_LIMIT && x < INFINITY && w < INFINITY
    requires Value(x) <= n * Value(1279 * HIDDEN_BIT) && Value(w) <= Value(1279 * HIDDEN_BIT)
    ensures RoundedSum(NearestEven, x, w) < INFINITY
    ensures Value(RoundedSum(NearestEven, x, w)) <= (n + 1) * Value(1279 * HIDDEN_BIT)
  {
    var q := MultiplePattern(n + 1, 1279, ONE);
    Distribute(n, 1, Value(1279 * HIDDEN_BIT));
    NearestEvenIsMonotone(Value(x) + Value(w), Value(q));
    NearestEvenOfValue(q);
    BitOrderIsNumericOrder(RoundedSum(NearestEven, x, w), q);
  }

  /** Fewer than 2^32 times 2^256 is less than 2^54 deltas. */
  lemma BelowTheLimit(d: nat, n: nat, g: nat)
    requires 1257 <= d <= 1993 && n <= MAX_COUNT && g == 1279
    ensures n * Value(g * HIDDEN_BIT) < 2 * WHOLE_LIMIT * Value(d * HIDDEN_BIT)
  {
    PowerValue(g);
    PowerValue(d);
    WholeLimitIsPower();
    Pow2Splits(53, 1);
    Pow2Splits(54, 52 + (d - 1));
    ThirtyTwoBits(32);
    Pow2Splits(32, 52 + (g - 1));
    Less(n, Pow2(32), Pow2(52 + (g - 1)));
    Pow2Grows(32 + (52 + (g - 1)), 54 + (52 + (d - 1)));
  }

  /** With a power of two from 2^234 on, every sum of fewer than 2^32 weights advances. */
  lemma LargePowersAdvance(d: nat, delta: nat)
    requires 1257 <= d <= 1993 && delta == d * HIDDEN_BIT
    ensures SumsAdvance(Binary(delta), MAX_COUNT - 2)
  {
    forall terms: seq<Term> | Valid(terms) && 0 < |terms| <= MAX_COUNT - 2
        && !Binary(delta).Light(WeightOf(Binary(delta), terms[|terms| - 1]))
      ensures LastAdvances(Binary(delta), terms)
    {
      LargePowerAdvances(d, delta, terms);
    }
  }

  lemma LargePowerAdvances(d: nat, delta: nat, terms: seq<Term>)
    requires 1257 <= d <= 1993 && delta == d * HIDDEN_BIT && Valid(terms) && 0 < |terms| <= MAX_COUNT - 2
    requires delta < WeightOf(Binary(delta), terms[|terms| - 1])
    ensures LastAdvances(Binary(delta), terms)
  {
    var n := |terms| - 1;
    var x, w := Fold(Binary(delta), terms[..n]), WeightOf(Binary(delta), terms[n]);
    FoldIsBounded(delta, terms[..n]);
    FoldIsBounded(delta, terms);
    TermIsBounded(delta, terms[n]);
    BelowTheLimit(d, |terms|, 1279);
    if BucketIndex(x, delta, ONE).Some? && BucketIndex(RoundedSum(NearestEven, x, w), delta, ONE).Some? {
      PowerOfTwoStep(x, w, d, ONE);
    }
  }

  /** A power of two is exact on every network that the router accepts if and only if it is at least 2^234. */
  lemma PowerIsExactIff(d: nat, delta: nat)
    requires 716 <= d < 2047 && delta == d * HIDDEN_BIT
    ensures ExactUpTo(Binary(delta), MAX_COUNT, MAX_COUNT) <==> 1257 <= d
  {
    PatternParts(d, 0);
    KernelIsExactIffSumsAdvance(delta, MAX_COUNT, MAX_COUNT);
    if d < 1257 {
      RouterIsInexact(delta);
    } else if d <= 1993 {
      LargePowersAdvance(d, delta);
    } else {
      HeaviestIsBounded(PRODUCT_SHIFT);
      NothingIsHeavy(delta, MAX_COUNT - 2);
    }
  }

  /** So is every delta that no weight exceeds. */
  lemma CoarseDeltaIsExact(delta: nat)
    requires Heaviest(PRODUCT_SHIFT) <= delta < INFINITY && delta > 0
    ensures ExactUpTo(Binary(delta), MAX_COUNT, MAX_COUNT)
  {
    NothingIsHeavy(delta, MAX_COUNT - 2);
    KernelIsExactIffSumsAdvance(delta, MAX_COUNT, MAX_COUNT);
  }

  // What can go wrong otherwise.

  lemma CostIsFinite(net: Network, o: nat, p: seq<Arc>, v: nat)
    requires net.WellFormed() && net.arithmetic == Binary(net.arithmetic.delta) && net.Walk(o, p, v)
    requires |p| <= MAX_COUNT
    ensures net.Cost(p) < INFINITY && Value(net.Cost(p)) <= |p| * Value(1279 * HIDDEN_BIT)
  {
    WalkArcs(net, o, p, v);
    CostIsFold(net, p);
    FoldIsBounded(net.arithmetic.delta, TermsOf(net, p));
  }

  /** No walk of a network that the router accepts costs infinity. */
  lemma NothingOverflows(net: Network, o: nat)
    requires net.WellFormed() && net.arithmetic == Binary(net.arithmetic.delta) && net.nodeCount <= MAX_COUNT
    ensures !net.Overflows(o)
  {
    forall p, v | net.Walk(o, p, v) && |p| <= net.nodeCount
      ensures net.Cost(p) < INFINITY
    {
      CostIsFinite(net, o, p, v);
    }
  }

  /** So the frontier search never fails: every run that ends uncancelled has converged. */
  lemma FrontierNeverFails(net: Network, o: nat, states: seq<State>, i: nat)
    requires net.WellFormed() && net.arithmetic == Binary(net.arithmetic.delta) && net.nodeCount <= MAX_COUNT
    requires o < net.nodeCount && Run(net, o, states) && i < |states|
    ensures states[i].mode != Failed
  {
    FrontierSearch.RunKeeps(net, o, states, i);
    NothingOverflows(net, o);
  }

  /** Nor is there a distance without a bucket, if delta is at least 2^225 and below 2^961. */
  lemma EveryCostHasBucket(net: Network, o: nat, p: seq<Arc>, v: nat, e: nat)
    requires net.WellFormed() && net.arithmetic == Binary(net.arithmetic.delta) && net.Walk(o, p, v)
    requires |p| <= MAX_COUNT && e == net.arithmetic.delta / HIDDEN_BIT && 1248 <= e <= 1983
    ensures BucketIndex(net.Cost(p), net.arithmetic.delta, ONE).Some?
  {
    CostIsFinite(net, o, p, v);
    LargeSumHasBucket(net.arithmetic.delta, e, 63, ONE);
    BelowTheTop(|p|, e + 63, 1279);
    BitOrderIsNumericOrder(net.Cost(p), (e + 63) * HIDDEN_BIT);
    BucketGrows(net.Cost(p), (e + 63) * HIDDEN_BIT, net.arithmetic.delta, ONE);
  }

  lemma ThirtyTwoBits(n: nat)
    requires n == 32
    ensures Pow2(n) == MAX_COUNT + 1
  {
    assert Pow2(8) == 256;
    Pow2Splits(8, 8);
    Pow2Splits(16, 16);
  }

  lemma BelowTheTop(n: nat, top: nat, g: nat)
    requires n <= MAX_COUNT && g == 1279 && 1311 <= top < 2047
    ensures n * Value(g * HIDDEN_BIT) < Value(top * HIDDEN_BIT)
  {
    PowerValue(g);
    PowerValue(top);
    ThirtyTwoBits(32);
    Pow2Splits(32, 52 + (g - 1));
    Less(n, Pow2(32), Pow2(52 + (g - 1)));
    Pow2Grows(32 + (52 + (g - 1)), 52 + (top - 1));
  }

  /** With such a delta, delta-stepping never faults either. */
  lemma DeltaNeverFaults(net: Network, o: nat, states: seq<DeltaState>, i: nat)
    requires Sane(net, o) && net.arithmetic == Binary(net.arithmetic.delta) && net.nodeCount <= MAX_COUNT
    requires 1248 <= net.arithmetic.delta / HIDDEN_BIT <= 1983
    requires DeltaRun(net, o, states) && i < |states|
    ensures states[i].stage != Faulted
  {
    DeltaRunKeeps(net, o, states, i);
    NothingOverflows(net, o);
    forall p, v | net.Walk(o, p, v) && |p| <= net.nodeCount
      ensures BucketIndex(net.Cost(p), net.arithmetic.delta, ONE).Some?
    {
      EveryCostHasBucket(net, o, p, v, net.arithmetic.delta / HIDDEN_BIT);
    }
  }
}
