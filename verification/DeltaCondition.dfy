/**
  When delta-stepping is exact on every network of up to N nodes, as a condition on the
  arithmetic alone: no sum of up to N - 2 weights may stay in its bucket when its last
  weight is above delta. Without a bound on N it means, in the kernels' arithmetic and from
  delta 2^-307 on, that no weight exceeds delta at all: enough copies of a weight above
  delta add up to a sum that absorbs it.
 */
module DeltaCondition {
  import opened Basics
  import opened Binary64
  import opened RoutingGraph
  import opened DeltaSearch
  import opened DeltaNecessity
  import opened BinaryArithmetic
  import opened BucketSteps

  /** The words of one weight. */
  datatype Term = Term(base: nat, multiplier: nat)

  ghost predicate Valid(terms: seq<Term>) {
    forall i :: 0 <= i < |terms| ==> FiniteNonNegative(terms[i].base) && FiniteNonNegative(terms[i].multiplier)
  }

  function WeightOf(arithmetic: Arithmetic, t: Term): nat {
    arithmetic.weigh(t.base, t.multiplier)
  }

  /** The sum of the weights, accumulated from the first. */
  ghost function Fold(arithmetic: Arithmetic, terms: seq<Term>): nat {
    if terms == [] then 0
    else arithmetic.add(Fold(arithmetic, terms[..|terms| - 1]), WeightOf(arithmetic, terms[|terms| - 1]))
  }

  /** Adding the last weight to the sum of the others leaves the bucket of that sum. */
  ghost predicate LastAdvances(arithmetic: Arithmetic, terms: seq<Term>)
    requires terms != []
  {
    var x := Fold(arithmetic, terms[..|terms| - 1]);
    (arithmetic.bucket(x).Some? && arithmetic.bucket(Fold(arithmetic, terms)).Some?)
    ==> arithmetic.bucket(x).value < arithmetic.bucket(Fold(arithmetic, terms)).value
  }

  /** Every weight above delta that ends a sum of at most so many weights leaves the bucket of the sum before it. */
  ghost predicate SumsAdvance(arithmetic: Arithmetic, count: nat) {
    forall terms: seq<Term> ::
      (Valid(terms) && 0 < |terms| <= count && !arithmetic.Light(WeightOf(arithmetic, terms[|terms| - 1])))
      ==> LastAdvances(arithmetic, terms)
  }

  // From sums to walks.

  ghost function TermsOf(net: Network, p: seq<Arc>): (terms: seq<Term>)
    requires net.WellFormed() && forall i :: 0 <= i < |p| ==> p[i] in net.arcs
    ensures |terms| == |p| && Valid(terms)
  {
    seq(|p|, i requires 0 <= i < |p| => Term(p[i].base, net.multipliers[p[i].relation]))
  }

  lemma {:induction false} CostIsFold(net: Network, p: seq<Arc>)
    requires net.WellFormed() && forall i :: 0 <= i < |p| ==> p[i] in net.arcs
    ensures net.Cost(p) == Fold(net.arithmetic, TermsOf(net, p))
  {
    if p != [] {
      var last := |p| - 1;
      CostIsFold(net, p[..last]);
      assert TermsOf(net, p)[..last] == TermsOf(net, p[..last]);
    }
  }

  lemma {:induction false} WalkArcs(net: Network, o: nat, p: seq<Arc>, v: nat)
    requires net.Walk(o, p, v)
    ensures forall i :: 0 <= i < |p| ==> p[i] in net.arcs
  {
    if p != [] {
      WalkArcs(net, o, p[..|p| - 1], p[|p| - 1].source);
      assert forall i :: 0 <= i < |p| - 1 ==> p[i] == p[..|p| - 1][i];
    }
  }

  /** The terms of an extended walk: its cost, its last weight, and the cost before it. */
  lemma ExtendedTerms(net: Network, p: seq<Arc>, a: Arc)
    requires net.WellFormed() && a in net.arcs && forall i :: 0 <= i < |p| ==> p[i] in net.arcs
    ensures var terms := TermsOf(net, p + [a]);
            && Fold(net.arithmetic, terms[..|p|]) == net.Cost(p)
            && Fold(net.arithmetic, terms) == net.Extend(net.Cost(p), a)
            && WeightOf(net.arithmetic, terms[|p|]) == net.Weight(a)
  {
    var terms := TermsOf(net, p + [a]);
    CostIsFold(net, p);
    assert terms[..|p|] == TermsOf(net, p);
  }

  lemma SumsAdvanceArc(net: Network, o: nat, a: Arc, p: seq<Arc>)
    requires Sane(net, o) && SumsAdvance(net.arithmetic, |p| + 1)
    requires a in net.arcs && !net.arithmetic.Light(net.Weight(a)) && net.Walk(o, p, a.source)
    requires net.arithmetic.bucket(net.Cost(p)).Some? && net.arithmetic.bucket(net.Extend(net.Cost(p), a)).Some?
    ensures net.arithmetic.bucket(net.Cost(p)).value < net.arithmetic.bucket(net.Extend(net.Cost(p), a)).value
  {
    WalkArcs(net, o, p, a.source);
    ExtendedTerms(net, p, a);
    assert LastAdvances(net.arithmetic, TermsOf(net, p + [a]));
  }

  lemma SumsAdvanceWalks(arithmetic: Arithmetic, nodes: nat, relations: nat)
    requires nodes >= 2 && SumsAdvance(arithmetic, nodes - 2)
    ensures AdvancesUpTo(arithmetic, nodes, relations)
  {
    forall net: Network, o: nat, a: Arc, p: seq<Arc> | net.arithmetic == arithmetic && Sane(net, o)
        && net.nodeCount <= nodes && |p| + 2 < net.nodeCount
        && a in net.arcs && !net.arithmetic.Light(net.Weight(a)) && net.Walk(o, p, a.source)
        && net.arithmetic.bucket(net.Cost(p)).Some? && net.arithmetic.bucket(net.Extend(net.Cost(p), a)).Some?
      ensures net.arithmetic.bucket(net.Cost(p)).value < net.arithmetic.bucket(net.Extend(net.Cost(p), a)).value
    {
      SumsAdvanceArc(net, o, a, p);
    }
  }

  // From walks to sums: a line of arcs whose weights are the terms, and a node apart.

  function LineArc(terms: seq<Term>, i: nat): Arc
    requires i < |terms|
  {
    Arc(i, i + 1, i, terms[i].base)
  }

  ghost function Line(arithmetic: Arithmetic, terms: seq<Term>): Network {
    Network(|terms| + 2, set i: nat | i < |terms| :: LineArc(terms, i),
            seq(|terms|, _ => 1), seq(|terms|, i requires 0 <= i < |terms| => terms[i].multiplier), arithmetic)
  }

  lemma LineIsSane(arithmetic: Arithmetic, terms: seq<Term>)
    requires arithmetic.Lawful() && arithmetic.Bucketed() && Valid(terms)
    ensures Sane(Line(arithmetic, terms), 0)
  {
  }

  lemma LineWeight(arithmetic: Arithmetic, terms: seq<Term>, i: nat)
    requires i < |terms|
    ensures LineArc(terms, i) in Line(arithmetic, terms).arcs && Line(arithmetic, terms).Enabled(LineArc(terms, i))
    ensures Line(arithmetic, terms).Weight(LineArc(terms, i)) == WeightOf(arithmetic, terms[i])
  {
  }

  function LineArcs(terms: seq<Term>, n: nat): (p: seq<Arc>)
    requires n <= |terms|
    ensures |p| == n
  {
    seq(n, i requires 0 <= i < n => LineArc(terms, i))
  }

  lemma LineNodes(terms: seq<Term>, n: nat)
    requires n <= |terms|
    ensures forall i :: 0 <= i <= n ==> NodeAt(0, LineArcs(terms, n), i) == i
  {
  }

  /** The first n arcs of the line are a walk, and its cost is the sum of the first n terms. */
  lemma {:induction false} LineWalk(arithmetic: Arithmetic, terms: seq<Term>, n: nat)
    requires n <= |terms|
    ensures Line(arithmetic, terms).Walk(0, LineArcs(terms, n), n)
    ensures Line(arithmetic, terms).Cost(LineArcs(terms, n)) == Fold(arithmetic, terms[..n])
  {
    if n > 0 {
      LineWalk(arithmetic, terms, n - 1);
      LineWeight(arithmetic, terms, n - 1);
      AppendArc(Line(arithmetic, terms), 0, LineArcs(terms, n - 1), LineArc(terms, n - 1));
      assert LineArcs(terms, n) == LineArcs(terms, n - 1) + [LineArc(terms, n - 1)];
      assert terms[..n][..n - 1] == terms[..n - 1];
    }
  }

  lemma LineAdvances(arithmetic: Arithmetic, terms: seq<Term>, nodes: nat, relations: nat)
    requires arithmetic.Lawful() && arithmetic.Bucketed() && AdvancesUpTo(arithmetic, nodes, relations)
    requires |terms| + 2 <= nodes && |terms| <= relations
    requires Valid(terms) && terms != [] && !arithmetic.Light(WeightOf(arithmetic, terms[|terms| - 1]))
    ensures LastAdvances(arithmetic, terms)
  {
    var net := Line(arithmetic, terms);
    var n := |terms| - 1;
    LineIsSane(arithmetic, terms);
    LineWeight(arithmetic, terms, n);
    var p := LineArcs(terms, n);
    LineWalk(arithmetic, terms, n);
    LineNodes(terms, n);
    assert net.HeavyArcsAdvance(0);
    assert net.Advances(0, LineArc(terms, n));
    assert net.Simple(0, p) && !net.Visits(0, p, n + 1);
  }

  /**
    Delta-stepping is exact on every network of at most so many nodes, and in every run, if and only if every sum
    of at most two weights fewer than that advances. The relations must not be too few for the weights to differ.
   */
  lemma ExactIffSumsAdvance(arithmetic: Arithmetic, nodes: nat, relations: nat)
    requires arithmetic.Lawful() && arithmetic.Bucketed() && Grounded(arithmetic) && 2 <= nodes <= relations + 2
    ensures ExactUpTo(arithmetic, nodes, relations) <==> SumsAdvance(arithmetic, nodes - 2)
  {
    ExactIffAdvances(arithmetic, nodes, relations);
    if SumsAdvance(arithmetic, nodes - 2) {
      SumsAdvanceWalks(arithmetic, nodes, relations);
    }
    if AdvancesUpTo(arithmetic, nodes, relations) {
      forall terms: seq<Term> | Valid(terms) && 0 < |terms| <= nodes - 2
          && !arithmetic.Light(WeightOf(arithmetic, terms[|terms| - 1]))
        ensures LastAdvances(arithmetic, terms)
      {
        LineAdvances(arithmetic, terms, nodes, relations);
      }
    }
  }

  /** For the kernels' own arithmetic and any delta the configuration accepts. */
  lemma KernelIsExactIffSumsAdvance(delta: nat, nodes: nat, relations: nat)
    requires 0 < delta < INFINITY && 2 <= nodes <= relations + 2
    ensures ExactUpTo(Binary(delta), nodes, relations) <==> SumsAdvance(Binary(delta), nodes - 2)
  {
    BinaryIsLawful(delta);
    ExactIffSumsAdvance(Binary(delta), nodes, relations);
  }

  // No delta within the range of the weights is exact everywhere.

  /** Every power of two from 2^-298 to 2^254 is the weight of some words. */
  lemma PowerTerm(delta: nat, g: nat) returns (t: Term)
    requires 725 <= g <= 1277
    ensures FiniteNonNegative(t.base) && FiniteNonNegative(t.multiplier)
    ensures WeightOf(Binary(delta), t) == g * HIDDEN_BIT
  {
    var k := g - 725;
    var j := if k <= 276 then k else 276;
    PowerWordValue(j);
    PowerWordValue(k - j);
    PowerProduct(j, k - j, PRODUCT_SHIFT, g);
    t := Term(PowerWord(j), PowerWord(k - j));
  }

  lemma DeltaBinade(delta: nat)
    requires HIDDEN_BIT <= delta
    ensures (delta / HIDDEN_BIT) * HIDDEN_BIT <= delta < (delta / HIDDEN_BIT + 1) * HIDDEN_BIT
  {
  }

  /** 2^(d+1) is lost in 2^(d+55). */
  lemma Absorbed(d: nat)
    requires 1 <= d && d + 56 < 2047
    ensures RoundedSum(NearestEven, (d + 55) * HIDDEN_BIT, (d + 1) * HIDDEN_BIT) == (d + 55) * HIDDEN_BIT
  {
    PowerValue(d + 55);
    PowerValue(d + 1);
    PatternParts(d + 55, 0);
    PatternParts(d + 56, 0);
    GapOfPower(d + 55);
    Pow2Splits(52 + d, 1);
    Pow2Grows(52 + d + 2, d + 54);
    Pow2Splits(52 + d, 2);
    SmallSummandVanishes((d + 55) * HIDDEN_BIT, (d + 1) * HIDDEN_BIT);
  }

  lemma GapOfPower(e: nat)
    requires e >= 1
    ensures Gap(e * HIDDEN_BIT) == Pow2(e - 1)
  {
    PatternParts(e, 0);
  }

  /** A distance of up to 2^63 deltas still has a bucket. */
  lemma LargeSumHasBucket(delta: nat, d: nat, n: nat, one: nat)
    requires one == 1023 * HIDDEN_BIT && d == delta / HIDDEN_BIT && n <= 63 && 2 <= d && d + n < 2047
    ensures delta < INFINITY && (d + n) * HIDDEN_BIT < INFINITY
    ensures BucketIndex((d + n) * HIDDEN_BIT, delta, one).Some?
  {
    DeltaBinade(delta);
    PatternParts(d + n, 0);
    PatternParts(d, 0);
    var sum, z := (d + n) * HIDDEN_BIT, (1023 + n) * HIDDEN_BIT;
    ShiftedValue(z, d, one);
    assert z + d * HIDDEN_BIT - one == sum;
    BitOrderIsNumericOrder(d * HIDDEN_BIT, delta);
    ScaleLeft(Value(z), Value(d * HIDDEN_BIT), Value(delta));
    QuotientAtMost(sum, z, delta, one);
    SmallWhole(z, RoundedQuotient(sum, delta, one), one, n);
  }

  lemma SmallWhole(z: nat, q: nat, one: nat, n: nat)
    requires n <= 63 && one == 1023 * HIDDEN_BIT && z == (1023 + n) * HIDDEN_BIT && q <= z
    ensures z < INFINITY && Whole(q, one) < BUCKET_BOUND
  {
    PowerValue(1023 + n);
    PowerValue(1023);
    Pow2Splits(n, 52 + (1023 - 1));
    WholeAtMost(q, z, Pow2(n), one);
    BucketBits(n);
  }

  lemma WholeAtMost(q: nat, z: nat, n: nat, one: nat)
    requires q <= z < INFINITY && 0 < one < INFINITY && Value(z) == n * Value(one)
    ensures Whole(q, one) <= n
  {
    PositiveValue(one);
    BitOrderIsNumericOrder(q, z);
    QuotientIsMonotone(Value(q), Value(z), Value(one));
    QuotientOfProduct(n, Value(one));
  }

  lemma BucketBits(n: nat)
    requires n <= 63
    ensures Pow2(n) < BUCKET_BOUND
  {
    HiddenBitsArePowers();
    assert Pow2(11) == 2048;
    Pow2Splits(52, 11);
    Pow2Grows(n, 63);
  }

  lemma ScaleLeft(d: nat, a: nat, b: nat)
    requires a <= b
    ensures d * a <= d * b
  {
  }

  function Copies(t: Term, n: nat): (terms: seq<Term>)
    ensures |terms| == n && forall i :: 0 <= i < n ==> terms[i] == t
  {
    seq(n, _ => t)
  }

  lemma FoldOfCopies(arithmetic: Arithmetic, t: Term, n: nat)
    ensures Fold(arithmetic, Copies(t, n + 1))
            == arithmetic.add(Fold(arithmetic, Copies(t, n)), WeightOf(arithmetic, t))
  {
    assert Copies(t, n + 1)[..n] == Copies(t, n);
  }

  /** A sum of copies of one weight that cannot pass top comes to a halt. */
  lemma {:induction false} SumHalts(arithmetic: Arithmetic, t: Term, top: nat, n: nat) returns (k: nat)
    requires arithmetic.Lawful() && arithmetic.add(top, WeightOf(arithmetic, t)) == top <= INFINITY
    requires Fold(arithmetic, Copies(t, n)) <= top
    ensures Fold(arithmetic, Copies(t, k + 1)) == Fold(arithmetic, Copies(t, k)) <= top
    decreases top - Fold(arithmetic, Copies(t, n))
  {
    FoldOfCopies(arithmetic, t, n);
    if Fold(arithmetic, Copies(t, n + 1)) == Fold(arithmetic, Copies(t, n)) {
      k := n;
    } else {
      k := SumHalts(arithmetic, t, top, n + 1);
    }
  }

  /** A heavy weight whose copies halt below a distance with a bucket breaks the condition. */
  lemma HaltedSumStays(arithmetic: Arithmetic, t: Term, top: nat) returns (count: nat)
    requires arithmetic.Lawful() && arithmetic.Bucketed() && Valid([t]) && !arithmetic.Light(WeightOf(arithmetic, t))
    requires arithmetic.add(top, WeightOf(arithmetic, t)) == top <= INFINITY && arithmetic.bucket(top).Some?
    ensures !SumsAdvance(arithmetic, count)
  {
    assert Copies(t, 0) == [];
    var k := SumHalts(arithmetic, t, top, 0);
    var terms := Copies(t, k + 1);
    assert terms[..k] == Copies(t, k);
    assert [t][0] == t;
    assert !LastAdvances(arithmetic, terms);
    count := k + 1;
  }

  /** The largest finite word, and the heaviest weight there is. */
  const LARGEST_WORD: nat := 0x7F7F_FFFF

  ghost function Heaviest(shift: nat): nat {
    RoundedProduct(LARGEST_WORD, LARGEST_WORD, shift)
  }

  lemma ValueOfWord(bits: nat, e: nat, f: nat)
    requires bits < 0x7F80_0000 && e == bits / HIDDEN_BIT_32 && f == bits % HIDDEN_BIT_32
    ensures Value32(bits) == if e == 0 then f else (HIDDEN_BIT_32 + f) * Pow2(e - 1)
  {
  }

  lemma LargestValue(largest: nat)
    requires largest == LARGEST_WORD
    ensures Value32(largest) == (2 * HIDDEN_BIT_32 - 1) * Pow2(253) < Pow2(277)
  {
    ValueOfWord(largest, 254, HIDDEN_BIT_32 - 1);
    HiddenBitsArePowers();
    Pow2Splits(23, 1);
    Pow2Splits(24, 253);
    Less(2 * HIDDEN_BIT_32 - 1, 2 * HIDDEN_BIT_32, Pow2(253));
  }

  lemma NoLargerWord(bits: nat)
    requires FiniteNonNegative(bits)
    ensures Value32(bits) <= Value32(LARGEST_WORD)
  {
    LargestValue(LARGEST_WORD);
    if bits < 0x7F80_0000 {
      var e, f := bits / HIDDEN_BIT_32, bits % HIDDEN_BIT_32;
      ValueOfWord(bits, e, f);
      if e == 0 {
        Product(1, Pow2(253), f, 2 * HIDDEN_BIT_32 - 1);
      } else {
        Pow2Grows(e - 1, 253);
        Product(Pow2(e - 1), Pow2(253), HIDDEN_BIT_32 + f, 2 * HIDDEN_BIT_32 - 1);
      }
    }
  }

  lemma Product(a: nat, b: nat, c: nat, d: nat)
    requires a <= b && c <= d
    ensures c * a <= d * b
  {
  }

  lemma ScaledGrows(m: nat, n: nat, unit: nat)
    requires m <= n
    ensures NearestEven(m * unit) <= NearestEven(n * unit)
  {
    Product(unit, unit, m, n);
    NearestEvenIsMonotone(m * unit, n * unit);
  }

  lemma ProductGrows(a: nat, b: nat, c: nat, d: nat, shift: nat)
    requires a <= b && c <= d
    ensures NearestEven(a * c * Pow2(shift)) <= NearestEven(b * d * Pow2(shift))
  {
    Product(c, d, a, b);
    ScaledGrows(a * c, b * d, Pow2(shift));
  }

  lemma NoHeavierTerm(delta: nat, t: Term)
    requires FiniteNonNegative(t.base) && FiniteNonNegative(t.multiplier)
    ensures WeightOf(Binary(delta), t) <= Heaviest(PRODUCT_SHIFT)
  {
    NoLargerWord(t.base);
    NoLargerWord(t.multiplier);
    ProductGrows(Value32(t.base), Value32(LARGEST_WORD), Value32(t.multiplier), Value32(LARGEST_WORD), PRODUCT_SHIFT);
  }

  lemma HeaviestIsBounded(shift: nat)
    requires shift == PRODUCT_SHIFT
    ensures Heaviest(shift) <= 1279 * HIDDEN_BIT
  {
    LargestValue(LARGEST_WORD);
    Pow2Splits(277, 277);
    Pow2Splits(277 + 277, shift);
    PowerValue(1279);
    ProductGrows(Value32(LARGEST_WORD), Pow2(277), Value32(LARGEST_WORD), Pow2(277), shift);
    NearestEvenOfValue(1279 * HIDDEN_BIT);
  }

  /** A weight of at most 2^(d+1) is lost in 2^(d+55). */
  lemma WeightIsLost(w: nat, d: nat)
    requires 1 <= d && d + 56 < 2047 && w <= (d + 1) * HIDDEN_BIT
    ensures RoundedSum(NearestEven, (d + 55) * HIDDEN_BIT, w) == (d + 55) * HIDDEN_BIT < INFINITY
  {
    var top := (d + 55) * HIDDEN_BIT;
    PatternParts(d + 55, 0);
    PatternParts(d + 1, 0);
    Absorbed(d);
    NearestEvenIsRounding();
    RoundedSumInflates(NearestEven, top, w);
    BitOrderIsNumericOrder(w, (d + 1) * HIDDEN_BIT);
    NearestEvenIsMonotone(Value(top) + Value(w), Value(top) + Value((d + 1) * HIDDEN_BIT));
  }

  /** Some weight lies above delta, and at most 2^9 deltas: it is the heaviest one or a power of two. */
  lemma WeightAbove(delta: nat) returns (t: Term, d: nat)
    requires 716 * HIDDEN_BIT <= delta < Heaviest(PRODUCT_SHIFT)
    ensures Valid([t]) && delta < WeightOf(Binary(delta), t) <= (d + 1) * HIDDEN_BIT
    ensures delta / HIDDEN_BIT <= d <= delta / HIDDEN_BIT + 8 && d <= 1278
  {
    var e := delta / HIDDEN_BIT;
    DeltaBinade(delta);
    HeaviestIsBounded(PRODUCT_SHIFT);
    if e <= 1276 {
      d := if e < 724 then 724 else e;
      t := PowerTerm(delta, d + 1);
    } else {
      d, t := 1278, Term(LARGEST_WORD, LARGEST_WORD);
    }
  }

  /** Copies of one weight above delta add up to a sum that absorbs the weight. */
  lemma SumsDoNotAdvance(delta: nat) returns (count: nat)
    requires 716 * HIDDEN_BIT <= delta < Heaviest(PRODUCT_SHIFT)
    ensures delta < INFINITY && !SumsAdvance(Binary(delta), count)
  {
    var e := delta / HIDDEN_BIT;
    var t, d := WeightAbove(delta);
    LargeSumHasBucket(delta, e, d + 55 - e, ONE);
    BinaryIsLawful(delta);
    WeightIsLost(WeightOf(Binary(delta), t), d);
    count := HaltedSumStays(Binary(delta), t, (d + 55) * HIDDEN_BIT);
  }

  /** Where no weight exceeds delta, nothing is heavy. */
  lemma NothingIsHeavy(delta: nat, count: nat)
    requires Heaviest(PRODUCT_SHIFT) <= delta
    ensures SumsAdvance(Binary(delta), count)
  {
    forall terms: seq<Term> | Valid(terms) && terms != []
      ensures WeightOf(Binary(delta), terms[|terms| - 1]) <= delta
    {
      NoHeavierTerm(delta, terms[|terms| - 1]);
    }
  }

  /**
    On networks of any size, more nodes than a router accepts included: a delta of at least 2^-307 is exact on all
    of them if and only if no weight at all exceeds it.
   */
  lemma ExactIffNothingIsHeavy(delta: nat)
    requires 716 * HIDDEN_BIT <= delta < INFINITY
    ensures (forall size: nat :: ExactUpTo(Binary(delta), size, size)) <==> Heaviest(PRODUCT_SHIFT) <= delta
  {
    if delta < Heaviest(PRODUCT_SHIFT) {
      var count := SumsDoNotAdvance(delta);
      KernelIsExactIffSumsAdvance(delta, count + 2, count + 2);
      assert !ExactUpTo(Binary(delta), count + 2, count + 2);
    } else {
      forall size: nat
        ensures ExactUpTo(Binary(delta), size, size)
      {
        NothingIsHeavy(delta, size);
        KernelIsExactIffSumsAdvance(delta, size + 2, size);
      }
    }
  }
}
