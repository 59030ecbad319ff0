/**
  Delta-stepping in the kernels' arithmetic, network by network: heavy arcs advance when
  sums keep more than delta, in particular when sums are exact, and there is a condition
  on the node count, the weights and delta alone that a caller can check beforehand.
  All of it is about simple walks, so cycles are no obstacle.
 */
module DeltaBinary64 {
  import opened Basics
  import opened Binary64
  import opened RoutingGraph
  import opened DeltaSearch
  import opened BinaryArithmetic
  import opened BucketSteps

  /** p is a simple walk that the arc a extends to a new node, and not the last one. */
  ghost predicate Leads(net: Network, o: nat, p: seq<Arc>, a: Arc) {
    net.Walk(o, p, a.source) && net.Simple(o, p) && !net.Visits(o, p, a.destination) && |p| + 2 < net.nodeCount
  }

  ghost predicate Heavy(net: Network, a: Arc) {
    a in net.arcs && net.Enabled(a) && !net.arithmetic.Light(net.Weight(a))
  }

  /** Extending a simple walk by a heavy arc raises the value by more than delta, below 2^53 deltas. */
  ghost predicate DeltaSurvives(net: Network, o: nat)
    requires 0 < net.arithmetic.delta < INFINITY
  {
    forall a, p :: (Heavy(net, a) && Leads(net, o, p, a)
                    && net.Cost(p) < INFINITY && net.Extend(net.Cost(p), a) < INFINITY)
      ==> Value(net.Cost(p)) + Value(net.arithmetic.delta) < Value(net.Extend(net.Cost(p), a))
          < WHOLE_LIMIT * Value(net.arithmetic.delta)
  }

  /** Sums that keep more than delta leave their bucket. */
  lemma SurvivingDeltaAdvances(net: Network, o: nat)
    requires net.arithmetic == Binary(net.arithmetic.delta) && 0 < net.arithmetic.delta < INFINITY
    requires DeltaSurvives(net, o)
    ensures net.HeavyArcsAdvance(o)
  {
    var delta := net.arithmetic.delta;
    forall a, p | Heavy(net, a) && Leads(net, o, p, a)
        && BucketIndex(net.Cost(p), delta, ONE).Some? && BucketIndex(net.Extend(net.Cost(p), a), delta, ONE).Some?
      ensures BucketIndex(net.Cost(p), delta, ONE).value < BucketIndex(net.Extend(net.Cost(p), a), delta, ONE).value
    {
      WideStep(net.Cost(p), net.Extend(net.Cost(p), a), delta, ONE);
    }
    BucketsAdvance(net, o);
  }

  /** HeavyArcsAdvance, spelled out for the kernels' buckets. */
  lemma BucketsAdvance(net: Network, o: nat)
    requires net.arithmetic == Binary(net.arithmetic.delta)
    requires forall a, p :: (Heavy(net, a) && Leads(net, o, p, a)
                             && BucketIndex(net.Cost(p), net.arithmetic.delta, ONE).Some?
                             && BucketIndex(net.Extend(net.Cost(p), a), net.arithmetic.delta, ONE).Some?)
               ==> BucketIndex(net.Cost(p), net.arithmetic.delta, ONE).value
                   < BucketIndex(net.Extend(net.Cost(p), a), net.arithmetic.delta, ONE).value
    ensures net.HeavyArcsAdvance(o)
  {
    forall a | Heavy(net, a)
      ensures net.Advances(o, a)
    {
      forall p | Leads(net, o, p, a)
          && net.arithmetic.bucket(net.Cost(p)).Some? && net.arithmetic.bucket(net.Extend(net.Cost(p), a)).Some?
        ensures net.arithmetic.bucket(net.Cost(p)).value < net.arithmetic.bucket(net.Extend(net.Cost(p), a)).value
      {
        assert Heavy(net, a);
      }
    }
  }

  /** No sum along a simple walk is rounded, and all of them stay below 2^53 deltas. */
  ghost predicate SumsAreExact(net: Network, o: nat)
    requires 0 < net.arithmetic.delta < INFINITY
  {
    forall a, p :: (Heavy(net, a) && Leads(net, o, p, a)
                    && net.Cost(p) < INFINITY && net.Extend(net.Cost(p), a) < INFINITY)
      ==> && net.Weight(a) < INFINITY
          && Value(net.Extend(net.Cost(p), a)) == Value(net.Cost(p)) + Value(net.Weight(a))
             < WHOLE_LIMIT * Value(net.arithmetic.delta)
  }

  /** Without rounding, an arc heavier than delta always advances. */
  lemma ExactSumsAdvance(net: Network, o: nat)
    requires net.arithmetic == Binary(net.arithmetic.delta) && 0 < net.arithmetic.delta < INFINITY
    requires SumsAreExact(net, o)
    ensures net.HeavyArcsAdvance(o)
  {
    forall a, p | Heavy(net, a) && Leads(net, o, p, a)
        && net.Cost(p) < INFINITY && net.Extend(net.Cost(p), a) < INFINITY
      ensures Value(net.Cost(p)) + Value(net.arithmetic.delta) < Value(net.Extend(net.Cost(p), a))
              < WHOLE_LIMIT * Value(net.arithmetic.delta)
    {
      BitOrderIsNumericOrder(net.arithmetic.delta, net.Weight(a));
    }
    SurvivingDeltaAdvances(net, o);
  }

  // A condition to check before the search: first for any arithmetic, ...

  /** The addition grows with both summands. */
  ghost predicate Grows(arithmetic: Arithmetic) {
    forall x: nat, y: nat, v: nat, w: nat {:trigger arithmetic.add(x, v), arithmetic.add(y, w)} ::
      x <= y && v <= w ==> arithmetic.add(x, v) <= arithmetic.add(y, w)
  }

  /** n additions of one weight. */
  ghost function Repeated(arithmetic: Arithmetic, w: nat, n: nat): nat {
    if n == 0 then 0 else arithmetic.add(Repeated(arithmetic, w, n - 1), w)
  }

  lemma {:induction false} RepeatedIsBounded(arithmetic: Arithmetic, w: nat, n: nat)
    requires arithmetic.Lawful()
    ensures Repeated(arithmetic, w, n) <= INFINITY
  {
    if n > 0 {
      RepeatedIsBounded(arithmetic, w, n - 1);
    }
  }

  lemma {:induction false} RepeatedGrows(arithmetic: Arithmetic, w: nat, m: nat, n: nat)
    requires arithmetic.Lawful() && m <= n
    ensures Repeated(arithmetic, w, m) <= Repeated(arithmetic, w, n)
    decreases n - m
  {
    if m < n {
      RepeatedGrows(arithmetic, w, m, n - 1);
      RepeatedIsBounded(arithmetic, w, n - 1);
    }
  }

  /** Every enabled arc weighs at most this much. */
  ghost predicate AtMost(net: Network, heaviest: nat) {
    forall a :: a in net.arcs && net.Enabled(a) ==> net.Weight(a) <= heaviest
  }

  lemma {:induction false} CostIsWithin(net: Network, o: nat, p: seq<Arc>, v: nat, heaviest: nat)
    requires Grows(net.arithmetic) && AtMost(net, heaviest) && net.Walk(o, p, v)
    ensures net.Cost(p) <= Repeated(net.arithmetic, heaviest, |p|)
  {
    if p != [] {
      CostIsWithin(net, o, p[..|p| - 1], p[|p| - 1].source, heaviest);
    }
  }

  /** The longest walk whose last arc has to advance. */
  function Longest(net: Network): nat {
    SaturatingSub(net.nodeCount, 2)
  }

  /** No such walk costs more than one addition of the heaviest weight per arc. */
  lemma ExtensionIsWithin(net: Network, o: nat, p: seq<Arc>, a: Arc, heaviest: nat)
    requires net.WellFormed() && Grows(net.arithmetic) && AtMost(net, heaviest)
    requires a in net.arcs && net.Enabled(a) && Leads(net, o, p, a)
    ensures net.Extend(net.Cost(p), a) <= Repeated(net.arithmetic, heaviest, Longest(net))
  {
    AppendArc(net, o, p, a);
    CostIsWithin(net, o, p + [a], a.destination, heaviest);
    RepeatedGrows(net.arithmetic, heaviest, |p + [a]|, Longest(net));
  }

  /** Adding a heavy weight of the given kind to a distance leaves its bucket, as long as the sum is at most top. */
  ghost predicate StepsAdvance(arithmetic: Arithmetic, top: nat, kind: nat -> bool) {
    forall x: nat, w: nat {:trigger arithmetic.add(x, w)} ::
      (!arithmetic.Light(w) && kind(w) && arithmetic.add(x, w) <= top
       && arithmetic.bucket(x).Some? && arithmetic.bucket(arithmetic.add(x, w)).Some?)
      ==> arithmetic.bucket(x).value < arithmetic.bucket(arithmetic.add(x, w)).value
  }

  lemma StepsAreEnough(net: Network, o: nat, heaviest: nat, kind: nat -> bool)
    requires net.WellFormed() && o < net.nodeCount && Grows(net.arithmetic) && AtMost(net, heaviest)
    requires forall a :: Heavy(net, a) ==> kind(net.Weight(a))
    requires StepsAdvance(net.arithmetic, Repeated(net.arithmetic, heaviest, Longest(net)), kind)
    ensures net.HeavyArcsAdvance(o)
  {
    forall a | Heavy(net, a)
      ensures net.Advances(o, a)
    {
      forall p | Leads(net, o, p, a)
          && net.arithmetic.bucket(net.Cost(p)).Some? && net.arithmetic.bucket(net.Extend(net.Cost(p), a)).Some?
        ensures net.arithmetic.bucket(net.Cost(p)).value < net.arithmetic.bucket(net.Extend(net.Cost(p), a)).value
      {
        ExtensionIsWithin(net, o, p, a, heaviest);
      }
    }
  }

  // ... then for the kernels' own.

  lemma SumInflates(x: nat, w: nat)
    requires x <= INFINITY
    ensures x <= RoundedSum(NearestEven, x, w) <= INFINITY
  {
    NearestEvenIsRounding();
    RoundedSumInflates(NearestEven, x, w);
  }

  lemma SumGrows(x: nat, y: nat, v: nat, w: nat)
    requires x <= y && v <= w
    ensures RoundedSum(NearestEven, x, v) <= RoundedSum(NearestEven, y, w)
  {
    if y < INFINITY && w < INFINITY {
      FiniteSumGrows(x, y, v, w);
    } else if x < INFINITY && v < INFINITY {
      SumInflates(x, v);
    }
  }

  lemma FiniteSumGrows(x: nat, y: nat, v: nat, w: nat)
    requires x <= y < INFINITY && v <= w < INFINITY
    ensures RoundedSum(NearestEven, x, v) <= RoundedSum(NearestEven, y, w)
  {
    BitOrderIsNumericOrder(x, y);
    BitOrderIsNumericOrder(v, w);
    NearestEvenIsMonotone(Value(x) + Value(v), Value(y) + Value(w));
  }

  lemma BinaryGrows(delta: nat)
    ensures Grows(Binary(delta))
  {
    forall x: nat, y: nat, v: nat, w: nat | x <= y && v <= w
      ensures RoundedSum(NearestEven, x, v) <= RoundedSum(NearestEven, y, w)
    {
      SumGrows(x, y, v, w);
    }
  }

  predicate IsPowerOfTwo(delta: nat) {
    delta % HIDDEN_BIT == 0 && 2 <= delta / HIDDEN_BIT <= 1993
  }

  /** The weight exceeds delta by more than half the gap at the largest distance. */
  ghost predicate Margin(delta: nat, top: nat, w: nat) {
    delta < INFINITY && (w < INFINITY ==> 2 * Value(delta) + Gap(top) < 2 * Value(w))
  }

  /** A sum over a margin keeps more than delta. */
  lemma MarginSurvives(x: nat, w: nat, delta: nat, top: nat)
    requires x < INFINITY && w < INFINITY && delta < INFINITY && top + 1 < INFINITY
    requires RoundedSum(NearestEven, x, w) <= top && 2 * Value(delta) + Gap(top) < 2 * Value(w)
    ensures Value(x) + Value(delta) < Value(RoundedSum(NearestEven, x, w))
  {
    NearestEvenError(Value(x) + Value(w));
    GapGrows(RoundedSum(NearestEven, x, w), top);
  }

  /** Delta is a power of two, and no distance reaches 2^54 deltas. */
  ghost predicate PowerWithin(delta: nat, top: nat) {
    IsPowerOfTwo(delta) && top < INFINITY && delta < INFINITY && Value(top) < 2 * WHOLE_LIMIT * Value(delta)
  }

  /** No distance reaches 2^53 deltas, and the weight has a margin over delta. */
  ghost predicate MarginWithin(delta: nat, top: nat, w: nat) {
    top < INFINITY && delta < INFINITY && Value(top) < WHOLE_LIMIT * Value(delta) && Margin(delta, top, w)
  }

  /** The step of one sum, in numbers: by a power of two, ... */
  lemma PowerStep(x: nat, w: nat, delta: nat, top: nat)
    requires x < INFINITY && 0 < delta < w && top + 1 < INFINITY
    requires RoundedSum(NearestEven, x, w) <= top && PowerWithin(delta, top)
    requires BucketIndex(x, delta, ONE).Some? && BucketIndex(RoundedSum(NearestEven, x, w), delta, ONE).Some?
    ensures BucketIndex(x, delta, ONE).value < BucketIndex(RoundedSum(NearestEven, x, w), delta, ONE).value
  {
    BitOrderIsNumericOrder(RoundedSum(NearestEven, x, w), top);
    var d := delta / HIDDEN_BIT;
    assert delta == d * HIDDEN_BIT;
    PowerOfTwoStep(x, w, d, ONE);
  }

  /** ... or by a margin. */
  lemma MarginStep(x: nat, w: nat, delta: nat, top: nat)
    requires x < INFINITY && 0 < delta < w && top + 1 < INFINITY
    requires RoundedSum(NearestEven, x, w) <= top && MarginWithin(delta, top, w)
    requires BucketIndex(x, delta, ONE).Some? && BucketIndex(RoundedSum(NearestEven, x, w), delta, ONE).Some?
    ensures BucketIndex(x, delta, ONE).value < BucketIndex(RoundedSum(NearestEven, x, w), delta, ONE).value
  {
    BitOrderIsNumericOrder(RoundedSum(NearestEven, x, w), top);
    MarginSurvives(x, w, delta, top);
    WideStep(x, RoundedSum(NearestEven, x, w), delta, ONE);
  }

  /** The weights for which one step is known to advance. */
  ghost function Safe(delta: nat, top: nat): nat -> bool {
    (w: nat) => PowerWithin(delta, top) || MarginWithin(delta, top, w)
  }

  lemma BinarySteps(delta: nat, top: nat)
    requires 0 < delta < INFINITY && top + 1 < INFINITY
    ensures StepsAdvance(Binary(delta), top, Safe(delta, top))
  {
    forall x: nat, w: nat | delta < w && (PowerWithin(delta, top) || MarginWithin(delta, top, w))
        && RoundedSum(NearestEven, x, w) <= top
        && BucketIndex(x, delta, ONE).Some? && BucketIndex(RoundedSum(NearestEven, x, w), delta, ONE).Some?
      ensures BucketIndex(x, delta, ONE).value < BucketIndex(RoundedSum(NearestEven, x, w), delta, ONE).value
    {
      if PowerWithin(delta, top) {
        PowerStep(x, w, delta, top);
      } else {
        MarginStep(x, w, delta, top);
      }
    }
  }

  /**
    What a caller can check before the search: no arc is heavy; or, with top for one addition of the heaviest
    weight per node beyond the second, delta is a power of two and top stays below 2^54 deltas, or top stays below
    2^53 deltas and every heavy weight has a margin over delta.
   */
  ghost predicate Checked(net: Network, heaviest: nat)
    requires 0 < net.arithmetic.delta < INFINITY
  {
    var delta := net.arithmetic.delta;
    var top := Repeated(net.arithmetic, heaviest, Longest(net));
    && AtMost(net, heaviest)
    && (|| heaviest <= delta
        || (&& top + 1 < INFINITY
            && (PowerWithin(delta, top) || forall a :: Heavy(net, a) ==> MarginWithin(delta, top, net.Weight(a)))))
  }

  lemma NoHeavyArcs(net: Network, o: nat, heaviest: nat)
    requires AtMost(net, heaviest) && heaviest <= net.arithmetic.delta
    ensures net.HeavyArcsAdvance(o)
  {
  }

  /** The check is enough: heavy arcs advance, on every network that passes it, cycles and all. */
  lemma CheckedDeltaAdvances(net: Network, o: nat, heaviest: nat)
    requires net.WellFormed() && o < net.nodeCount
    requires net.arithmetic == Binary(net.arithmetic.delta) && 0 < net.arithmetic.delta < INFINITY
    requires Checked(net, heaviest)
    ensures net.HeavyArcsAdvance(o)
  {
    var delta := net.arithmetic.delta;
    if heaviest <= delta {
      NoHeavyArcs(net, o, heaviest);
    } else {
      var top := Repeated(net.arithmetic, heaviest, Longest(net));
      BinaryGrows(delta);
      BinarySteps(delta, top);
      StepsAreEnough(net, o, heaviest, Safe(delta, top));
    }
  }

  /** Delta-stepping in the kernels' arithmetic is exact on every network that passes the check. */
  lemma CheckedDeltaIsExact(net: Network, o: nat, heaviest: nat, states: seq<DeltaState>)
    requires net.WellFormed() && o < net.nodeCount
    requires net.arithmetic == Binary(net.arithmetic.delta) && 0 < net.arithmetic.delta < INFINITY
    requires Checked(net, heaviest)
    requires DeltaRun(net, o, states) && states[|states| - 1].stage == Settled
    ensures net.Exact(o, states[|states| - 1].memory.distance)
  {
    BinaryIsLawful(net.arithmetic.delta);
    CheckedDeltaAdvances(net, o, heaviest);
    SettledIsExact(net, o, states);
  }

  /** Three nodes on a cycle of arcs of weight one. */
  ghost function Cycle(delta: nat): Network {
    var one := PowerWord(149);
    Network(3, {Arc(0, 1, 0, one), Arc(1, 2, 0, one), Arc(2, 0, 0, one)}, [1], [one], Binary(delta))
  }

  lemma UnitWeight(shift: nat)
    requires shift == PRODUCT_SHIFT
    ensures FiniteNonNegative(PowerWord(149)) && RoundedProduct(PowerWord(149), PowerWord(149), shift) == ONE
  {
    PowerWordValue(149);
    PowerProduct(149, 149, shift, 1023);
  }

  lemma HalfIsHalf(delta: nat, one: nat)
    requires delta == 1022 * HIDDEN_BIT && one == 1023 * HIDDEN_BIT
    ensures Value(one) == 2 * Value(delta) && Value(delta) > 0 && one + 1 < INFINITY && IsPowerOfTwo(delta)
  {
    PowerValue(1022);
    PowerValue(1023);
    PatternParts(1022, 0);
  }

  lemma CycleArc(delta: nat, a: Arc)
    requires a in Cycle(delta).arcs
    ensures a.source < 3 && a.destination < 3 && a.relation == 0 && FiniteNonNegative(a.base)
    ensures Cycle(delta).Weight(a) == ONE
  {
    UnitWeight(PRODUCT_SHIFT);
  }

  lemma CycleIsWellFormed(delta: nat)
    requires 0 < delta < INFINITY
    ensures Cycle(delta).WellFormed() && AtMost(Cycle(delta), ONE)
  {
    UnitWeight(PRODUCT_SHIFT);
    BinaryIsLawful(delta);
    forall a | a in Cycle(delta).arcs
      ensures a.source < 3 && a.destination < 3 && a.relation == 0 && FiniteNonNegative(a.base)
      ensures Cycle(delta).Weight(a) == ONE
    {
      CycleArc(delta, a);
    }
  }

  lemma OneAddition(delta: nat)
    ensures Repeated(Binary(delta), ONE, 1) == ONE
  {
    AddingToZero(ONE);
    assert Repeated(Binary(delta), ONE, 1) == Binary(delta).add(Repeated(Binary(delta), ONE, 0), ONE);
  }

  lemma HalfIsWithin(delta: nat, one: nat)
    requires delta == 1022 * HIDDEN_BIT && one == 1023 * HIDDEN_BIT
    ensures 0 < delta < INFINITY && one + 1 < INFINITY && PowerWithin(delta, one)
  {
    HalfIsHalf(delta, one);
    Less(2, 2 * WHOLE_LIMIT, Value(delta));
  }

  /** A cycle with delta one half passes the check, although its walks go round for ever. */
  lemma CycleIsChecked(delta: nat)
    requires delta == 1022 * HIDDEN_BIT
    ensures Cycle(delta).WellFormed() && Checked(Cycle(delta), ONE) && Cycle(delta).HeavyArcsAdvance(0)
  {
    HalfIsWithin(delta, ONE);
    CycleIsWellFormed(delta);
    OneAddition(delta);
    assert Longest(Cycle(delta)) == 1;
    CheckedDeltaAdvances(Cycle(delta), 0, ONE);
  }
}
