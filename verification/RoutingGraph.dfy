/**
  The routed graph as the kernels see it, enabled walks and their costs, and the
  meaning of an exact distance array. Costs are left folds of an abstract addition
  that only has to be monotone and inflationary, so everything here also holds of
  rounded sums.
 */
module RoutingGraph {
  import opened Basics
  import opened Binary64

  /**
    The arithmetic of one search: the distance addition, the product of a base weight
    and a multiplier, the delta of delta-stepping and its bucket index (None when the
    quotient is not representable).
   */
  datatype Arithmetic = Arithmetic(
    add: (nat, nat) -> nat,
    weigh: (nat, nat) -> nat,
    delta: nat,
    bucket: nat -> Option<nat>)
  {
    /** What every search needs of the addition. */
    ghost predicate Lawful() {
      && (forall x: nat, y: nat, w: nat {:trigger add(x, w), add(y, w)} :: x <= y ==> add(x, w) <= add(y, w))
      && (forall x: nat, w: nat {:trigger add(x, w)} :: x <= INFINITY ==> x <= add(x, w) <= INFINITY)
    }

    /** What delta-stepping needs of the bucket index: distance / delta, truncated. */
    ghost predicate Bucketed() {
      && bucket(0) == Some(0)
      && bucket(INFINITY) == None
      && (forall x: nat, y: nat {:trigger bucket(x), bucket(y)} ::
            x <= y && bucket(y).Some? ==> bucket(x).Some? && bucket(x).value <= bucket(y).value)
    }

    predicate Light(w: nat) {
      w <= delta
    }

    /** Whether x lies in bucket b. */
    predicate InBucket(x: nat, b: nat) {
      bucket(x) == Some(b)
    }
  }

  /** One stored adjacency together with its source. */
  datatype Arc = Arc(source: nat, destination: nat, relation: nat, base: nat)

  /** A routing image under a packed relation profile. */
  datatype Network = Network(
    nodeCount: nat,
    arcs: set<Arc>,
    enabled: seq<nat>,
    multipliers: seq<nat>,
    arithmetic: Arithmetic)
  {
    /** What the image compiler, the topology validation and the profile packing guarantee. */
    ghost predicate WellFormed() {
      && |enabled| == |multipliers|
      && (forall r :: 0 <= r < |enabled| ==> enabled[r] <= 1 && FiniteNonNegative(multipliers[r]))
      && (forall a :: a in arcs ==>
            a.source < nodeCount && a.destination < nodeCount && a.relation < |enabled|
            && FiniteNonNegative(a.base))
      && arithmetic.Lawful()
    }

    predicate Enabled(a: Arc) {
      a.relation < |enabled| && enabled[a.relation] == 1
    }

    function Weight(a: Arc): nat {
      if a.relation < |multipliers| then arithmetic.weigh(a.base, multipliers[a.relation]) else INFINITY
    }

    function Extend(x: nat, a: Arc): nat {
      arithmetic.add(x, Weight(a))
    }

    /** p is a walk over enabled arcs from o to v. */
    ghost predicate Walk(o: nat, p: seq<Arc>, v: nat) {
      if p == [] then
        v == o
      else
        var a := p[|p| - 1];
        a in arcs && Enabled(a) && a.destination == v && Walk(o, p[..|p| - 1], a.source)
    }

    /** The cost of a walk, accumulated from its start. */
    ghost function Cost(p: seq<Arc>): nat {
      if p == [] then 0 else Extend(Cost(p[..|p| - 1]), p[|p| - 1])
    }

    /** x is the cost of some walk to v, or infinity. */
    ghost predicate Attained(o: nat, v: nat, x: nat) {
      x == INFINITY || exists p :: Walk(o, p, v) && Cost(p) == x
    }

    ghost predicate Sound(o: nat, distance: seq<nat>) {
      && |distance| == nodeCount
      && (forall v :: 0 <= v < nodeCount ==> Attained(o, v, distance[v]))
    }

    ghost predicate BelowWalksOfLength(o: nat, distance: seq<nat>, k: nat)
      requires |distance| == nodeCount
    {
      forall p, v: nat :: Walk(o, p, v) && |p| <= k && v < nodeCount ==> distance[v] <= Cost(p)
    }

    ghost predicate BelowAllWalks(o: nat, distance: seq<nat>)
      requires |distance| == nodeCount
    {
      forall p, v: nat :: Walk(o, p, v) && v < nodeCount ==> distance[v] <= Cost(p)
    }

    /** Every entry is the least cost of a walk from o, or infinity when there is none. */
    ghost predicate Exact(o: nat, distance: seq<nat>) {
      Sound(o, distance) && BelowAllWalks(o, distance)
    }

    /** No node occurs twice on the walk. */
    ghost predicate Simple(o: nat, p: seq<Arc>) {
      forall i, j :: 0 <= i < j <= |p| ==> NodeAt(o, p, i) != NodeAt(o, p, j)
    }

    ghost predicate Visits(o: nat, p: seq<Arc>, v: nat) {
      exists i :: 0 <= i <= |p| && NodeAt(o, p, i) == v
    }

    /** p is a simple walk to v, and no label on it exceeds the cost up to that node. */
    ghost predicate Traced(o: nat, distance: seq<nat>, p: seq<Arc>, v: nat) {
      && Walk(o, p, v) && Simple(o, p)
      && (forall i :: 0 <= i <= |p| ==>
            NodeAt(o, p, i) < |distance| && distance[NodeAt(o, p, i)] <= Cost(p[..i]))
    }

    /** x is infinity or the cost of a walk traced to v. */
    ghost predicate Labelled(o: nat, distance: seq<nat>, v: nat, x: nat) {
      x == INFINITY || exists p :: Traced(o, distance, p, v) && Cost(p) == x
    }

    /** Every label is infinity or the cost of a walk traced to its node. */
    ghost predicate Supported(o: nat, distance: seq<nat>) {
      && |distance| == nodeCount
      && (forall v :: 0 <= v < nodeCount ==> Labelled(o, distance, v, distance[v]))
    }

    /** No label exceeds x. */
    predicate Topmost(distance: seq<nat>, x: nat) {
      forall u :: 0 <= u < |distance| ==> distance[u] <= x
    }

    /**
      Extending by a a simple walk that does not meet the head of a leaves the bucket of the walk's cost, unless
      the extended walk meets every node: then nothing is left to be reached through the head.
     */
    ghost predicate Advances(o: nat, a: Arc) {
      forall p :: (Walk(o, p, a.source) && Simple(o, p) && !Visits(o, p, a.destination) && |p| + 2 < nodeCount
                   && arithmetic.bucket(Cost(p)).Some? && arithmetic.bucket(Extend(Cost(p), a)).Some?)
        ==> arithmetic.bucket(Cost(p)).value < arithmetic.bucket(Extend(Cost(p), a)).value
    }

    /** Every enabled arc heavier than delta leaves the bucket it starts in. */
    ghost predicate HeavyArcsAdvance(o: nat) {
      forall a :: a in arcs && Enabled(a) && !arithmetic.Light(Weight(a)) ==> Advances(o, a)
    }

    /** Some walk with no more arcs than there are nodes costs infinity. */
    ghost predicate Overflows(o: nat) {
      exists p, v :: Walk(o, p, v) && |p| <= nodeCount && Cost(p) == INFINITY
    }

    /** Some such walk has a finite cost without a bucket. */
    ghost predicate Outgrows(o: nat) {
      exists p, v :: Walk(o, p, v) && |p| <= nodeCount && Cost(p) < INFINITY && arithmetic.bucket(Cost(p)).None?
    }

    predicate Relaxed(distance: seq<nat>, a: Arc)
      requires a.source < |distance| && a.destination < |distance|
    {
      distance[a.destination] <= Extend(distance[a.source], a)
    }
  }

  /** is_finite and not below zero, on binary32 patterns; negative zero passes. */
  predicate FiniteNonNegative(bits: nat) {
    bits < 0x7F80_0000 || bits == 0x8000_0000
  }

  lemma ExtendIsMonotone(net: Network, x: nat, y: nat, a: Arc)
    requires net.WellFormed() && x <= y
    ensures net.Extend(x, a) <= net.Extend(y, a)
  {
  }

  lemma {:induction false} CostIsBounded(net: Network, p: seq<Arc>)
    requires net.WellFormed()
    ensures net.Cost(p) <= INFINITY
  {
    if p != [] {
      CostIsBounded(net, p[..|p| - 1]);
    }
  }

  lemma AttainedIsBounded(net: Network, o: nat, v: nat, x: nat)
    requires net.WellFormed() && net.Attained(o, v, x)
    ensures x <= INFINITY
  {
    if x != INFINITY {
      var p :| net.Walk(o, p, v) && net.Cost(p) == x;
      CostIsBounded(net, p);
    }
  }

  lemma AppendArc(net: Network, o: nat, p: seq<Arc>, a: Arc)
    requires net.Walk(o, p, a.source) && a in net.arcs && net.Enabled(a)
    ensures net.Walk(o, p + [a], a.destination)
    ensures net.Cost(p + [a]) == net.Extend(net.Cost(p), a)
  {
    assert (p + [a])[..|p|] == p;
  }

  /** Labels that are traced are costs of walks. */
  lemma SupportedIsSound(net: Network, o: nat, distance: seq<nat>)
    requires net.Supported(o, distance)
    ensures net.Sound(o, distance)
  {
    forall v | 0 <= v < net.nodeCount
      ensures net.Attained(o, v, distance[v])
    {
      assert net.Labelled(o, distance, v, distance[v]);
    }
  }

  /** A walk stays traced while labels fall. */
  lemma TracedStays(net: Network, o: nat, d: seq<nat>, e: seq<nat>, p: seq<Arc>, v: nat)
    requires net.Traced(o, d, p, v) && |e| == |d| && forall u :: 0 <= u < |d| ==> e[u] <= d[u]
    ensures net.Traced(o, e, p, v)
  {
  }

  lemma LabelledStays(net: Network, o: nat, d: seq<nat>, e: seq<nat>, v: nat, x: nat)
    requires net.Labelled(o, d, v, x) && |e| == |d| && forall u :: 0 <= u < |d| ==> e[u] <= d[u]
    ensures net.Labelled(o, e, v, x)
  {
    if x != INFINITY {
      var p :| net.Traced(o, d, p, v) && net.Cost(p) == x;
      TracedStays(net, o, d, e, p, v);
    }
  }

  /** A candidate that improves the head of its arc comes from a walk that has not been there. */
  lemma ImprovedIsNew(net: Network, o: nat, distance: seq<nat>, p: seq<Arc>, a: Arc)
    requires net.WellFormed() && net.Traced(o, distance, p, a.source) && a.destination < |distance|
    requires net.Extend(net.Cost(p), a) < distance[a.destination]
    ensures !net.Visits(o, p, a.destination)
  {
    CostIsBounded(net, p);
    forall i | 0 <= i <= |p|
      ensures NodeAt(o, p, i) != a.destination
    {
      CostGrows(net, p, i, |p|);
      assert p[..|p|] == p;
    }
  }

  lemma NodesOfExtension(o: nat, p: seq<Arc>, a: Arc, i: nat)
    requires i <= |p| + 1
    ensures NodeAt(o, p + [a], i) == if i <= |p| then NodeAt(o, p, i) else a.destination
  {
  }

  lemma SimpleExtension(net: Network, o: nat, p: seq<Arc>, a: Arc)
    requires net.Simple(o, p) && !net.Visits(o, p, a.destination)
    ensures net.Simple(o, p + [a])
  {
    forall i, j | 0 <= i < j <= |p| + 1
      ensures NodeAt(o, p + [a], i) != NodeAt(o, p + [a], j)
    {
      NodesOfExtension(o, p, a, i);
      NodesOfExtension(o, p, a, j);
    }
  }

  /** Writing an improving candidate leaves it traced through its own arc. */
  lemma CandidateIsTraced(net: Network, o: nat, distance: seq<nat>, p: seq<Arc>, a: Arc)
    requires net.WellFormed() && net.Traced(o, distance, p, a.source) && a in net.arcs && net.Enabled(a)
    requires a.destination < |distance| && net.Extend(net.Cost(p), a) < distance[a.destination]
    ensures net.Traced(o, distance[a.destination := net.Extend(net.Cost(p), a)], p + [a], a.destination)
    ensures net.Cost(p + [a]) == net.Extend(net.Cost(p), a)
  {
    var x := net.Extend(net.Cost(p), a);
    var e := distance[a.destination := x];
    ImprovedIsNew(net, o, distance, p, a);
    AppendArc(net, o, p, a);
    SimpleExtension(net, o, p, a);
    forall i | 0 <= i <= |p| + 1
      ensures NodeAt(o, p + [a], i) < |e| && e[NodeAt(o, p + [a], i)] <= net.Cost((p + [a])[..i])
    {
      NodesOfExtension(o, p, a, i);
      if i <= |p| {
        assert (p + [a])[..i] == p[..i];
      } else {
        assert (p + [a])[..i] == p + [a];
      }
    }
  }

  /** A distance array that no enabled arc can improve lies below every walk. */
  lemma {:induction false} FixpointIsBelow(net: Network, o: nat, distance: seq<nat>, p: seq<Arc>, v: nat)
    requires net.WellFormed() && |distance| == net.nodeCount && o < net.nodeCount && distance[o] == 0
    requires forall a :: a in net.arcs && net.Enabled(a) ==> net.Relaxed(distance, a)
    requires net.Walk(o, p, v)
    ensures v < net.nodeCount && distance[v] <= net.Cost(p)
  {
    if p != [] {
      var a := p[|p| - 1];
      FixpointIsBelow(net, o, distance, p[..|p| - 1], a.source);
      assert net.Relaxed(distance, a);
      ExtendIsMonotone(net, distance[a.source], net.Cost(p[..|p| - 1]), a);
    }
  }

  lemma FixpointIsExact(net: Network, o: nat, distance: seq<nat>)
    requires net.WellFormed() && net.Sound(o, distance) && o < net.nodeCount && distance[o] == 0
    requires forall a :: a in net.arcs && net.Enabled(a) ==> net.Relaxed(distance, a)
    ensures net.Exact(o, distance)
  {
    forall p, v: nat | net.Walk(o, p, v) && v < net.nodeCount
      ensures distance[v] <= net.Cost(p)
    {
      FixpointIsBelow(net, o, distance, p, v);
    }
  }

  /** Exact distances are unique. */
  lemma ExactIsUnique(net: Network, o: nat, d: seq<nat>, e: seq<nat>)
    requires net.WellFormed() && net.Exact(o, d) && net.Exact(o, e)
    ensures d == e
  {
    forall v | 0 <= v < net.nodeCount
      ensures d[v] == e[v]
    {
      ExactIsBelow(net, o, d, e, v);
      ExactIsBelow(net, o, e, d, v);
    }
  }

  lemma ExactIsBelow(net: Network, o: nat, d: seq<nat>, e: seq<nat>, v: nat)
    requires net.WellFormed() && net.Exact(o, d) && net.Sound(o, e) && v < net.nodeCount
    ensures d[v] <= e[v]
  {
    assert net.Attained(o, v, e[v]);
    if e[v] == INFINITY {
      assert net.Attained(o, v, d[v]);
      AttainedIsBounded(net, o, v, d[v]);
    }
  }

  /** Some attained cost, or infinity, is below every walk to v that starts from a bound. */
  lemma {:induction false} LeastCost(net: Network, o: nat, v: nat, bound: nat) returns (x: nat)
    requires net.WellFormed() && net.Attained(o, v, bound)
    ensures net.Attained(o, v, x) && forall p :: net.Walk(o, p, v) ==> x <= net.Cost(p)
    decreases bound
  {
    if p :| net.Walk(o, p, v) && net.Cost(p) < bound {
      CostIsBounded(net, p);
      x := LeastCost(net, o, v, net.Cost(p));
    } else {
      x := bound;
    }
  }

  lemma {:induction false} LeastCosts(net: Network, o: nat, n: nat) returns (d: seq<nat>)
    requires net.WellFormed()
    ensures |d| == n
    ensures forall v: nat :: v < n ==> net.Attained(o, v, d[v])
    ensures forall p, v: nat :: v < n && net.Walk(o, p, v) ==> d[v] <= net.Cost(p)
  {
    d := [];
    if n > 0 {
      d := LeastCosts(net, o, n - 1);
      var x := LeastCost(net, o, n - 1, INFINITY);
      d := d + [x];
    }
  }

  /** Every network has an exact distance array. */
  lemma ExactExists(net: Network, o: nat) returns (d: seq<nat>)
    requires net.WellFormed()
    ensures net.Exact(o, d)
  {
    d := LeastCosts(net, o, net.nodeCount);
  }

  /** The node a walk from o stands on after i arcs. */
  ghost function NodeAt(o: nat, p: seq<Arc>, i: nat): nat
    requires i <= |p|
  {
    if i == 0 then o else p[i - 1].destination
  }

  lemma {:induction false} PrefixIsWalk(net: Network, o: nat, p: seq<Arc>, v: nat, i: nat)
    requires net.Walk(o, p, v) && i <= |p|
    ensures net.Walk(o, p[..i], NodeAt(o, p, i))
    ensures i < |p| ==> p[i] in net.arcs && net.Enabled(p[i]) && p[i].source == NodeAt(o, p, i)
    decreases |p|
  {
    if i < |p| {
      var a := p[|p| - 1];
      assert p[..|p| - 1][..i] == p[..i];
      PrefixIsWalk(net, o, p[..|p| - 1], a.source, i);
      if i == |p| - 1 {
        assert NodeAt(o, p, i) == a.source;
      }
    } else {
      assert p[..i] == p;
    }
  }

  lemma AppendToCheaper(net: Network, o: nat, q: seq<Arc>, p: seq<Arc>, a: Arc)
    requires net.WellFormed() && net.Walk(o, q, a.source) && net.Cost(q) <= net.Cost(p)
    requires net.Walk(o, p + [a], a.destination)
    ensures net.Walk(o, q + [a], a.destination) && net.Cost(q + [a]) <= net.Cost(p + [a])
  {
    assert (p + [a])[..|p|] == p;
    AppendArc(net, o, q, a);
    ExtendIsMonotone(net, net.Cost(q), net.Cost(p), a);
  }

  /** Replacing the start of a walk by a walk to the same node that costs no more does not raise the cost. */
  lemma {:induction false} ReplaceStart(net: Network, o: nat, q: seq<Arc>, p: seq<Arc>, tail: seq<Arc>, x: nat, v: nat)
    requires net.WellFormed() && net.Walk(o, q, x) && net.Walk(o, p, x) && net.Cost(q) <= net.Cost(p)
    requires net.Walk(o, p + tail, v)
    ensures net.Walk(o, q + tail, v) && net.Cost(q + tail) <= net.Cost(p + tail)
    decreases |tail|
  {
    if tail == [] {
      assert p + tail == p && q + tail == q;
      WalkEndsOnce(net, o, p, x, v);
    } else {
      var a := tail[|tail| - 1];
      var rest := tail[..|tail| - 1];
      assert p + tail == (p + rest) + [a] && q + tail == (q + rest) + [a];
      assert (p + tail)[..|p + tail| - 1] == p + rest;
      ReplaceStart(net, o, q, p, rest, x, a.source);
      AppendToCheaper(net, o, q + rest, p + rest, a);
    }
  }

  lemma WalkEndsOnce(net: Network, o: nat, p: seq<Arc>, v: nat, w: nat)
    requires net.Walk(o, p, v) && net.Walk(o, p, w)
    ensures v == w
  {
  }

  /** Cutting the closed stretch between positions i and j keeps the walk and does not raise its cost. */
  lemma CutCycle(net: Network, o: nat, p: seq<Arc>, v: nat, i: nat, j: nat)
    requires net.WellFormed() && net.Walk(o, p, v) && i < j <= |p|
    requires NodeAt(o, p, i) == NodeAt(o, p, j)
    ensures net.Walk(o, p[..i] + p[j..], v) && net.Cost(p[..i] + p[j..]) <= net.Cost(p)
  {
    PrefixIsWalk(net, o, p, v, i);
    PrefixIsWalk(net, o, p, v, j);
    CostGrows(net, p, i, j);
    assert p[..j] + p[j..] == p;
    ReplaceStart(net, o, p[..i], p[..j], p[j..], NodeAt(o, p, i), v);
  }

  lemma {:induction false} CostGrows(net: Network, p: seq<Arc>, i: nat, j: nat)
    requires net.WellFormed() && i <= j <= |p|
    ensures net.Cost(p[..i]) <= net.Cost(p[..j])
    decreases j - i
  {
    if i < j {
      CostGrows(net, p, i, j - 1);
      assert p[..j][..j - 1] == p[..j - 1];
      CostIsBounded(net, p[..j - 1]);
    }
  }

  lemma {:induction false} DistinctCount(s: seq<nat>, n: nat)
    requires forall i, j :: 0 <= i < j < |s| ==> s[i] != s[j]
    requires forall i :: 0 <= i < |s| ==> s[i] < n
    ensures |s| <= n
  {
    var image := set i | 0 <= i < |s| :: s[i];
    ImageCount(s);
    var below := NumbersBelow(n);
    BelowCount(n);
    assert image <= below;
    SubsetCount(image, below);
  }

  lemma {:induction false} ImageCount(s: seq<nat>)
    requires forall i, j :: 0 <= i < j < |s| ==> s[i] != s[j]
    ensures |set i | 0 <= i < |s| :: s[i]| == |s|
  {
    if s != [] {
      var t := s[..|s| - 1];
      ImageCount(t);
      assert (set i | 0 <= i < |s| :: s[i]) == (set i | 0 <= i < |t| :: t[i]) + {s[|s| - 1]};
    }
  }

  ghost function NumbersBelow(n: nat): (s: set<nat>)
    ensures forall x: nat :: x in s <==> x < n
  {
    if n == 0 then {} else NumbersBelow(n - 1) + {n - 1}
  }

  lemma {:induction false} BelowCount(n: nat)
    ensures |NumbersBelow(n)| == n
  {
    if n > 0 {
      BelowCount(n - 1);
    }
  }

  lemma {:induction false} NodesOfWalk(net: Network, o: nat, p: seq<Arc>, v: nat, i: nat)
    requires net.WellFormed() && o < net.nodeCount && net.Walk(o, p, v) && i <= |p|
    ensures NodeAt(o, p, i) < net.nodeCount
  {
    if i > 0 {
      PrefixIsWalk(net, o, p, v, i - 1);
    }
  }

  /** A simple walk has fewer arcs than there are nodes. */
  lemma SimpleIsShort(net: Network, o: nat, p: seq<Arc>, v: nat)
    requires net.WellFormed() && o < net.nodeCount && net.Walk(o, p, v) && net.Simple(o, p)
    ensures |p| < net.nodeCount
  {
    var nodes := seq(|p| + 1, i requires 0 <= i <= |p| => NodeAt(o, p, i));
    forall i | 0 <= i < |nodes|
      ensures nodes[i] < net.nodeCount
    {
      NodesOfWalk(net, o, p, v, i);
    }
    DistinctCount(nodes, net.nodeCount);
  }

  /** A simple walk with one arc less than there are nodes meets every node. */
  lemma SpanningVisits(net: Network, o: nat, p: seq<Arc>, v: nat, u: nat)
    requires net.WellFormed() && o < net.nodeCount && net.Walk(o, p, v) && net.Simple(o, p)
    requires |p| + 1 == net.nodeCount && u < net.nodeCount
    ensures net.Visits(o, p, u)
  {
    if !net.Visits(o, p, u) {
      var nodes := seq(|p| + 1, i requires 0 <= i <= |p| => NodeAt(o, p, i));
      forall i | 0 <= i < |nodes|
        ensures nodes[i] < net.nodeCount && nodes[i] != u
      {
        NodesOfWalk(net, o, p, v, i);
      }
      DistinctCount(nodes + [u], net.nodeCount);
      assert false;
    }
  }

  /** A label traced along a walk that meets every node is topmost. */
  lemma SpanningIsTopmost(net: Network, o: nat, distance: seq<nat>, p: seq<Arc>, v: nat)
    requires net.WellFormed() && |distance| == net.nodeCount && net.Traced(o, distance, p, v)
    requires |p| + 1 == net.nodeCount
    ensures net.Topmost(distance, net.Cost(p))
  {
    assert NodeAt(o, p, 0) == o;
    forall u | 0 <= u < net.nodeCount
      ensures distance[u] <= net.Cost(p)
    {
      SpanningVisits(net, o, p, v, u);
      var i :| 0 <= i <= |p| && NodeAt(o, p, i) == u;
      CostGrows(net, p, i, |p|);
      assert p[..|p|] == p;
    }
  }

  /** Every arc out of a node with the topmost label is relaxed. */
  lemma TopmostIsRelaxed(net: Network, distance: seq<nat>, a: Arc)
    requires net.WellFormed() && a.source < |distance| && a.destination < |distance|
    requires distance[a.source] <= INFINITY && net.Topmost(distance, distance[a.source])
    ensures net.Relaxed(distance, a)
  {
  }

  /** Some walk with fewer arcs than nodes costs no more than a given walk. */
  lemma {:induction false} ShortWalk(net: Network, o: nat, p: seq<Arc>, v: nat) returns (q: seq<Arc>)
    requires net.WellFormed() && o < net.nodeCount && net.Walk(o, p, v)
    ensures net.Walk(o, q, v) && net.Cost(q) <= net.Cost(p) && |q| < net.nodeCount
    decreases |p|
  {
    q := p;
    if !net.Simple(o, p) {
      var i, j :| 0 <= i < j <= |p| && NodeAt(o, p, i) == NodeAt(o, p, j);
      CutCycle(net, o, p, v, i, j);
      q := ShortWalk(net, o, p[..i] + p[j..], v);
    } else {
      SimpleIsShort(net, o, p, v);
    }
  }

  /** An array below every walk of fewer arcs than nodes is below every walk. */
  lemma ShortWalksSuffice(net: Network, o: nat, distance: seq<nat>, k: nat)
    requires net.WellFormed() && o < net.nodeCount && |distance| == net.nodeCount
    requires net.nodeCount <= k + 1 && net.BelowWalksOfLength(o, distance, k)
    ensures net.BelowAllWalks(o, distance)
  {
    forall p, v: nat | net.Walk(o, p, v) && v < net.nodeCount
      ensures distance[v] <= net.Cost(p)
    {
      var q := ShortWalk(net, o, p, v);
    }
  }
}
