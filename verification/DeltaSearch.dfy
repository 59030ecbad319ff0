/**
  Delta-stepping: for each bucket, light passes until none of them lands in the bucket
  again, one heavy pass over the removed sources, then the next non-empty bucket.
 */
module DeltaSearch {
  import opened Basics
  import opened Binary64
  import opened RoutingGraph
  import opened Kernels
  import opened Passes
  import opened FrontierSearch

  datatype Stage = LightStage | HeavyStage | Settled | Faulted | Stopped

  datatype DeltaState = DeltaState(memory: Memory, bucket: nat, phases: nat, stage: Stage)

  function InitialState(net: Network, o: nat): DeltaState {
    DeltaState(InitialMemory(net, o), 0, 0, LightStage)
  }

  /** The sources a light pass selects. */
  function BucketMembers(net: Network, distance: seq<nat>, b: nat): (r: seq<bool>)
    ensures |r| == |distance|
    ensures forall v :: 0 <= v < |r| ==> r[v] == net.arithmetic.InBucket(distance[v], b)
  {
    seq(|distance|, v requires 0 <= v < |distance| => net.arithmetic.InBucket(distance[v], b))
  }

  datatype Next = Overflow | Exhausted | Bucket(index: nat)

  /** next_bucket: the least bucket above the current one, or an overflow. */
  function NextBucket(arithmetic: Arithmetic, distance: seq<nat>, current: nat): Next {
    if distance == [] then
      Exhausted
    else
      var earlier := NextBucket(arithmetic, distance[..|distance| - 1], current);
      var d := distance[|distance| - 1];
      if earlier == Overflow || d >= INFINITY then
        earlier
      else
        match arithmetic.bucket(d)
        case None => Overflow
        case Some(b) =>
          if b <= current || (earlier.Bucket? && earlier.index <= b) then earlier else Bucket(b)
  }

  predicate NotSkipped(next: Next, current: nat, b: nat) {
    b <= current || (next.Bucket? && next.index <= b)
  }

  /** v is a finite distance with no representable bucket. */
  ghost predicate Unrepresentable(arithmetic: Arithmetic, distance: seq<nat>, v: nat) {
    v < |distance| && distance[v] < INFINITY && arithmetic.bucket(distance[v]).None?
  }

  /** NextBucket reports exactly the overflow, and otherwise the least occupied bucket above the current one. */
  lemma {:induction false} NextBucketIsLeast(arithmetic: Arithmetic, distance: seq<nat>, current: nat)
    ensures NextBucket(arithmetic, distance, current) == Overflow <==>
              exists v :: Unrepresentable(arithmetic, distance, v)
    ensures var next := NextBucket(arithmetic, distance, current);
            next != Overflow ==> forall v :: 0 <= v < |distance| && distance[v] < INFINITY ==>
              arithmetic.bucket(distance[v]).Some? && NotSkipped(next, current, arithmetic.bucket(distance[v]).value)
    ensures var next := NextBucket(arithmetic, distance, current);
            next.Bucket? ==> next.index > current && Holds(arithmetic, distance, next.index)
  {
    if distance != [] {
      var earlier := distance[..|distance| - 1];
      NextBucketIsLeast(arithmetic, earlier, current);
      var last := |distance| - 1;
      forall v: nat | v < |distance|
        ensures v < last ==> (Unrepresentable(arithmetic, distance, v) <==> Unrepresentable(arithmetic, earlier, v))
      {
      }
      assert Unrepresentable(arithmetic, distance, last) <==>
               distance[last] < INFINITY && arithmetic.bucket(distance[last]).None?;
      var was := NextBucket(arithmetic, earlier, current);
      if was.Bucket? {
        var v :| 0 <= v < |earlier| && arithmetic.InBucket(earlier[v], was.index);
        assert arithmetic.InBucket(distance[v], was.index);
      }
      forall v | 0 <= v < last
        ensures distance[v] == earlier[v]
      {
      }
    }
  }

  /** Some node lies in bucket b. */
  ghost predicate Holds(arithmetic: Arithmetic, distance: seq<nat>, b: nat) {
    exists v :: 0 <= v < |distance| && arithmetic.InBucket(distance[v], b)
  }

  ghost predicate LightPass(net: Network, s: DeltaState, launches: seq<seq<Arc>>, r: Memory, s': DeltaState)
    requires Shaped(net, s.memory)
  {
    && Covers(net, launches, BucketMembers(net, s.memory.distance, s.bucket))
    && PassTakes(net, Light(s.bucket), launches, s.memory.(changed := false), r)
    && s' == s.(memory := r,
                stage := if r.status != SUCCESS then Faulted else if r.changed then LightStage else HeavyStage)
  }

  function AfterHeavy(net: Network, s: DeltaState, r: Memory): DeltaState {
    if r.status != SUCCESS then
      s.(memory := r, stage := Faulted)
    else
      match NextBucket(net.arithmetic, r.distance, s.bucket)
      case Overflow => s.(memory := r, phases := s.phases + 1, stage := Faulted)
      case Exhausted => s.(memory := r, phases := s.phases + 1, stage := Settled)
      case Bucket(index) =>
        DeltaState(r.(removed := seq(net.nodeCount, _ => false)), index, s.phases + 1, LightStage)
  }

  ghost predicate HeavyPass(net: Network, s: DeltaState, launches: seq<seq<Arc>>, r: Memory, s': DeltaState)
    requires Shaped(net, s.memory)
  {
    && Covers(net, launches, s.memory.removed)
    && PassTakes(net, Heavy(s.bucket), launches, s.memory, r)
    && s' == AfterHeavy(net, s, r)
  }

  /** One turn of the host: cancellation, a light pass, or a heavy pass with the choice of the next bucket. */
  ghost predicate DeltaStep(net: Network, s: DeltaState, s': DeltaState) {
    && Shaped(net, s.memory)
    && (s.stage == LightStage || s.stage == HeavyStage)
    && (|| s' == s.(stage := Stopped)
        || (s.stage == LightStage && LightStep(net, s, s'))
        || (s.stage == HeavyStage && HeavyStep(net, s, s')))
  }

  ghost predicate LightStep(net: Network, s: DeltaState, s': DeltaState)
    requires Shaped(net, s.memory)
  {
    exists launches, r :: LightPass(net, s, launches, r, s')
  }

  ghost predicate HeavyStep(net: Network, s: DeltaState, s': DeltaState)
    requires Shaped(net, s.memory)
  {
    exists launches, r :: HeavyPass(net, s, launches, r, s')
  }

  ghost predicate DeltaRun(net: Network, o: nat, states: seq<DeltaState>) {
    && states != [] && states[0] == InitialState(net, o)
    && (forall i: nat :: DeltaStepAt(net, states, i))
  }

  ghost predicate DeltaStepAt(net: Network, states: seq<DeltaState>, i: nat) {
    i + 1 < |states| ==> DeltaStep(net, states[i], states[i + 1])
  }

  ghost predicate Sane(net: Network, o: nat) {
    net.WellFormed() && net.arithmetic.Bucketed() && o < net.nodeCount
  }

  /** x lies in a bucket below b. */
  predicate Below(net: Network, x: nat, b: nat) {
    net.arithmetic.bucket(x).Some? && net.arithmetic.bucket(x).value < b
  }

  /** Every enabled arc out of a bucket below b is relaxed. */
  ghost predicate RelaxedBelow(net: Network, distance: seq<nat>, b: nat)
    requires net.WellFormed() && |distance| == net.nodeCount
  {
    forall a :: a in net.arcs && net.Enabled(a) && Below(net, distance[a.source], b) ==> net.Relaxed(distance, a)
  }

  ghost predicate HasBuckets(net: Network, distance: seq<nat>) {
    forall v :: 0 <= v < |distance| && distance[v] < INFINITY ==> net.arithmetic.bucket(distance[v]).Some?
  }

  /** The number of nodes not in a bucket below b. */
  ghost function Unsettled(net: Network, distance: seq<nat>, b: nat): nat {
    if distance == [] then
      0
    else
      Unsettled(net, distance[..|distance| - 1], b)
      + (if Below(net, distance[|distance| - 1], b) then 0 else 1)
  }

  ghost predicate Common(net: Network, o: nat, s: DeltaState)
    requires Sane(net, o)
  {
    && Shaped(net, s.memory)
    && s.memory.status == SUCCESS
    && net.Sound(o, s.memory.distance) && net.Supported(o, s.memory.distance)
    && s.memory.distance[o] == 0
    && HasBuckets(net, s.memory.distance)
    && (net.HeavyArcsAdvance(o) ==> RelaxedBelow(net, s.memory.distance, s.bucket))
    && Holds(net.arithmetic, s.memory.distance, s.bucket)
    && s.phases + Unsettled(net, s.memory.distance, s.bucket) <= net.nodeCount
    && RemovedInBucket(net, s.memory, s.bucket)
  }

  /** Light closure: the light arcs out of the bucket are relaxed and its sources are all removed. */
  ghost predicate LightClosed(net: Network, o: nat, s: DeltaState)
    requires Sane(net, o) && Shaped(net, s.memory)
  {
    forall a :: a in net.arcs && net.arithmetic.InBucket(s.memory.distance[a.source], s.bucket) ==>
      && s.memory.removed[a.source]
      && (net.Enabled(a) && net.arithmetic.Light(net.Weight(a)) ==> net.Relaxed(s.memory.distance, a))
  }

  ghost predicate DeltaInvariant(net: Network, o: nat, s: DeltaState)
    requires Sane(net, o)
  {
    match s.stage
    case LightStage => Common(net, o, s)
    case HeavyStage => Common(net, o, s) && LightClosed(net, o, s)
    case Settled => s.phases <= net.nodeCount && (net.HeavyArcsAdvance(o) ==> net.Exact(o, s.memory.distance))
    case Faulted => net.Overflows(o) || net.Outgrows(o)
    case Stopped => true
  }

  lemma {:induction false} UnsettledBound(net: Network, distance: seq<nat>, b: nat)
    ensures Unsettled(net, distance, b) <= |distance|
  {
    if distance != [] {
      UnsettledBound(net, distance[..|distance| - 1], b);
    }
  }

  /** Settling more nodes lowers the count; settling a new one lowers it strictly. */
  lemma {:induction false} UnsettledFalls(net: Network, d: seq<nat>, b: nat, e: seq<nat>, c: nat)
    requires |d| == |e|
    requires forall v :: 0 <= v < |d| && Below(net, d[v], b) ==> Below(net, e[v], c)
    ensures Unsettled(net, e, c) <= Unsettled(net, d, b)
    ensures (exists v :: 0 <= v < |d| && !Below(net, d[v], b) && Below(net, e[v], c)) ==>
              Unsettled(net, e, c) < Unsettled(net, d, b)
  {
    if d != [] {
      UnsettledFalls(net, d[..|d| - 1], b, e[..|e| - 1], c);
      if v :| 0 <= v < |d| && !Below(net, d[v], b) && Below(net, e[v], c) {
        if v < |d| - 1 {
          assert !Below(net, d[..|d| - 1][v], b) && Below(net, e[..|e| - 1][v], c);
        }
      }
    }
  }

  lemma InitialDelta(net: Network, o: nat)
    requires Sane(net, o)
    ensures DeltaInvariant(net, o, InitialState(net, o))
  {
    InitialInvariant(net, o);
    var d := InitialMemory(net, o).distance;
    assert net.arithmetic.InBucket(d[o], 0);
    UnsettledBound(net, d, 0);
  }

  /** In a pass over bucket b, the members stay members and lower buckets do not move. */
  lemma MembersStay(net: Network, o: nat, kind: Kind, m: Memory, r: Memory, v: nat)
    requires Sane(net, o) && !kind.Frontier? && Shaped(net, m) && Progress(net, o, kind, m, r) && v < net.nodeCount
    ensures net.arithmetic.InBucket(m.distance[v], kind.bucket) ==>
              net.arithmetic.InBucket(r.distance[v], kind.bucket)
    ensures Below(net, r.distance[v], kind.bucket) ==> r.distance[v] == m.distance[v]
    ensures Below(net, m.distance[v], kind.bucket) ==> r.distance[v] == m.distance[v]
    ensures kind.Heavy? && net.HeavyArcsAdvance(o) && net.arithmetic.InBucket(r.distance[v], kind.bucket) ==>
              r.distance[v] == m.distance[v] || net.Topmost(r.distance, r.distance[v])
  {
    assert r.distance[v] <= m.distance[v];
  }

  lemma PassKeepsUnsettled(net: Network, o: nat, kind: Kind, m: Memory, r: Memory)
    requires Sane(net, o) && !kind.Frontier? && Shaped(net, m) && Progress(net, o, kind, m, r)
    ensures Unsettled(net, r.distance, kind.bucket) <= Unsettled(net, m.distance, kind.bucket)
  {
    forall v | 0 <= v < net.nodeCount
      ensures Below(net, m.distance[v], kind.bucket) ==> Below(net, r.distance[v], kind.bucket)
    {
      MembersStay(net, o, kind, m, r, v);
    }
    UnsettledFalls(net, m.distance, kind.bucket, r.distance, kind.bucket);
  }

  /** The part of the invariant that is about single nodes. */
  lemma PassKeepsNodes(net: Network, o: nat, kind: Kind, s: DeltaState, m: Memory, r: Memory, v: nat)
    requires Sane(net, o) && Common(net, o, s) && !kind.Frontier? && kind.bucket == s.bucket
    requires m == s.memory || m == s.memory.(changed := false)
    requires Progress(net, o, kind, m, r) && v < net.nodeCount
    ensures net.arithmetic.InBucket(m.distance[v], s.bucket) ==> net.arithmetic.InBucket(r.distance[v], s.bucket)
    ensures r.distance[v] < INFINITY ==> net.arithmetic.bucket(r.distance[v]).Some?
    ensures r.removed[v] ==> net.arithmetic.InBucket(r.distance[v], s.bucket) && HasArc(net, v)
  {
    MembersStay(net, o, kind, m, r, v);
  }

  ghost predicate RemovedInBucket(net: Network, m: Memory, b: nat) {
    forall v :: 0 <= v < |m.distance| && v < |m.removed| && m.removed[v] ==>
      net.arithmetic.InBucket(m.distance[v], b) && HasArc(net, v)
  }

  lemma PassKeepsAllNodes(net: Network, o: nat, kind: Kind, s: DeltaState, m: Memory, r: Memory)
    requires Sane(net, o) && Common(net, o, s) && !kind.Frontier? && kind.bucket == s.bucket
    requires m == s.memory || m == s.memory.(changed := false)
    requires Shaped(net, r) && Progress(net, o, kind, m, r)
    ensures HasBuckets(net, r.distance) && RemovedInBucket(net, r, s.bucket)
  {
    forall v | 0 <= v < net.nodeCount
      ensures r.distance[v] < INFINITY ==> net.arithmetic.bucket(r.distance[v]).Some?
      ensures r.removed[v] ==> net.arithmetic.InBucket(r.distance[v], s.bucket) && HasArc(net, v)
    {
      PassKeepsNodes(net, o, kind, s, m, r, v);
    }
  }

  lemma PassKeepsRelaxed(net: Network, o: nat, kind: Kind, m: Memory, r: Memory)
    requires Sane(net, o) && !kind.Frontier? && Shaped(net, m) && Progress(net, o, kind, m, r)
    requires RelaxedBelow(net, m.distance, kind.bucket)
    ensures RelaxedBelow(net, r.distance, kind.bucket)
  {
    forall a | a in net.arcs && net.Enabled(a) && Below(net, r.distance[a.source], kind.bucket)
      ensures net.Relaxed(r.distance, a)
    {
      MembersStay(net, o, kind, m, r, a.source);
      assert net.Relaxed(m.distance, a);
    }
  }

  lemma PassKeepsMember(net: Network, o: nat, kind: Kind, m: Memory, r: Memory)
    requires Sane(net, o) && !kind.Frontier? && Shaped(net, m) && Progress(net, o, kind, m, r)
    requires Holds(net.arithmetic, m.distance, kind.bucket)
    ensures Holds(net.arithmetic, r.distance, kind.bucket)
  {
    var v :| 0 <= v < |m.distance| && net.arithmetic.InBucket(m.distance[v], kind.bucket);
    MembersStay(net, o, kind, m, r, v);
  }

  lemma PassKeepsCommon(net: Network, o: nat, kind: Kind, s: DeltaState, m: Memory, r: Memory)
    requires Sane(net, o) && Common(net, o, s) && !kind.Frontier? && kind.bucket == s.bucket
    requires m == s.memory || m == s.memory.(changed := false)
    requires Shaped(net, r) && r.status == SUCCESS && Progress(net, o, kind, m, r)
    ensures Common(net, o, s.(memory := r))
  {
    PassKeepsAllNodes(net, o, kind, s, m, r);
    PassKeepsUnsettled(net, o, kind, m, r);
    if net.HeavyArcsAdvance(o) {
      PassKeepsRelaxed(net, o, kind, m, r);
    }
    PassKeepsMember(net, o, kind, m, r);
  }

  lemma LightPassKeeps(net: Network, o: nat, s: DeltaState, launches: seq<seq<Arc>>, r: Memory, s': DeltaState)
    requires Sane(net, o) && Common(net, o, s) && LightPass(net, s, launches, r, s')
    ensures DeltaInvariant(net, o, s')
  {
    var kind := Light(s.bucket);
    var m := s.memory.(changed := false);
    PassIsShaped(net, kind, launches, m, r);
    if r.status == SUCCESS {
      assert TasksAdmissible(net, kind, m, launches);
      PassOutcome(net, o, kind, launches, m, r);
      PassKeepsCommon(net, o, kind, s, m, r);
      if !r.changed {
        UnchangedIsClosed(net, o, s, launches, r);
      }
    } else {
      LightFaultHasCause(net, o, s, launches, r);
    }
  }

  /** A light pass fails only if some walk costs infinity or has a cost without a bucket. */
  lemma LightFaultHasCause(net: Network, o: nat, s: DeltaState, launches: seq<seq<Arc>>, r: Memory)
    requires Sane(net, o) && Common(net, o, s) && r.status != SUCCESS
    requires Covers(net, launches, BucketMembers(net, s.memory.distance, s.bucket))
    requires PassTakes(net, Light(s.bucket), launches, s.memory.(changed := false), r)
    ensures net.Overflows(o) || net.Outgrows(o)
  {
    var m := s.memory.(changed := false);
    assert TasksAdmissible(net, Light(s.bucket), m, launches);
    PassStatusHasCause(net, o, Light(s.bucket), launches, m, r);
  }

  /** So does a heavy pass. */
  lemma HeavyFaultHasCause(net: Network, o: nat, s: DeltaState, launches: seq<seq<Arc>>, r: Memory)
    requires Sane(net, o) && Common(net, o, s) && r.status != SUCCESS
    requires Covers(net, launches, s.memory.removed)
    requires PassTakes(net, Heavy(s.bucket), launches, s.memory, r)
    ensures net.Overflows(o) || net.Outgrows(o)
  {
    assert TasksAdmissible(net, Heavy(s.bucket), s.memory, launches);
    PassStatusHasCause(net, o, Heavy(s.bucket), launches, s.memory, r);
  }

  /** After a successful pass every finite distance has a bucket, so the choice of the next one cannot fail. */
  lemma NextBucketExists(net: Network, distance: seq<nat>, b: nat)
    requires HasBuckets(net, distance)
    ensures NextBucket(net.arithmetic, distance, b) != Overflow
  {
    NextBucketIsLeast(net.arithmetic, distance, b);
  }

  /** A light pass that changed nothing in its bucket has relaxed every light arc out of it. */
  lemma UnchangedIsClosed(net: Network, o: nat, s: DeltaState, launches: seq<seq<Arc>>, r: Memory)
    requires Sane(net, o) && Shaped(net, s.memory) && Shaped(net, r) && !r.changed
    requires Covers(net, launches, BucketMembers(net, s.memory.distance, s.bucket))
    requires Progress(net, o, Light(s.bucket), s.memory.(changed := false), r)
    requires TasksDone(net, Light(s.bucket), s.memory.(changed := false), r, launches)
    ensures LightClosed(net, o, s.(memory := r))
  {
    var m := s.memory.(changed := false);
    forall a | a in net.arcs && net.arithmetic.InBucket(r.distance[a.source], s.bucket)
      ensures r.removed[a.source]
      ensures net.Enabled(a) && net.arithmetic.Light(net.Weight(a)) ==> net.Relaxed(r.distance, a)
    {
      assert r.distance[a.source] == m.distance[a.source];
      assert InLaunches(a, launches);
      assert TaskDone(net, Light(s.bucket), m, r, a);
    }
  }

  lemma HeavyPassOutcome(net: Network, o: nat, s: DeltaState, launches: seq<seq<Arc>>, r: Memory)
    requires Sane(net, o) && Common(net, o, s) && r.status == SUCCESS
    requires Covers(net, launches, s.memory.removed)
    requires PassTakes(net, Heavy(s.bucket), launches, s.memory, r)
    ensures Shaped(net, r) && Progress(net, o, Heavy(s.bucket), s.memory, r)
    ensures TasksDone(net, Heavy(s.bucket), s.memory, r, launches)
    ensures Common(net, o, s.(memory := r))
  {
    var kind := Heavy(s.bucket);
    PassIsShaped(net, kind, launches, s.memory, r);
    assert TasksAdmissible(net, kind, s.memory, launches);
    PassOutcome(net, o, kind, launches, s.memory, r);
    PassKeepsCommon(net, o, kind, s, s.memory, r);
  }

  /**
    A node of the current bucket keeps its distance through the heavy pass, or ends on top; either way each of its
    arcs ends relaxed.
   */
  lemma HeavyArcRelaxed(net: Network, o: nat, s: DeltaState, launches: seq<seq<Arc>>, r: Memory, a: Arc)
    requires Sane(net, o) && Common(net, o, s) && LightClosed(net, o, s) && net.HeavyArcsAdvance(o)
    requires Covers(net, launches, s.memory.removed)
    requires Shaped(net, r) && Progress(net, o, Heavy(s.bucket), s.memory, r)
    requires TasksDone(net, Heavy(s.bucket), s.memory, r, launches)
    requires a in net.arcs && net.Enabled(a) && net.arithmetic.InBucket(r.distance[a.source], s.bucket)
    ensures net.Relaxed(r.distance, a)
  {
    MembersStay(net, o, Heavy(s.bucket), s.memory, r, a.source);
    if r.distance[a.source] != s.memory.distance[a.source] {
      assert net.Attained(o, a.source, r.distance[a.source]);
      AttainedIsBounded(net, o, a.source, r.distance[a.source]);
      TopmostIsRelaxed(net, r.distance, a);
      return;
    }
    assert s.memory.removed[a.source];
    if net.arithmetic.Light(net.Weight(a)) {
      assert net.Relaxed(s.memory.distance, a);
    } else {
      assert InLaunches(a, launches);
      assert TaskDone(net, Heavy(s.bucket), s.memory, r, a);
    }
  }

  /** After the heavy pass every enabled arc out of a bucket at most b is relaxed. */
  lemma HeavyPassRelaxes(net: Network, o: nat, s: DeltaState, launches: seq<seq<Arc>>, r: Memory)
    requires Sane(net, o) && Common(net, o, s) && LightClosed(net, o, s) && r.status == SUCCESS
    requires Covers(net, launches, s.memory.removed)
    requires PassTakes(net, Heavy(s.bucket), launches, s.memory, r)
    ensures Shaped(net, r) && Progress(net, o, Heavy(s.bucket), s.memory, r)
    ensures Common(net, o, s.(memory := r))
    ensures net.HeavyArcsAdvance(o) ==> RelaxedBelow(net, r.distance, s.bucket + 1)
  {
    HeavyPassOutcome(net, o, s, launches, r);
    forall a | net.HeavyArcsAdvance(o) && a in net.arcs && net.Enabled(a)
               && Below(net, r.distance[a.source], s.bucket + 1)
      ensures net.Relaxed(r.distance, a)
    {
      if !Below(net, r.distance[a.source], s.bucket) {
        HeavyArcRelaxed(net, o, s, launches, r, a);
      }
    }
  }

  lemma HeavyPassKeeps(net: Network, o: nat, s: DeltaState, launches: seq<seq<Arc>>, r: Memory, s': DeltaState)
    requires Sane(net, o) && Common(net, o, s) && LightClosed(net, o, s) && HeavyPass(net, s, launches, r, s')
    ensures DeltaInvariant(net, o, s')
  {
    if r.status != SUCCESS {
      HeavyFaultHasCause(net, o, s, launches, r);
    } else {
      HeavyPassRelaxes(net, o, s, launches, r);
      NextBucketExists(net, r.distance, s.bucket);
      var next := NextBucket(net.arithmetic, r.distance, s.bucket);
      match next {
        case Exhausted =>
          if net.HeavyArcsAdvance(o) {
            forall a | a in net.arcs && net.Enabled(a)
              ensures net.Relaxed(r.distance, a)
            {
              EveryArcRelaxed(net, o, r.distance, s.bucket, a);
            }
            FixpointIsExact(net, o, r.distance);
          }
          OccupiedCounts(net, r.distance, s.bucket);
        case Bucket(index) =>
          BucketAdvances(net, o, s, r, index);
      }
    }
  }

  lemma EveryArcRelaxed(net: Network, o: nat, distance: seq<nat>, b: nat, a: Arc)
    requires Sane(net, o) && net.Sound(o, distance) && HasBuckets(net, distance)
    requires RelaxedBelow(net, distance, b + 1) && NextBucket(net.arithmetic, distance, b) == Exhausted
    requires a in net.arcs && net.Enabled(a)
    ensures net.Relaxed(distance, a)
  {
    var d := distance[a.source];
    NextBucketIsLeast(net.arithmetic, distance, b);
    assert net.Attained(o, a.source, d) && net.Attained(o, a.destination, distance[a.destination]);
    AttainedIsBounded(net, o, a.source, d);
    AttainedIsBounded(net, o, a.destination, distance[a.destination]);
    if d < INFINITY {
      assert Below(net, d, b + 1);
    }
  }

  lemma {:induction false} OccupiedCounts(net: Network, distance: seq<nat>, b: nat)
    requires Holds(net.arithmetic, distance, b)
    ensures Unsettled(net, distance, b) >= 1
  {
    var v :| 0 <= v < |distance| && net.arithmetic.InBucket(distance[v], b);
    if v < |distance| - 1 {
      assert net.arithmetic.InBucket(distance[..|distance| - 1][v], b);
      OccupiedCounts(net, distance[..|distance| - 1], b);
    }
  }

  /** Nothing lies strictly between the bucket just left and the next one. */
  lemma NothingBetween(net: Network, o: nat, d: seq<nat>, b: nat, index: nat, v: nat)
    requires Sane(net, o) && net.Sound(o, d) && NextBucket(net.arithmetic, d, b) == Bucket(index) && v < net.nodeCount
    ensures Below(net, d[v], index) <==> Below(net, d[v], b + 1)
  {
    NextBucketIsLeast(net.arithmetic, d, b);
    assert net.Attained(o, v, d[v]);
    AttainedIsBounded(net, o, v, d[v]);
  }

  lemma LeavingSettles(net: Network, o: nat, d: seq<nat>, b: nat, index: nat)
    requires Sane(net, o) && net.Sound(o, d) && NextBucket(net.arithmetic, d, b) == Bucket(index)
    requires Holds(net.arithmetic, d, b)
    ensures Unsettled(net, d, index) < Unsettled(net, d, b)
    ensures Holds(net.arithmetic, d, index)
  {
    NextBucketIsLeast(net.arithmetic, d, b);
    var member :| 0 <= member < |d| && net.arithmetic.InBucket(d[member], b);
    assert !Below(net, d[member], b) && Below(net, d[member], index);
    UnsettledFalls(net, d, b, d, index);
  }

  lemma BucketAdvances(net: Network, o: nat, s: DeltaState, r: Memory, index: nat)
    requires Sane(net, o) && Common(net, o, s.(memory := r))
    requires net.HeavyArcsAdvance(o) ==> RelaxedBelow(net, r.distance, s.bucket + 1)
    requires NextBucket(net.arithmetic, r.distance, s.bucket) == Bucket(index)
    ensures Common(net, o, DeltaState(r.(removed := seq(net.nodeCount, _ => false)), index, s.phases + 1, LightStage))
  {
    LeavingSettles(net, o, r.distance, s.bucket, index);
    if net.HeavyArcsAdvance(o) {
      RelaxedUpToNext(net, o, r.distance, s.bucket, index);
    }
    var t := DeltaState(r.(removed := seq(net.nodeCount, _ => false)), index, s.phases + 1, LightStage);
    assert t.memory.distance == r.distance;
    assert forall v :: 0 <= v < net.nodeCount ==> !t.memory.removed[v];
  }

  lemma RelaxedUpToNext(net: Network, o: nat, d: seq<nat>, b: nat, index: nat)
    requires Sane(net, o) && net.Sound(o, d) && NextBucket(net.arithmetic, d, b) == Bucket(index)
    requires RelaxedBelow(net, d, b + 1)
    ensures RelaxedBelow(net, d, index)
  {
    forall a | a in net.arcs && net.Enabled(a) && Below(net, d[a.source], index)
      ensures net.Relaxed(d, a)
    {
      NothingBetween(net, o, d, b, index, a.source);
    }
  }

  lemma DeltaStepKeeps(net: Network, o: nat, s: DeltaState, s': DeltaState)
    requires Sane(net, o) && DeltaInvariant(net, o, s) && DeltaStep(net, s, s')
    ensures DeltaInvariant(net, o, s')
  {
    if s' != s.(stage := Stopped) {
      if s.stage == LightStage {
        var launches, r :| LightPass(net, s, launches, r, s');
        LightPassKeeps(net, o, s, launches, r, s');
      } else {
        var launches, r :| HeavyPass(net, s, launches, r, s');
        HeavyPassKeeps(net, o, s, launches, r, s');
      }
    }
  }

  /** The bucket-settling invariant holds in every state of every run. */
  lemma {:induction false} DeltaRunKeeps(net: Network, o: nat, states: seq<DeltaState>, i: nat)
    requires Sane(net, o) && DeltaRun(net, o, states) && i < |states|
    ensures DeltaInvariant(net, o, states[i])
  {
    if i == 0 {
      InitialDelta(net, o);
    } else {
      DeltaRunKeeps(net, o, states, i - 1);
      assert DeltaStepAt(net, states, i - 1);
      DeltaStepKeeps(net, o, states[i - 1], states[i]);
    }
  }

  /** Exactness of delta-stepping on every network whose heavy arcs advance. */
  lemma SettledIsExact(net: Network, o: nat, states: seq<DeltaState>)
    requires Sane(net, o) && net.HeavyArcsAdvance(o)
    requires DeltaRun(net, o, states) && states[|states| - 1].stage == Settled
    ensures net.Exact(o, states[|states| - 1].memory.distance)
  {
    DeltaRunKeeps(net, o, states, |states| - 1);
  }

  /** A run faults only on a network with a walk whose cost is infinite or has no bucket. */
  lemma FaultNeedsLargeWalk(net: Network, o: nat, states: seq<DeltaState>)
    requires Sane(net, o) && DeltaRun(net, o, states) && states[|states| - 1].stage == Faulted
    ensures net.Overflows(o) || net.Outgrows(o)
  {
    DeltaRunKeeps(net, o, states, |states| - 1);
  }

  /** The bucket loop runs at most once per node, whatever the arithmetic does. */
  lemma BucketsVisited(net: Network, o: nat, states: seq<DeltaState>, i: nat)
    requires Sane(net, o) && DeltaRun(net, o, states) && i < |states|
    requires states[i].stage != Faulted && states[i].stage != Stopped
    ensures states[i].phases <= net.nodeCount
  {
    DeltaRunKeeps(net, o, states, i);
  }

  /** When the light loop of a bucket stops, removed holds exactly its members with out-arcs. */
  lemma RemovedIsExact(net: Network, o: nat, states: seq<DeltaState>, i: nat, v: nat)
    requires Sane(net, o) && DeltaRun(net, o, states) && i < |states| && v < net.nodeCount
    requires states[i].stage == HeavyStage
    ensures Shaped(net, states[i].memory)
    ensures states[i].memory.removed[v] <==>
              net.arithmetic.InBucket(states[i].memory.distance[v], states[i].bucket) && HasArc(net, v)
  {
    DeltaRunKeeps(net, o, states, i);
  }

  lemma LightLeavesSettled(net: Network, o: nat, s: DeltaState, s': DeltaState, v: nat)
    requires Sane(net, o) && Common(net, o, s) && LightStep(net, s, s') && v < net.nodeCount
    requires s'.memory.status == SUCCESS && Below(net, s.memory.distance[v], s.bucket)
    ensures Shaped(net, s'.memory) && s'.memory.distance[v] == s.memory.distance[v] && s'.bucket == s.bucket
  {
    var launches, r :| LightPass(net, s, launches, r, s');
    var kind := Light(s.bucket);
    var m := s.memory.(changed := false);
    assert TasksAdmissible(net, kind, m, launches);
    PassOutcome(net, o, kind, launches, m, r);
    MembersStay(net, o, kind, m, r, v);
  }

  lemma HeavyLeavesSettled(net: Network, o: nat, s: DeltaState, s': DeltaState, v: nat)
    requires Sane(net, o) && Common(net, o, s) && LightClosed(net, o, s) && HeavyStep(net, s, s')
    requires s'.memory.status == SUCCESS && v < net.nodeCount && Below(net, s.memory.distance[v], s.bucket)
    ensures Shaped(net, s'.memory) && s'.memory.distance[v] == s.memory.distance[v] && s.bucket <= s'.bucket
  {
    var launches, r :| HeavyPass(net, s, launches, r, s');
    HeavyPassOutcome(net, o, s, launches, r);
    NextBucketIsLeast(net.arithmetic, r.distance, s.bucket);
    MembersStay(net, o, Heavy(s.bucket), s.memory, r, v);
  }

  lemma StepLeavesSettled(net: Network, o: nat, s: DeltaState, s': DeltaState, v: nat)
    requires Sane(net, o) && DeltaInvariant(net, o, s) && DeltaStep(net, s, s') && v < net.nodeCount
    requires s'.memory.status == SUCCESS && Below(net, s.memory.distance[v], s.bucket)
    ensures Shaped(net, s'.memory) && s'.memory.distance[v] == s.memory.distance[v] && s.bucket <= s'.bucket
  {
    if s' == s.(stage := Stopped) {
    } else if s.stage == LightStage {
      LightLeavesSettled(net, o, s, s', v);
    } else {
      HeavyLeavesSettled(net, o, s, s', v);
    }
  }

  lemma StepKeepsStatus(net: Network, o: nat, states: seq<DeltaState>, i: nat)
    requires Sane(net, o) && DeltaRun(net, o, states) && i + 1 < |states|
    ensures Shaped(net, states[i].memory) && states[i].memory.status == SUCCESS
  {
    DeltaRunKeeps(net, o, states, i);
    assert DeltaStepAt(net, states, i);
  }

  lemma NextLeavesSettled(net: Network, o: nat, states: seq<DeltaState>, i: nat, v: nat)
    requires Sane(net, o) && DeltaRun(net, o, states) && i + 1 < |states| && v < net.nodeCount
    requires Shaped(net, states[i].memory) && Below(net, states[i].memory.distance[v], states[i].bucket)
    requires states[i + 1].memory.status == SUCCESS
    ensures Shaped(net, states[i + 1].memory) && states[i].bucket <= states[i + 1].bucket
    ensures states[i + 1].memory.distance[v] == states[i].memory.distance[v]
  {
    DeltaRunKeeps(net, o, states, i);
    assert DeltaStepAt(net, states, i);
    StepLeavesSettled(net, o, states[i], states[i + 1], v);
  }

  /** No later step changes a distance whose bucket has been left behind. */
  lemma {:induction false} SettledStays(net: Network, o: nat, states: seq<DeltaState>, i: nat, j: nat, v: nat)
    requires Sane(net, o) && DeltaRun(net, o, states) && i < j < |states| && v < net.nodeCount
    requires Shaped(net, states[i].memory) && Below(net, states[i].memory.distance[v], states[i].bucket)
    requires states[j].memory.status == SUCCESS
    ensures Shaped(net, states[j].memory)
    ensures states[j].memory.distance[v] == states[i].memory.distance[v] && states[i].bucket <= states[j].bucket
    decreases j - i
  {
    if i < j - 1 {
      StepKeepsStatus(net, o, states, j - 1);
      SettledStays(net, o, states, i, j - 1, v);
    }
    NextLeavesSettled(net, o, states, j - 1, v);
  }
}
