/**
  Delta-stepping is exact on every network, up to any number of nodes, only if heavy arcs
  always leave their bucket. When one does not, laying the offending walk out as a path and adding one more arc
  gives a network on which every run that ends reports a reachable node as unreachable:
  the arc's head joins its bucket during the heavy pass, and the host only looks for
  buckets above that one.
 */
module DeltaNecessity {
  import opened Basics
  import opened Binary64
  import opened RoutingGraph
  import opened Kernels
  import opened Passes
  import opened FrontierSearch
  import opened DeltaSearch
  import opened DeltaProgress

  /** Zero weights add nothing. */
  ghost predicate Grounded(arithmetic: Arithmetic) {
    && (forall m: nat :: FiniteNonNegative(m) ==> arithmetic.weigh(0, m) == 0)
    && (forall x: nat :: x <= INFINITY ==> arithmetic.add(x, 0) == x)
  }

  /** p is a walk whose extension by the heavy arc a stays in the bucket of its cost. */
  ghost predicate Stalls(net: Network, o: nat, p: seq<Arc>, a: Arc) {
    && net.WellFormed() && net.arithmetic.Bucketed() && Grounded(net.arithmetic)
    && net.Walk(o, p, a.source) && a in net.arcs && net.Enabled(a) && !net.arithmetic.Light(net.Weight(a))
    && net.arithmetic.bucket(net.Cost(p)).Some?
    && net.arithmetic.bucket(net.Extend(net.Cost(p), a)) == net.arithmetic.bucket(net.Cost(p))
  }

  /** The arc of the path that leaves node i. */
  function PathArc(p: seq<Arc>, a: Arc, i: nat): Arc {
    if i < |p| then Arc(i, i + 1, p[i].relation, p[i].base)
    else if i == |p| then Arc(i, i + 1, a.relation, a.base)
    else Arc(i, i + 1, a.relation, 0)
  }

  /** The walk and the arc laid out as a path 0, 1, ..., with a weightless arc at its end. */
  function Path(net: Network, p: seq<Arc>, a: Arc): Network {
    Network(|p| + 3, set i | 0 <= i < |p| + 2 :: PathArc(p, a, i), net.enabled, net.multipliers, net.arithmetic)
  }

  /** The cost of reaching node i of the path. */
  ghost function CostAt(net: Network, p: seq<Arc>, a: Arc, i: nat): nat
    requires i <= |p| + 1
  {
    if i <= |p| then net.Cost(p[..i]) else net.Extend(net.Cost(p), a)
  }

  lemma CostAtNext(net: Network, o: nat, p: seq<Arc>, a: Arc, i: nat)
    requires Stalls(net, o, p, a) && i <= |p|
    ensures CostAt(net, p, a, i + 1) == Path(net, p, a).Extend(CostAt(net, p, a, i), PathArc(p, a, i))
    ensures PathArc(p, a, i).relation < |net.enabled| && net.enabled[PathArc(p, a, i).relation] == 1
    ensures FiniteNonNegative(PathArc(p, a, i).base)
  {
    if i < |p| {
      PrefixIsWalk(net, o, p, a.source, i);
      assert p[..i + 1][..i] == p[..i];
    } else {
      assert p[..i] == p;
    }
  }

  /** Costs grow along the path and stay in buckets up to the bucket of the stall. */
  lemma {:induction false} CostAtBounded(net: Network, o: nat, p: seq<Arc>, a: Arc, i: nat)
    requires Stalls(net, o, p, a) && i <= |p| + 1
    ensures CostAt(net, p, a, i) < INFINITY
    ensures net.arithmetic.bucket(CostAt(net, p, a, i)).Some?
    ensures net.arithmetic.bucket(CostAt(net, p, a, i)).value <= net.arithmetic.bucket(net.Cost(p)).value
    ensures i <= |p| ==> CostAt(net, p, a, i) <= net.Cost(p)
  {
    assert p[..|p|] == p;
    if i <= |p| {
      CostGrows(net, p, i, |p|);
      CostIsBounded(net, p);
    } else {
      CostIsBounded(net, p);
    }
  }

  lemma PathIsWellFormed(net: Network, o: nat, p: seq<Arc>, a: Arc)
    requires Stalls(net, o, p, a)
    ensures Sane(Path(net, p, a), 0)
  {
    var path := Path(net, p, a);
    forall arc | arc in path.arcs
      ensures arc.source < path.nodeCount && arc.destination < path.nodeCount
      ensures arc.relation < |path.enabled| && FiniteNonNegative(arc.base)
    {
      var i :| 0 <= i < |p| + 2 && arc == PathArc(p, a, i);
      if i <= |p| {
        CostAtNext(net, o, p, a, i);
      }
    }
  }

  /** Every finite distance a walk of the path attains before its last node is the cost at that node. */
  lemma {:induction false} WalksOfPath(net: Network, o: nat, p: seq<Arc>, a: Arc, w: seq<Arc>, i: nat)
    requires Stalls(net, o, p, a) && Path(net, p, a).Walk(0, w, i) && i <= |p| + 1
    ensures Path(net, p, a).Cost(w) == CostAt(net, p, a, i)
    decreases |w|
  {
    if w == [] {
      assert p[..0] == [];
    } else {
      var last := w[|w| - 1];
      var j :| 0 <= j < |p| + 2 && last == PathArc(p, a, j);
      WalksOfPath(net, o, p, a, w[..|w| - 1], j);
      CostAtNext(net, o, p, a, j);
    }
  }

  lemma AttainedOnPath(net: Network, o: nat, p: seq<Arc>, a: Arc, i: nat, x: nat)
    requires Stalls(net, o, p, a) && i <= |p| + 1 && Path(net, p, a).Attained(0, i, x)
    ensures x == INFINITY || x == CostAt(net, p, a, i)
  {
    if x != INFINITY {
      var w :| Path(net, p, a).Walk(0, w, i) && Path(net, p, a).Cost(w) == x;
      WalksOfPath(net, o, p, a, w, i);
    }
  }

  lemma {:induction false} WalkTo(net: Network, o: nat, p: seq<Arc>, a: Arc, i: nat) returns (w: seq<Arc>)
    requires Stalls(net, o, p, a) && i <= |p| + 1
    ensures Path(net, p, a).Walk(0, w, i)
  {
    w := [];
    if i > 0 {
      w := WalkTo(net, o, p, a, i - 1);
      CostAtNext(net, o, p, a, i - 1);
      AppendArc(Path(net, p, a), 0, w, PathArc(p, a, i - 1));
      w := w + [PathArc(p, a, i - 1)];
    }
  }

  /** The last node of the path is reachable at a finite cost. */
  lemma LastIsReachable(net: Network, o: nat, p: seq<Arc>, a: Arc) returns (w: seq<Arc>)
    requires Stalls(net, o, p, a)
    ensures Path(net, p, a).Walk(0, w, |p| + 2) && Path(net, p, a).Cost(w) < INFINITY
  {
    var path := Path(net, p, a);
    w := WalkTo(net, o, p, a, |p| + 1);
    WalksOfPath(net, o, p, a, w, |p| + 1);
    CostAtBounded(net, o, p, a, |p| + 1);
    CostAtNext(net, o, p, a, |p|);
    var last := PathArc(p, a, |p| + 1);
    assert last in path.arcs;
    AppendArc(path, 0, w, last);
    assert path.Weight(last) == 0;
    w := w + [last];
  }

  /** Where the source distance and the candidate have buckets, a valid task does not fault. */
  lemma BucketedTaskIsFine(path: Network, o: nat, kind: Kind, arc: Arc, m: Memory)
    requires Sane(path, o) && !kind.Frontier? && arc in path.arcs && Shaped(path, m)
    requires path.arithmetic.bucket(m.distance[arc.source]).Some?
    requires path.Extend(m.distance[arc.source], arc) < INFINITY
    requires path.arithmetic.bucket(path.Extend(m.distance[arc.source], arc)).Some?
    ensures !Decide(path, kind, arc, m).Fault?
  {
    assert LeaderFault(path, kind, arc) == None;
  }

  /** A task that starts before the head of the stalling arc never faults. */
  lemma NoFault(net: Network, o: nat, p: seq<Arc>, a: Arc, kind: Kind, m0: Memory, m: Memory, i: nat)
    requires Stalls(net, o, p, a) && Sane(Path(net, p, a), 0) && !kind.Frontier? && i <= |p|
    requires Shaped(Path(net, p, a), m0) && Progress(Path(net, p, a), 0, kind, m0, m)
    requires Admissible(Path(net, p, a), kind, m0, PathArc(p, a, i))
    ensures !Decide(Path(net, p, a), kind, PathArc(p, a, i), m).Fault?
  {
    var path := Path(net, p, a);
    SourceStays(path, 0, kind, m0, m, PathArc(p, a, i));
    assert path.Attained(0, i, m.distance[i]);
    AttainedOnPath(net, o, p, a, i, m.distance[i]);
    CostAtNext(net, o, p, a, i);
    CostAtBounded(net, o, p, a, i + 1);
    BucketedTaskIsFine(path, 0, kind, PathArc(p, a, i), m);
  }

  /** The arc leaves a node before the head of the stalling arc. */
  ghost predicate IsEarly(p: seq<Arc>, a: Arc, arc: Arc) {
    exists i: nat :: i <= |p| && arc == PathArc(p, a, i)
  }

  ghost predicate EarlyTasks(p: seq<Arc>, a: Arc, tasks: seq<Arc>) {
    forall t :: 0 <= t < |tasks| ==> IsEarly(p, a, tasks[t])
  }

  lemma WorkSucceeds(net: Network, kind: Kind, tasks: seq<Arc>, s: Launch, t: nat)
    requires LaunchShaped(net, tasks, s) && t < |tasks| && s.memory.status == SUCCESS
    requires !Decide(net, kind, tasks[t], s.memory).Fault?
    ensures Work(net, kind, tasks, s, t).memory.status == SUCCESS
  {
  }

  lemma AdvanceSucceeds(net: Network, o: nat, p: seq<Arc>, a: Arc, kind: Kind, m0: Memory, tasks: seq<Arc>, s: Launch,
                        e: Event)
    requires Stalls(net, o, p, a) && Sane(Path(net, p, a), 0) && !kind.Frontier?
    requires Shaped(Path(net, p, a), m0) && LaunchShaped(Path(net, p, a), tasks, s)
    requires AllAdmissible(Path(net, p, a), kind, m0, tasks) && EarlyTasks(p, a, tasks)
    requires Progress(Path(net, p, a), 0, kind, m0, s.memory) && s.memory.status == SUCCESS && Happens(tasks, s, e)
    ensures Advance(Path(net, p, a), kind, tasks, s, e).memory.status == SUCCESS
  {
    match e {
      case LeaderStep(b) => LeadSucceeds(Path(net, p, a), kind, tasks, s, b);
      case ThreadStep(t) =>
        assert IsEarly(p, a, tasks[t]);
        var i: nat :| i <= |p| && tasks[t] == PathArc(p, a, i);
        NoFault(net, o, p, a, kind, m0, s.memory, i);
        WorkSucceeds(Path(net, p, a), kind, tasks, s, t);
    }
  }

  lemma {:induction false} ExecSucceeds(net: Network, o: nat, p: seq<Arc>, a: Arc, kind: Kind, m0: Memory,
                                        tasks: seq<Arc>, blockSize: nat, m: Memory, schedule: seq<Event>)
    requires Stalls(net, o, p, a) && Sane(Path(net, p, a), 0) && !kind.Frontier?
    requires Shaped(Path(net, p, a), m0) && AllAdmissible(Path(net, p, a), kind, m0, tasks) && EarlyTasks(p, a, tasks)
    requires Progress(Path(net, p, a), 0, kind, m0, m) && m.status == SUCCESS
    requires ValidSchedule(tasks, blockSize, schedule)
    ensures Exec(Path(net, p, a), kind, tasks, blockSize, m, schedule).memory.status == SUCCESS
  {
    if schedule != [] {
      var path := Path(net, p, a);
      var earlier := schedule[..|schedule| - 1];
      ExecSucceeds(net, o, p, a, kind, m0, tasks, blockSize, m, earlier);
      ExecKeeps(path, 0, kind, m0, tasks, blockSize, m, earlier);
      AdvanceSucceeds(net, o, p, a, kind, m0, tasks, Exec(path, kind, tasks, blockSize, m, earlier),
                      schedule[|schedule| - 1]);
    }
  }

  ghost predicate HoldersCounted(net: Network, kind: Kind, tasks: seq<Arc>, threads: seq<Thread>)
    requires |threads| == |tasks|
  {
    forall t :: 0 <= t < |tasks| && threads[t].Holding? ==> Counted(net, kind, tasks[t])
  }

  lemma AdvanceByCounted(net: Network, kind: Kind, tasks: seq<Arc>, s: Launch, e: Event, v: nat)
    requires LaunchShaped(net, tasks, s) && Happens(tasks, s, e) && v < net.nodeCount
    requires HoldersCounted(net, kind, tasks, s.threads)
    requires e.ThreadStep? && tasks[e.thread].destination == v ==> !Counted(net, kind, tasks[e.thread])
    ensures Advance(net, kind, tasks, s, e).memory.distance[v] == s.memory.distance[v]
    ensures HoldersCounted(net, kind, tasks, Advance(net, kind, tasks, s, e).threads)
  {
  }

  /** Only counted tasks change a distance. */
  lemma {:induction false} ChangedByCounted(net: Network, kind: Kind, tasks: seq<Arc>, blockSize: nat, m: Memory,
                                            schedule: seq<Event>, v: nat)
    requires Shaped(net, m) && ValidSchedule(tasks, blockSize, schedule) && v < net.nodeCount
    requires forall t :: 0 <= t < |tasks| && tasks[t].destination == v ==> !Counted(net, kind, tasks[t])
    ensures Exec(net, kind, tasks, blockSize, m, schedule).memory.distance[v] == m.distance[v]
    ensures HoldersCounted(net, kind, tasks, Exec(net, kind, tasks, blockSize, m, schedule).threads)
  {
    if schedule != [] {
      var earlier := schedule[..|schedule| - 1];
      ChangedByCounted(net, kind, tasks, blockSize, m, earlier, v);
      AdvanceByCounted(net, kind, tasks, Exec(net, kind, tasks, blockSize, m, earlier), schedule[|schedule| - 1], v);
    }
  }

  ghost predicate EarlyLaunches(p: seq<Arc>, a: Arc, launches: seq<seq<Arc>>) {
    forall k :: 0 <= k < |launches| ==> EarlyTasks(p, a, launches[k])
  }

  lemma {:induction false} PassSucceeds(net: Network, o: nat, p: seq<Arc>, a: Arc, kind: Kind,
                                        launches: seq<seq<Arc>>, m: Memory, r: Memory)
    requires Stalls(net, o, p, a) && Sane(Path(net, p, a), 0) && !kind.Frontier?
    requires Shaped(Path(net, p, a), m) && TasksAdmissible(Path(net, p, a), kind, m, launches)
    requires Progress(Path(net, p, a), 0, kind, m, m) && m.status == SUCCESS && EarlyLaunches(p, a, launches)
    requires PassTakes(Path(net, p, a), kind, launches, m, r)
    ensures r.status == SUCCESS
  {
    if launches != [] {
      var path := Path(net, p, a);
      var earlier := launches[..|launches| - 1];
      var last := launches[|launches| - 1];
      var between :| Shaped(path, between) && PassTakes(path, kind, earlier, m, between)
        && LaunchTakes(path, kind, last, between, r);
      forall arc | InLaunches(arc, earlier) || arc in last
        ensures Admissible(path, kind, m, arc)
      {
        InLast(arc, launches);
      }
      PassSucceeds(net, o, p, a, kind, earlier, m, between);
      PassOutcome(path, 0, kind, earlier, m, between);
      var blockSize: nat, schedule: seq<Event> :| Takes(path, kind, last, blockSize, between, schedule, r);
      ExecSucceeds(net, o, p, a, kind, m, last, blockSize, between, schedule);
    }
  }

  lemma {:induction false} PassChangesByCounted(net: Network, kind: Kind, launches: seq<seq<Arc>>, m: Memory, r: Memory,
                                                v: nat)
    requires Shaped(net, m) && v < net.nodeCount && PassTakes(net, kind, launches, m, r)
    requires forall a :: InLaunches(a, launches) && a.destination == v ==> !Counted(net, kind, a)
    ensures Shaped(net, r) && r.distance[v] == m.distance[v]
  {
    if launches != [] {
      var earlier := launches[..|launches| - 1];
      var last := launches[|launches| - 1];
      var between :| Shaped(net, between) && PassTakes(net, kind, earlier, m, between)
        && LaunchTakes(net, kind, last, between, r);
      forall a | InLaunches(a, earlier) || a in last
        ensures InLaunches(a, launches)
      {
        InLast(a, launches);
      }
      PassChangesByCounted(net, kind, earlier, m, between, v);
      var blockSize: nat, schedule: seq<Event> :| Takes(net, kind, last, blockSize, between, schedule, r);
      ChangedByCounted(net, kind, last, blockSize, between, schedule, v);
    }
  }

  /** While the search runs, neither the head of the stalling arc nor the last node has been reached. */
  ghost predicate Stalled(p: seq<Arc>, s: DeltaState) {
    match s.stage
    case LightStage => |s.memory.distance| == |p| + 3
      && s.memory.distance[|p| + 1] == INFINITY && s.memory.distance[|p| + 2] == INFINITY
    case HeavyStage => |s.memory.distance| == |p| + 3
      && s.memory.distance[|p| + 1] == INFINITY && s.memory.distance[|p| + 2] == INFINITY
    case Settled => |s.memory.distance| == |p| + 3 && s.memory.distance[|p| + 2] == INFINITY
    case Faulted => false
    case Stopped => true
  }

  /** The tasks of a pass over the members of a bucket all start before the head of the stalling arc. */
  lemma MembersAreEarly(net: Network, o: nat, p: seq<Arc>, a: Arc, b: nat, m: Memory, launches: seq<seq<Arc>>,
                        selected: seq<bool>)
    requires Stalls(net, o, p, a) && Shaped(Path(net, p, a), m) && m.distance[|p| + 1] == INFINITY
    requires |selected| == |p| + 3 && Covers(Path(net, p, a), launches, selected)
    requires forall v :: 0 <= v < |p| + 3 && selected[v] ==> net.arithmetic.InBucket(m.distance[v], b)
    ensures EarlyLaunches(p, a, launches)
    ensures forall arc :: InLaunches(arc, launches) ==> arc.destination != |p| + 2
  {
    forall arc | InLaunches(arc, launches)
      ensures IsEarly(p, a, arc)
      ensures arc.destination != |p| + 2
    {
      var i: nat :| i < |p| + 2 && arc == PathArc(p, a, i);
      assert selected[arc.source] && net.arithmetic.InBucket(m.distance[arc.source], b);
      assert i <= |p|;
    }
    forall k | 0 <= k < |launches|
      ensures EarlyTasks(p, a, launches[k])
    {
      forall t | 0 <= t < |launches[k]|
        ensures IsEarly(p, a, launches[k][t])
      {
        assert launches[k][t] in launches[k];
        assert InLaunches(launches[k][t], launches);
      }
    }
  }

  /** The stalling arc is heavy, so no light pass ends at its head. */
  lemma LightSkipsHead(net: Network, o: nat, p: seq<Arc>, a: Arc, m: Memory, b: nat, launches: seq<seq<Arc>>, r: Memory)
    requires Stalls(net, o, p, a) && Shaped(Path(net, p, a), m)
    requires Covers(Path(net, p, a), launches, BucketMembers(Path(net, p, a), m.distance, b))
    requires PassTakes(Path(net, p, a), Light(b), launches, m, r)
    ensures Shaped(Path(net, p, a), r) && r.distance[|p| + 1] == m.distance[|p| + 1]
  {
    var path := Path(net, p, a);
    forall arc | InLaunches(arc, launches) && arc.destination == |p| + 1
      ensures !Counted(path, Light(b), arc)
    {
      var i :| 0 <= i < |p| + 2 && arc == PathArc(p, a, i);
      assert path.Weight(arc) == net.Weight(a);
    }
    PassChangesByCounted(path, Light(b), launches, m, r, |p| + 1);
  }

  lemma LightTasksAreEarly(net: Network, o: nat, p: seq<Arc>, a: Arc, m: Memory, b: nat, launches: seq<seq<Arc>>)
    requires Stalls(net, o, p, a) && Sane(Path(net, p, a), 0) && Shaped(Path(net, p, a), m)
    requires m.distance[|p| + 1] == INFINITY
    requires Covers(Path(net, p, a), launches, BucketMembers(Path(net, p, a), m.distance, b))
    ensures EarlyLaunches(p, a, launches) && forall arc :: InLaunches(arc, launches) ==> arc.destination != |p| + 2
    ensures TasksAdmissible(Path(net, p, a), Light(b), m, launches)
  {
    MembersAreEarly(net, o, p, a, b, m, launches, BucketMembers(Path(net, p, a), m.distance, b));
  }

  /** A light pass succeeds and reaches neither the head nor the last node. */
  lemma LightPassStalls(net: Network, o: nat, p: seq<Arc>, a: Arc, m: Memory, b: nat, launches: seq<seq<Arc>>,
                        r: Memory)
    requires Stalls(net, o, p, a) && Sane(Path(net, p, a), 0) && Shaped(Path(net, p, a), m)
    requires m.distance[|p| + 1] == INFINITY && m.distance[|p| + 2] == INFINITY
    requires Progress(Path(net, p, a), 0, Light(b), m, m) && m.status == SUCCESS
    requires Covers(Path(net, p, a), launches, BucketMembers(Path(net, p, a), m.distance, b))
    requires PassTakes(Path(net, p, a), Light(b), launches, m, r)
    ensures r.status == SUCCESS && |r.distance| == |p| + 3
    ensures r.distance[|p| + 1] == INFINITY && r.distance[|p| + 2] == INFINITY
  {
    LightTasksAreEarly(net, o, p, a, m, b, launches);
    PassSucceeds(net, o, p, a, Light(b), launches, m, r);
    LightSkipsHead(net, o, p, a, m, b, launches, r);
    PassChangesByCounted(Path(net, p, a), Light(b), launches, m, r, |p| + 2);
  }

  lemma LightStalls(net: Network, o: nat, p: seq<Arc>, a: Arc, s: DeltaState, launches: seq<seq<Arc>>, r: Memory,
                    s': DeltaState)
    requires Stalls(net, o, p, a) && Sane(Path(net, p, a), 0) && s.stage == LightStage
    requires Common(Path(net, p, a), 0, s) && Stalled(p, s)
    requires LightPass(Path(net, p, a), s, launches, r, s')
    ensures Stalled(p, s')
  {
    LightPassStalls(net, o, p, a, s.memory.(changed := false), s.bucket, launches, r);
  }

  /** What a heavy pass over the path may rely on. */
  lemma HeavyTasksAreEarly(net: Network, o: nat, p: seq<Arc>, a: Arc, s: DeltaState, launches: seq<seq<Arc>>)
    requires Stalls(net, o, p, a) && Sane(Path(net, p, a), 0) && Common(Path(net, p, a), 0, s)
    requires s.stage == HeavyStage && Stalled(p, s) && Covers(Path(net, p, a), launches, s.memory.removed)
    ensures EarlyLaunches(p, a, launches) && forall arc :: InLaunches(arc, launches) ==> arc.destination != |p| + 2
    ensures TasksAdmissible(Path(net, p, a), Heavy(s.bucket), s.memory, launches)
  {
    MembersAreEarly(net, o, p, a, s.bucket, s.memory, launches, s.memory.removed);
  }

  /** Unless the tail was removed, no task of the pass ends at the head of the stalling arc. */
  lemma HeadNotReached(net: Network, p: seq<Arc>, a: Arc, m: Memory, b: nat, launches: seq<seq<Arc>>, r: Memory)
    requires Shaped(Path(net, p, a), m) && Covers(Path(net, p, a), launches, m.removed) && !m.removed[|p|]
    requires PassTakes(Path(net, p, a), Heavy(b), launches, m, r)
    ensures Shaped(Path(net, p, a), r) && r.distance[|p| + 1] == m.distance[|p| + 1]
  {
    var path := Path(net, p, a);
    forall arc | InLaunches(arc, launches)
      ensures arc.destination != |p| + 1
    {
      var i :| 0 <= i < |p| + 2 && arc == PathArc(p, a, i);
      assert m.removed[arc.source];
    }
    PassChangesByCounted(path, Heavy(b), launches, m, r, |p| + 1);
  }

  /** A heavy pass succeeds and does not reach the last node; it reaches the head only from a removed tail. */
  lemma HeavyPassStalls(net: Network, o: nat, p: seq<Arc>, a: Arc, s: DeltaState, launches: seq<seq<Arc>>, r: Memory)
    requires Stalls(net, o, p, a) && Sane(Path(net, p, a), 0) && Common(Path(net, p, a), 0, s)
    requires s.stage == HeavyStage && Stalled(p, s)
    requires Covers(Path(net, p, a), launches, s.memory.removed)
    requires PassTakes(Path(net, p, a), Heavy(s.bucket), launches, s.memory, r)
    ensures r.status == SUCCESS && Shaped(Path(net, p, a), r) && r.distance[|p| + 2] == INFINITY
    ensures s.memory.removed[|p|] || r.distance[|p| + 1] == INFINITY
  {
    var path := Path(net, p, a);
    var kind := Heavy(s.bucket);
    HeavyTasksAreEarly(net, o, p, a, s, launches);
    PassSucceeds(net, o, p, a, kind, launches, s.memory, r);
    PassChangesByCounted(path, kind, launches, s.memory, r, |p| + 2);
    if !s.memory.removed[|p|] {
      HeadNotReached(net, p, a, s.memory, s.bucket, launches, r);
    }
  }

  /** After the heavy pass the host either goes on below the stall or finds no further bucket. */
  lemma HeavyStalls(net: Network, o: nat, p: seq<Arc>, a: Arc, s: DeltaState, launches: seq<seq<Arc>>, r: Memory,
                    s': DeltaState)
    requires Stalls(net, o, p, a) && Sane(Path(net, p, a), 0) && s.stage == HeavyStage
    requires Common(Path(net, p, a), 0, s) && LightClosed(Path(net, p, a), 0, s) && Stalled(p, s)
    requires HeavyPass(Path(net, p, a), s, launches, r, s')
    ensures Stalled(p, s')
  {
    HeavyPassStalls(net, o, p, a, s, launches, r);
    HeavyPassRelaxes(Path(net, p, a), 0, s, launches, r);
    if s.memory.removed[|p|] {
      NothingAboveStall(net, o, p, a, s, r);
    } else {
      NeverOverflows(net, o, p, a, r.distance, s.bucket);
    }
  }

  lemma NeverOverflows(net: Network, o: nat, p: seq<Arc>, a: Arc, d: seq<nat>, b: nat)
    requires Stalls(net, o, p, a) && Path(net, p, a).Sound(0, d) && d[|p| + 2] == INFINITY
    ensures NextBucket(net.arithmetic, d, b) != Overflow
    ensures forall v :: 0 <= v < |d| && d[v] < INFINITY ==>
              net.arithmetic.bucket(d[v]).Some?
              && net.arithmetic.bucket(d[v]).value <= net.arithmetic.bucket(net.Cost(p)).value
  {
    forall v | 0 <= v < |d| && d[v] < INFINITY
      ensures net.arithmetic.bucket(d[v]).Some?
      ensures net.arithmetic.bucket(d[v]).value <= net.arithmetic.bucket(net.Cost(p)).value
    {
      assert Path(net, p, a).Attained(0, v, d[v]);
      AttainedOnPath(net, o, p, a, v, d[v]);
      CostAtBounded(net, o, p, a, v);
    }
    NextBucketIsLeast(net.arithmetic, d, b);
  }

  /** If the tail of the stalling arc was removed, its bucket is the last one. */
  lemma NothingAboveStall(net: Network, o: nat, p: seq<Arc>, a: Arc, s: DeltaState, r: Memory)
    requires Stalls(net, o, p, a) && Sane(Path(net, p, a), 0) && Common(Path(net, p, a), 0, s)
    requires s.memory.removed[|p|]
    requires Path(net, p, a).Sound(0, r.distance) && r.distance[|p| + 2] == INFINITY
    ensures NextBucket(net.arithmetic, r.distance, s.bucket) == Exhausted
  {
    var path := Path(net, p, a);
    assert path.Attained(0, |p|, s.memory.distance[|p|]);
    AttainedOnPath(net, o, p, a, |p|, s.memory.distance[|p|]);
    assert p[..|p|] == p;
    NeverOverflows(net, o, p, a, r.distance, s.bucket);
    NextBucketIsLeast(net.arithmetic, r.distance, s.bucket);
  }

  lemma {:induction false} RunStalls(net: Network, o: nat, p: seq<Arc>, a: Arc, states: seq<DeltaState>, i: nat)
    requires Stalls(net, o, p, a) && Sane(Path(net, p, a), 0)
    requires DeltaRun(Path(net, p, a), 0, states) && i < |states|
    ensures Stalled(p, states[i])
  {
    if i > 0 {
      var path := Path(net, p, a);
      RunStalls(net, o, p, a, states, i - 1);
      DeltaRunKeeps(path, 0, states, i - 1);
      assert DeltaStepAt(path, states, i - 1);
      StepStalls(net, o, p, a, states[i - 1], states[i]);
    }
  }

  lemma StepStalls(net: Network, o: nat, p: seq<Arc>, a: Arc, s: DeltaState, s': DeltaState)
    requires Stalls(net, o, p, a) && Sane(Path(net, p, a), 0) && DeltaInvariant(Path(net, p, a), 0, s)
    requires Stalled(p, s) && DeltaStep(Path(net, p, a), s, s')
    ensures Stalled(p, s')
  {
    var path := Path(net, p, a);
    if s' != s.(stage := Stopped) {
      if s.stage == LightStage {
        var launches, r :| LightPass(path, s, launches, r, s');
        LightStalls(net, o, p, a, s, launches, r, s');
      } else {
        var launches, r :| HeavyPass(path, s, launches, r, s');
        HeavyStalls(net, o, p, a, s, launches, r, s');
      }
    }
  }

  /** Every run over the path that ends normally reports its last node, which is reachable, as unreachable. */
  lemma StalledRunIsWrong(net: Network, o: nat, p: seq<Arc>, a: Arc, states: seq<DeltaState>)
    requires Stalls(net, o, p, a) && DeltaRun(Path(net, p, a), 0, states)
    requires states[|states| - 1].stage == Settled
    ensures var d := states[|states| - 1].memory.distance;
            |d| == |p| + 3 && d[|p| + 2] == INFINITY && !Path(net, p, a).Exact(0, d)
  {
    PathIsWellFormed(net, o, p, a);
    RunStalls(net, o, p, a, states, |states| - 1);
    var w := LastIsReachable(net, o, p, a);
  }

  /** A stall gives a network with a run that ends normally and is wrong. */
  lemma StallIsInexact(net: Network, o: nat, p: seq<Arc>, a: Arc) returns (states: seq<DeltaState>)
    requires Stalls(net, o, p, a)
    ensures Sane(Path(net, p, a), 0) && DeltaRun(Path(net, p, a), 0, states)
    ensures states[|states| - 1].stage == Settled
    ensures !Path(net, p, a).Exact(0, states[|states| - 1].memory.distance)
  {
    var path := Path(net, p, a);
    PathIsWellFormed(net, o, p, a);
    var start := [InitialState(path, 0)];
    assert DeltaRun(path, 0, start) by {
      forall i: nat
        ensures DeltaStepAt(path, start, i)
      {
      }
    }
    states := FinishRun(path, 0, start);
    RunStalls(net, o, p, a, states, |states| - 1);
    StalledRunIsWrong(net, o, p, a, states);
  }

  /** The network has this arithmetic, and at most so many nodes and relations. */
  ghost predicate Within(net: Network, arithmetic: Arithmetic, nodes: nat, relations: nat) {
    net.arithmetic == arithmetic && net.nodeCount <= nodes && |net.enabled| <= relations
  }

  /** Delta-stepping ends with exact distances on every network within these bounds. */
  ghost predicate ExactUpTo(arithmetic: Arithmetic, nodes: nat, relations: nat) {
    forall net: Network, o: nat, states: seq<DeltaState> ::
      (Within(net, arithmetic, nodes, relations) && Sane(net, o) && DeltaRun(net, o, states)
       && states[|states| - 1].stage == Settled)
      ==> net.Exact(o, states[|states| - 1].memory.distance)
  }

  /** No heavy arc of any such network stays in the bucket of a walk it extends. */
  ghost predicate AdvancesUpTo(arithmetic: Arithmetic, nodes: nat, relations: nat) {
    forall net: Network, o: nat :: Within(net, arithmetic, nodes, relations) && Sane(net, o) ==> net.HeavyArcsAdvance(o)
  }

  /** The offending walk leaves room for the path: it is laid out on no more nodes than the network has. */
  lemma NotAdvancingStalls(net: Network, o: nat) returns (p: seq<Arc>, a: Arc)
    requires Sane(net, o) && Grounded(net.arithmetic) && !net.HeavyArcsAdvance(o)
    ensures Stalls(net, o, p, a) && Path(net, p, a).nodeCount <= net.nodeCount
  {
    a :| a in net.arcs && net.Enabled(a) && !net.arithmetic.Light(net.Weight(a)) && !net.Advances(o, a);
    p := StayingWalk(net, o, a);
    StayingStalls(net, o, p, a);
  }

  lemma StayingWalk(net: Network, o: nat, a: Arc) returns (p: seq<Arc>)
    requires !net.Advances(o, a)
    ensures net.Walk(o, p, a.source) && |p| + 2 < net.nodeCount
    ensures net.arithmetic.bucket(net.Cost(p)).Some? && net.arithmetic.bucket(net.Extend(net.Cost(p), a)).Some?
    ensures net.arithmetic.bucket(net.Extend(net.Cost(p), a)).value <= net.arithmetic.bucket(net.Cost(p)).value
  {
    p :| net.Walk(o, p, a.source) && net.Simple(o, p) && !net.Visits(o, p, a.destination) && |p| + 2 < net.nodeCount
      && net.arithmetic.bucket(net.Cost(p)).Some? && net.arithmetic.bucket(net.Extend(net.Cost(p), a)).Some?
      && !(net.arithmetic.bucket(net.Cost(p)).value < net.arithmetic.bucket(net.Extend(net.Cost(p), a)).value);
  }

  lemma StayingStalls(net: Network, o: nat, p: seq<Arc>, a: Arc)
    requires Sane(net, o) && Grounded(net.arithmetic)
    requires a in net.arcs && net.Enabled(a) && !net.arithmetic.Light(net.Weight(a)) && net.Walk(o, p, a.source)
    requires net.arithmetic.bucket(net.Cost(p)).Some? && net.arithmetic.bucket(net.Extend(net.Cost(p), a)).Some?
    requires net.arithmetic.bucket(net.Extend(net.Cost(p), a)).value <= net.arithmetic.bucket(net.Cost(p)).value
    ensures Stalls(net, o, p, a)
  {
    CostIsBounded(net, p);
    assert net.Cost(p) <= net.Extend(net.Cost(p), a);
  }

  /** Whatever the bounds, exactness on all networks within them is that heavy arcs advance on all of them. */
  lemma ExactIffAdvances(arithmetic: Arithmetic, nodes: nat, relations: nat)
    requires arithmetic.Lawful() && arithmetic.Bucketed() && Grounded(arithmetic)
    ensures ExactUpTo(arithmetic, nodes, relations) <==> AdvancesUpTo(arithmetic, nodes, relations)
  {
    if AdvancesUpTo(arithmetic, nodes, relations) {
      forall net: Network, o: nat, states: seq<DeltaState> |
          Within(net, arithmetic, nodes, relations) && Sane(net, o) && DeltaRun(net, o, states)
          && states[|states| - 1].stage == Settled
        ensures net.Exact(o, states[|states| - 1].memory.distance)
      {
        SettledIsExact(net, o, states);
      }
    }
    if ExactUpTo(arithmetic, nodes, relations) {
      forall net: Network, o: nat | Within(net, arithmetic, nodes, relations) && Sane(net, o)
        ensures net.HeavyArcsAdvance(o)
      {
        if !net.HeavyArcsAdvance(o) {
          var p, a := NotAdvancingStalls(net, o);
          var states := StallIsInexact(net, o, p, a);
          assert false;
        }
      }
    }
  }
}
