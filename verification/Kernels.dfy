/**
  One kernel launch over a list of compacted tasks, in blocks of any size. The leader of a
  block validates its tasks and adds its share to the work counters before any thread of
  the block passes the block's barrier. Every task is then a device thread with two
  separately scheduled steps: it loads its source distance and decides what to attempt,
  and later it commits a minimum at its destination. A schedule is any sequence of leader
  and thread steps, so a property of every schedule is a property of every interleaving,
  stale source reads included.
 */
module Kernels {
  import opened Basics
  import opened Binary64
  import opened RoutingGraph

  const SUCCESS: nat := 0
  const INVALID_INDEX: nat := 2
  const INVALID_ARITHMETIC: nat := 3
  const BUCKET_UNREPRESENTABLE: nat := 6

  /** The frontier kernel, or the light (class 0) or heavy (class 1) pass of one bucket. */
  datatype Kind = Frontier | Light(bucket: nat) | Heavy(bucket: nat)

  /** The device words the kernels share, with the work counters of the search. */
  datatype Memory = Memory(
    distance: seq<nat>,
    next: seq<bool>,
    removed: seq<bool>,
    changed: bool,
    status: nat,
    examined: nat,
    attempts: nat,
    updates: nat)

  datatype Outcome = Idle | Fault(code: nat) | Attempt(candidate: nat)

  datatype Thread = Pending | Holding(candidate: nat) | Finished

  /** A block leader: before its range, validated, about to add or having added a share, or past the barrier. */
  datatype Leader = Fresh | Validated | AddsExamined | Examined | AddsAttempts | Passed

  datatype Event = LeaderStep(block: nat) | ThreadStep(thread: nat)

  datatype Launch = Launch(memory: Memory, blockSize: nat, leaders: seq<Leader>, threads: seq<Thread>)

  predicate Shaped(net: Network, m: Memory) {
    |m.distance| == |m.next| == |m.removed| == net.nodeCount
  }

  predicate WeightsPass(net: Network, a: Arc) {
    a.relation < |net.multipliers| && FiniteNonNegative(a.base) && FiniteNonNegative(net.multipliers[a.relation])
  }

  /** The block leader's validation of one task; the delta kernels also check the weight words there. */
  function LeaderFault(net: Network, kind: Kind, a: Arc): (r: Option<nat>)
    ensures r.Some? ==> r.value != SUCCESS
  {
    if a.source >= net.nodeCount || a.relation >= |net.enabled| then
      Some(INVALID_INDEX)
    else if net.enabled[a.relation] > 1 || (!kind.Frontier? && !WeightsPass(net, a)) then
      Some(INVALID_ARITHMETIC)
    else
      None
  }

  function Candidate(net: Network, a: Arc, d: nat): Outcome {
    if net.Extend(d, a) >= INFINITY then Fault(INVALID_ARITHMETIC) else Attempt(net.Extend(d, a))
  }

  /** relax_one: what a frontier thread decides after loading source distance d. */
  function RelaxOne(net: Network, a: Arc, d: nat): Outcome {
    if !net.Enabled(a) then
      Idle
    else if a.destination >= net.nodeCount then
      Fault(INVALID_INDEX)
    else if !WeightsPass(net, a) then
      Fault(INVALID_ARITHMETIC)
    else if d >= INFINITY then
      Idle
    else
      Candidate(net, a, d)
  }

  /** delta_relax_one: the same for a light or heavy pass over one bucket. */
  function DeltaRelaxOne(net: Network, kind: Kind, a: Arc, d: nat, removed: bool): Outcome
    requires !kind.Frontier?
  {
    if kind.Light? && d < INFINITY && net.arithmetic.bucket(d).None? then
      Fault(BUCKET_UNREPRESENTABLE)
    else if (kind.Light? && !net.arithmetic.InBucket(d, kind.bucket)) || (kind.Heavy? && !removed) then
      Idle
    else if !net.Enabled(a) || kind.Light? != net.arithmetic.Light(net.Weight(a)) then
      Idle
    else if a.destination >= net.nodeCount then
      Fault(INVALID_INDEX)
    else
      var outcome := Candidate(net, a, d);
      if outcome.Attempt? && net.arithmetic.bucket(outcome.candidate).None? then
        Fault(BUCKET_UNREPRESENTABLE)
      else
        outcome
  }

  function Decide(net: Network, kind: Kind, a: Arc, m: Memory): (r: Outcome)
    requires Shaped(net, m)
    ensures r.Attempt? ==> a.source < net.nodeCount && a.destination < net.nodeCount
  {
    if LeaderFault(net, kind, a).Some? then
      Fault(LeaderFault(net, kind, a).value)
    else if kind.Frontier? then
      RelaxOne(net, a, m.distance[a.source])
    else
      DeltaRelaxOne(net, kind, a, m.distance[a.source], m.removed[a.source])
  }

  /** Whether the block leader counts the task as a relaxation attempt. */
  predicate Counted(net: Network, kind: Kind, a: Arc) {
    net.Enabled(a) && (kind.Frontier? || kind.Light? == net.arithmetic.Light(net.Weight(a)))
  }

  /** The word written while a valid task loads: the removed bit of a light source. */
  function MarkLoaded(net: Network, kind: Kind, a: Arc, m: Memory): (r: Memory)
    requires Shaped(net, m)
    ensures Shaped(net, r)
  {
    if LeaderFault(net, kind, a).Some? then
      m
    else
      m.(removed :=
           if kind.Light? && net.arithmetic.InBucket(m.distance[a.source], kind.bucket)
           then m.removed[a.source := true] else m.removed)
  }

  /** The atomic minimum at the destination and the flags set after a successful exchange. */
  function Commit(net: Network, kind: Kind, a: Arc, candidate: nat, m: Memory): (r: Memory)
    requires Shaped(net, m) && a.destination < net.nodeCount
    ensures Shaped(net, r)
  {
    if candidate < m.distance[a.destination] then
      m.(distance := m.distance[a.destination := candidate],
         next := if kind.Frontier? then m.next[a.destination := true] else m.next,
         changed := m.changed || kind.Frontier?
           || (kind.Light? && net.arithmetic.InBucket(candidate, kind.bucket)),
         updates := m.updates + 1)
    else
      m
  }

  // Blocks.

  function BlockCount(tasks: nat, blockSize: nat): nat
    requires blockSize > 0
  {
    if tasks == 0 then 0 else (tasks - 1) / blockSize + 1
  }

  /** The end of the task range of a block; it starts at block * blockSize. */
  function BlockEnd(tasks: nat, blockSize: nat, block: nat): nat {
    if (block + 1) * blockSize <= tasks then (block + 1) * blockSize else tasks
  }

  lemma ThreadHasLeader(tasks: nat, blockSize: nat, t: nat)
    requires blockSize > 0 && t < tasks
    ensures t / blockSize < BlockCount(tasks, blockSize)
  {
    QuotientIsMonotone(t, tasks - 1, blockSize);
  }

  /** The first task of the range the leader refuses. */
  function FirstFault(net: Network, kind: Kind, tasks: seq<Arc>, lo: nat, hi: nat): (r: Option<nat>)
    requires hi <= |tasks|
    ensures r.Some? ==> r.value != SUCCESS
    decreases hi - lo
  {
    if lo >= hi then None
    else if LeaderFault(net, kind, tasks[lo]).Some? then LeaderFault(net, kind, tasks[lo])
    else FirstFault(net, kind, tasks, lo + 1, hi)
  }

  /** How many tasks of the range are relaxation attempts. */
  function CountedIn(net: Network, kind: Kind, tasks: seq<Arc>, lo: nat, hi: nat): nat
    requires hi <= |tasks|
  {
    if lo >= hi then 0
    else CountedIn(net, kind, tasks, lo, hi - 1) + if Counted(net, kind, tasks[hi - 1]) then 1 else 0
  }

  ghost predicate LaunchShaped(net: Network, tasks: seq<Arc>, s: Launch) {
    && Shaped(net, s.memory)
    && s.blockSize > 0 && |s.leaders| == BlockCount(|tasks|, s.blockSize)
    && |s.threads| == |tasks|
    && (forall t :: 0 <= t < |tasks| && s.threads[t].Holding? ==> tasks[t].destination < net.nodeCount)
  }

  predicate Happens(tasks: seq<Arc>, s: Launch, e: Event) {
    match e
    case LeaderStep(b) => b < |s.leaders|
    case ThreadStep(t) => t < |tasks|
  }

  /** The leader's next atomic access: a status load, the validation of its range, or one of its two adds. */
  function Lead(net: Network, kind: Kind, tasks: seq<Arc>, s: Launch, b: nat): (r: Launch)
    requires b < |s.leaders|
    ensures |r.leaders| == |s.leaders| && r == s.(memory := r.memory, leaders := s.leaders[b := r.leaders[b]])
    ensures r.memory == s.memory.(status := r.memory.status, examined := r.memory.examined,
                                  attempts := r.memory.attempts)
    ensures r.memory.status == SUCCESS ==> s.memory.status == SUCCESS
  {
    var m := s.memory;
    var lo := b * s.blockSize;
    var hi := BlockEnd(|tasks|, s.blockSize, b);
    match s.leaders[b]
    case Fresh =>
      if m.status != SUCCESS then Go(s, b, m, Passed)
      else
        (match FirstFault(net, kind, tasks, lo, hi)
         case Some(code) => Go(s, b, m.(status := code), Passed)
         case None => Go(s, b, m, Validated))
    case Validated => Go(s, b, m, if m.status == SUCCESS then AddsExamined else Passed)
    case AddsExamined => Go(s, b, m.(examined := m.examined + if lo <= hi then hi - lo else 0), Examined)
    case Examined => Go(s, b, m, if m.status == SUCCESS then AddsAttempts else Passed)
    case AddsAttempts => Go(s, b, m.(attempts := m.attempts + CountedIn(net, kind, tasks, lo, hi)), Passed)
    case Passed => s
  }

  function Go(s: Launch, b: nat, m: Memory, leader: Leader): Launch
    requires b < |s.leaders|
  {
    s.(memory := m, leaders := s.leaders[b := leader])
  }

  /** The thread's next step; it waits at the block's barrier, and a finished thread has none. */
  function Work(net: Network, kind: Kind, tasks: seq<Arc>, s: Launch, t: nat): (r: Launch)
    requires LaunchShaped(net, tasks, s) && t < |tasks|
    ensures LaunchShaped(net, tasks, r)
    ensures r == s.(memory := r.memory, threads := s.threads[t := r.threads[t]])
    ensures r.memory.status == SUCCESS ==> s.memory.status == SUCCESS
  {
    var a := tasks[t];
    ThreadHasLeader(|tasks|, s.blockSize, t);
    match s.threads[t]
    case Finished => s
    case Pending =>
      if s.leaders[t / s.blockSize] != Passed then
        s
      else if s.memory.status != SUCCESS then
        s.(threads := s.threads[t := Finished])
      else
        var m := MarkLoaded(net, kind, a, s.memory);
        (match Decide(net, kind, a, s.memory)
         case Idle => s.(memory := m, threads := s.threads[t := Finished])
         case Fault(code) => s.(memory := m.(status := code), threads := s.threads[t := Finished])
         case Attempt(candidate) => s.(memory := m, threads := s.threads[t := Holding(candidate)]))
    case Holding(candidate) =>
      s.(memory := Commit(net, kind, a, candidate, s.memory), threads := s.threads[t := Finished])
  }

  function Advance(net: Network, kind: Kind, tasks: seq<Arc>, s: Launch, e: Event): (r: Launch)
    requires LaunchShaped(net, tasks, s) && Happens(tasks, s, e)
    ensures LaunchShaped(net, tasks, r) && r.blockSize == s.blockSize
    ensures r.memory.status == SUCCESS ==> s.memory.status == SUCCESS
  {
    match e
    case LeaderStep(b) => Lead(net, kind, tasks, s, b)
    case ThreadStep(t) => Work(net, kind, tasks, s, t)
  }

  function Begin(tasks: seq<Arc>, blockSize: nat, m: Memory): Launch
    requires blockSize > 0
  {
    Launch(m, blockSize, seq(BlockCount(|tasks|, blockSize), _ => Fresh), seq(|tasks|, _ => Pending))
  }

  ghost predicate ValidSchedule(tasks: seq<Arc>, blockSize: nat, schedule: seq<Event>) {
    blockSize > 0
    && forall i :: 0 <= i < |schedule| ==> ValidEvent(tasks, blockSize, schedule[i])
  }

  predicate ValidEvent(tasks: seq<Arc>, blockSize: nat, e: Event)
    requires blockSize > 0
  {
    match e
    case LeaderStep(b) => b < BlockCount(|tasks|, blockSize)
    case ThreadStep(t) => t < |tasks|
  }

  ghost function Exec(net: Network, kind: Kind, tasks: seq<Arc>, blockSize: nat, m: Memory, schedule: seq<Event>)
    : (s: Launch)
    requires Shaped(net, m) && ValidSchedule(tasks, blockSize, schedule)
    ensures LaunchShaped(net, tasks, s) && s.blockSize == blockSize
    ensures s.memory.status == SUCCESS ==> m.status == SUCCESS
  {
    if schedule == [] then
      Begin(tasks, blockSize, m)
    else
      Advance(net, kind, tasks, Exec(net, kind, tasks, blockSize, m, schedule[..|schedule| - 1]),
              schedule[|schedule| - 1])
  }

  /** The barrier: every thread has finished. */
  ghost predicate AtBarrier(s: Launch) {
    forall t :: 0 <= t < |s.threads| ==> s.threads[t] == Finished
  }

  /** Whether a launch over tasks, in blocks of some size, can take memory m to memory r. */
  ghost predicate LaunchTakes(net: Network, kind: Kind, tasks: seq<Arc>, m: Memory, r: Memory)
    requires Shaped(net, m)
  {
    exists blockSize: nat, schedule: seq<Event> :: Takes(net, kind, tasks, blockSize, m, schedule, r)
  }

  ghost predicate Takes(net: Network, kind: Kind, tasks: seq<Arc>, blockSize: nat, m: Memory, schedule: seq<Event>,
                        r: Memory)
    requires Shaped(net, m)
  {
    && ValidSchedule(tasks, blockSize, schedule)
    && AtBarrier(Exec(net, kind, tasks, blockSize, m, schedule))
    && Exec(net, kind, tasks, blockSize, m, schedule).memory == r
  }

  /**
    A value a pass of this kind may write; a heavy pass leaves the bucket if heavy arcs advance, or writes the
    topmost label.
   */
  ghost predicate Fits(net: Network, o: nat, kind: Kind, distance: seq<nat>, x: nat) {
    match kind
    case Frontier => true
    case Light(b) => net.arithmetic.bucket(x).Some? && b <= net.arithmetic.bucket(x).value
    case Heavy(b) =>
      && net.arithmetic.bucket(x).Some? && b <= net.arithmetic.bucket(x).value
      && (net.HeavyArcsAdvance(o) ==> b < net.arithmetic.bucket(x).value || net.Topmost(distance, x))
  }

  /** What the host guarantees of a task when the pass starts from memory m0. */
  ghost predicate Admissible(net: Network, kind: Kind, m0: Memory, a: Arc)
    requires Shaped(net, m0)
  {
    && a in net.arcs
    && a.source < net.nodeCount && a.destination < net.nodeCount
    && (kind.Frontier? || net.arithmetic.InBucket(m0.distance[a.source], kind.bucket))
    && (kind.Heavy? ==> m0.removed[a.source])
  }

  ghost predicate HasArc(net: Network, v: nat) {
    exists a :: a in net.arcs && a.source == v
  }

  /** The flags agree with what changed since the pass started. */
  ghost predicate FlagsAgree(net: Network, kind: Kind, m0: Memory, m: Memory)
    requires Shaped(net, m0) && Shaped(net, m)
  {
    match kind
    case Frontier =>
      && (forall v :: 0 <= v < net.nodeCount ==> (m.next[v] <==> m.distance[v] < m0.distance[v]))
      && (m.changed <==> exists v :: 0 <= v < net.nodeCount && m.next[v])
    case Light(b) =>
      && (!m.changed ==> forall v :: 0 <= v < net.nodeCount && m.distance[v] != m0.distance[v]
                           ==> !net.arithmetic.InBucket(m.distance[v], b))
      && (m.changed ==> exists v :: 0 <= v < net.nodeCount && m.distance[v] < m0.distance[v])
      && (forall v :: 0 <= v < net.nodeCount && m0.removed[v] ==> m.removed[v])
      && (forall v :: 0 <= v < net.nodeCount && m.removed[v] && !m0.removed[v]
            ==> net.arithmetic.InBucket(m0.distance[v], b) && HasArc(net, v))
    case Heavy(b) => m.removed == m0.removed
  }

  /** What a successful pass has done so far, whatever the interleaving. */
  ghost predicate Progress(net: Network, o: nat, kind: Kind, m0: Memory, m: Memory)
    requires Shaped(net, m0)
  {
    && Shaped(net, m)
    && net.Sound(o, m.distance) && net.Supported(o, m.distance)
    && (forall v :: 0 <= v < net.nodeCount ==> m.distance[v] <= m0.distance[v])
    && (forall v :: 0 <= v < net.nodeCount && m.distance[v] != m0.distance[v] ==>
          Fits(net, o, kind, m.distance, m.distance[v]))
    && FlagsAgree(net, kind, m0, m)
  }

  /** The task has had its effect: its destination is at most the relaxation of the pass's initial source distance. */
  ghost predicate TaskDone(net: Network, kind: Kind, m0: Memory, m: Memory, a: Arc)
    requires Shaped(net, m0) && Shaped(net, m)
  {
    && a.source < net.nodeCount && a.destination < net.nodeCount
    && (Counted(net, kind, a) ==> m.distance[a.destination] <= net.Extend(m0.distance[a.source], a))
    && (kind.Light? ==> m.removed[a.source])
  }

  /** The candidate extends, by the thread's arc, a walk that is still traced. */
  ghost predicate HeldBy(net: Network, o: nat, kind: Kind, m: Memory, a: Arc, candidate: nat, p: seq<Arc>) {
    && net.Traced(o, m.distance, p, a.source) && a in net.arcs && net.Enabled(a)
    && candidate == net.Extend(net.Cost(p), a) && candidate < INFINITY
    && (!kind.Frontier? ==>
          && net.arithmetic.InBucket(net.Cost(p), kind.bucket) && net.arithmetic.bucket(candidate).Some?
          && kind.Light? == net.arithmetic.Light(net.Weight(a)))
  }

  ghost predicate ThreadSafe(net: Network, o: nat, kind: Kind, m0: Memory, m: Memory, a: Arc, thread: Thread)
    requires Shaped(net, m0) && Shaped(net, m) && a.source < net.nodeCount && a.destination < net.nodeCount
  {
    match thread
    case Pending => true
    case Finished => TaskDone(net, kind, m0, m, a)
    case Holding(candidate) =>
      && candidate <= net.Extend(m0.distance[a.source], a)
      && (exists p :: HeldBy(net, o, kind, m, a, candidate, p))
      && (kind.Light? ==> m.removed[a.source])
  }

  ghost predicate AllAdmissible(net: Network, kind: Kind, m0: Memory, tasks: seq<Arc>)
    requires Shaped(net, m0)
  {
    forall t :: 0 <= t < |tasks| ==> Admissible(net, kind, m0, tasks[t])
  }

  ghost predicate LaunchSafe(net: Network, o: nat, kind: Kind, m0: Memory, tasks: seq<Arc>, s: Launch)
    requires Shaped(net, m0) && AllAdmissible(net, kind, m0, tasks) && LaunchShaped(net, tasks, s)
  {
    s.memory.status == SUCCESS ==>
      && Progress(net, o, kind, m0, s.memory)
      && (forall t :: 0 <= t < |tasks| ==> ThreadSafe(net, o, kind, m0, s.memory, tasks[t], s.threads[t]))
  }

  /** An admissible source stays in its bucket. */
  lemma SourceStays(net: Network, o: nat, kind: Kind, m0: Memory, m: Memory, a: Arc)
    requires net.WellFormed() && net.arithmetic.Bucketed() && !kind.Frontier?
    requires Shaped(net, m0) && Progress(net, o, kind, m0, m) && Admissible(net, kind, m0, a)
    ensures net.arithmetic.InBucket(m.distance[a.source], kind.bucket)
  {
    var x := m.distance[a.source];
    assert x <= m0.distance[a.source];
    assert net.arithmetic.bucket(x).Some? && net.arithmetic.bucket(x).value <= kind.bucket;
  }

  /** A load that leads to an attempt has a traced walk behind it. */
  lemma AttemptIsHeld(net: Network, o: nat, kind: Kind, m0: Memory, m: Memory, a: Arc)
    requires net.WellFormed() && (kind.Frontier? || net.arithmetic.Bucketed())
    requires Shaped(net, m0) && Progress(net, o, kind, m0, m) && Admissible(net, kind, m0, a)
    requires Decide(net, kind, a, m).Attempt?
    ensures exists p :: HeldBy(net, o, kind, MarkLoaded(net, kind, a, m), a, Decide(net, kind, a, m).candidate, p)
  {
    var d := m.distance[a.source];
    assert net.Labelled(o, m.distance, a.source, d);
    var candidate := Decide(net, kind, a, m).candidate;
    assert candidate == net.Extend(d, a) && candidate < INFINITY && d < INFINITY;
    if !kind.Frontier? {
      SourceStays(net, o, kind, m0, m, a);
    }
    var p :| net.Traced(o, m.distance, p, a.source) && net.Cost(p) == d;
    assert HeldBy(net, o, kind, MarkLoaded(net, kind, a, m), a, candidate, p);
  }

  /** What a thread decides on a stale or fresh load is safe to commit later. */
  lemma DecisionIsSafe(net: Network, o: nat, kind: Kind, m0: Memory, m: Memory, a: Arc)
    requires net.WellFormed() && (kind.Frontier? || net.arithmetic.Bucketed())
    requires Shaped(net, m0) && Progress(net, o, kind, m0, m) && Admissible(net, kind, m0, a)
    ensures Decide(net, kind, a, m).Attempt? ==>
              ThreadSafe(net, o, kind, m0, MarkLoaded(net, kind, a, m), a,
                         Holding(Decide(net, kind, a, m).candidate))
    ensures Decide(net, kind, a, m).Idle? ==>
              TaskDone(net, kind, m0, MarkLoaded(net, kind, a, m), a)
  {
    var d := m.distance[a.source];
    assert net.Attained(o, a.source, d);
    ExtendIsMonotone(net, d, m0.distance[a.source], a);
    AttainedIsBounded(net, o, a.source, d);
    if !kind.Frontier? {
      SourceStays(net, o, kind, m0, m, a);
    }
    match Decide(net, kind, a, m) {
      case Attempt(candidate) =>
        assert candidate == net.Extend(d, a);
        AttemptIsHeld(net, o, kind, m0, m, a);
      case Fault(_) =>
      case Idle =>
        if Counted(net, kind, a) {
          assert kind.Frontier? && d == INFINITY;
          assert net.Attained(o, a.destination, m.distance[a.destination]);
          AttainedIsBounded(net, o, a.destination, m.distance[a.destination]);
        }
    }
  }

  /** Loading touches only the removed bits and the counts. */
  lemma LoadKeepsProgress(net: Network, o: nat, kind: Kind, m0: Memory, m: Memory, a: Arc)
    requires net.WellFormed() && (kind.Frontier? || net.arithmetic.Bucketed())
    requires Shaped(net, m0) && Progress(net, o, kind, m0, m) && Admissible(net, kind, m0, a)
    ensures Progress(net, o, kind, m0, MarkLoaded(net, kind, a, m))
  {
    if kind.Light? {
      SourceStays(net, o, kind, m0, m, a);
    }
  }

  /** A load that faults nothing leaves the marked memory, and its thread holding a candidate or done. */
  lemma LoadResult(net: Network, kind: Kind, tasks: seq<Arc>, s: Launch, t: nat)
    requires LaunchShaped(net, tasks, s) && t < |tasks| && s.threads[t].Pending?
    requires Work(net, kind, tasks, s, t) != s && Work(net, kind, tasks, s, t).memory.status == SUCCESS
    ensures var r := Work(net, kind, tasks, s, t);
            var outcome := Decide(net, kind, tasks[t], s.memory);
            && s.memory.status == SUCCESS
            && r.memory == MarkLoaded(net, kind, tasks[t], s.memory)
            && ((outcome.Attempt? && r.threads[t] == Holding(outcome.candidate))
                || (outcome.Idle? && r.threads[t] == Finished))
  {
  }

  lemma LoadedThread(net: Network, o: nat, kind: Kind, m0: Memory, tasks: seq<Arc>, s: Launch, t: nat)
    requires net.WellFormed() && (kind.Frontier? || net.arithmetic.Bucketed())
    requires Shaped(net, m0) && LaunchShaped(net, tasks, s) && t < |tasks| && s.threads[t].Pending?
    requires Progress(net, o, kind, m0, s.memory) && Admissible(net, kind, m0, tasks[t])
    requires Work(net, kind, tasks, s, t) != s && Work(net, kind, tasks, s, t).memory.status == SUCCESS
    ensures var r := Work(net, kind, tasks, s, t);
            ThreadSafe(net, o, kind, m0, r.memory, tasks[t], r.threads[t])
  {
    LoadResult(net, kind, tasks, s, t);
    DecisionIsSafe(net, o, kind, m0, s.memory, tasks[t]);
  }

  lemma MarkLoadedKeeps(net: Network, kind: Kind, a: Arc, m: Memory)
    requires Shaped(net, m)
    ensures MarkLoaded(net, kind, a, m).distance == m.distance
    ensures forall v :: 0 <= v < net.nodeCount && m.removed[v] ==> MarkLoaded(net, kind, a, m).removed[v]
  {
  }

  /** Lower distances and more removed bits do not endanger a thread. */
  lemma ThreadSurvives(net: Network, o: nat, kind: Kind, m0: Memory, m: Memory, r: Memory, a: Arc, thread: Thread)
    requires Shaped(net, m0) && Shaped(net, m) && Shaped(net, r)
    requires a.source < net.nodeCount && a.destination < net.nodeCount
    requires ThreadSafe(net, o, kind, m0, m, a, thread)
    requires forall v :: 0 <= v < net.nodeCount ==> r.distance[v] <= m.distance[v]
    requires m.removed[a.source] ==> r.removed[a.source]
    ensures ThreadSafe(net, o, kind, m0, r, a, thread)
  {
    if thread.Holding? {
      var p :| HeldBy(net, o, kind, m, a, thread.candidate, p);
      TracedStays(net, o, m.distance, r.distance, p, a.source);
      assert HeldBy(net, o, kind, r, a, thread.candidate, p);
    }
  }

  lemma ThreadsSurvive(net: Network, o: nat, kind: Kind, m0: Memory, tasks: seq<Arc>, s: Launch, r: Launch, t: nat)
    requires Shaped(net, m0) && AllAdmissible(net, kind, m0, tasks)
    requires LaunchShaped(net, tasks, s) && LaunchShaped(net, tasks, r) && t < |tasks|
    requires forall i :: 0 <= i < |tasks| ==> ThreadSafe(net, o, kind, m0, s.memory, tasks[i], s.threads[i])
    requires r.threads == s.threads[t := r.threads[t]]
    requires ThreadSafe(net, o, kind, m0, r.memory, tasks[t], r.threads[t])
    requires forall v :: 0 <= v < net.nodeCount ==> r.memory.distance[v] <= s.memory.distance[v]
    requires forall v :: 0 <= v < net.nodeCount && s.memory.removed[v] ==> r.memory.removed[v]
    ensures forall i :: 0 <= i < |tasks| ==> ThreadSafe(net, o, kind, m0, r.memory, tasks[i], r.threads[i])
  {
    forall i | 0 <= i < |tasks|
      ensures ThreadSafe(net, o, kind, m0, r.memory, tasks[i], r.threads[i])
    {
      if i != t {
        assert Admissible(net, kind, m0, tasks[i]);
        ThreadSurvives(net, o, kind, m0, s.memory, r.memory, tasks[i], s.threads[i]);
      }
    }
  }

  lemma LoadKeeps(net: Network, o: nat, kind: Kind, m0: Memory, tasks: seq<Arc>, s: Launch, t: nat)
    requires net.WellFormed() && (kind.Frontier? || net.arithmetic.Bucketed())
    requires Shaped(net, m0) && AllAdmissible(net, kind, m0, tasks)
    requires LaunchShaped(net, tasks, s) && LaunchSafe(net, o, kind, m0, tasks, s)
    requires t < |tasks| && s.threads[t].Pending?
    ensures LaunchSafe(net, o, kind, m0, tasks, Work(net, kind, tasks, s, t))
  {
    var r := Work(net, kind, tasks, s, t);
    if r != s && r.memory.status == SUCCESS {
      LoadResult(net, kind, tasks, s, t);
      LoadedThread(net, o, kind, m0, tasks, s, t);
      LoadKeepsProgress(net, o, kind, m0, s.memory, tasks[t]);
      MarkLoadedKeeps(net, kind, tasks[t], s.memory);
      ThreadsSurvive(net, o, kind, m0, tasks, s, r, t);
    }
  }

  lemma CommitFlags(net: Network, o: nat, kind: Kind, m0: Memory, m: Memory, a: Arc, candidate: nat)
    requires Shaped(net, m0) && Progress(net, o, kind, m0, m) && a.destination < net.nodeCount
    requires candidate < m.distance[a.destination]
    ensures FlagsAgree(net, kind, m0, Commit(net, kind, a, candidate, m))
  {
    var r := Commit(net, kind, a, candidate, m);
    assert r.distance[a.destination] < m0.distance[a.destination];
    if kind.Frontier? {
      assert r.next[a.destination];
    }
  }

  /** A committed improvement fits its pass: in no earlier bucket, and a heavy one in a later bucket or on top. */
  lemma ImprovementFits(net: Network, o: nat, kind: Kind, m: Memory, a: Arc, candidate: nat, p: seq<Arc>)
    requires net.WellFormed() && (kind.Frontier? || net.arithmetic.Bucketed()) && Shaped(net, m)
    requires HeldBy(net, o, kind, m, a, candidate, p) && a.destination < net.nodeCount
    requires candidate < m.distance[a.destination]
    ensures Fits(net, o, kind, m.distance[a.destination := candidate], candidate)
  {
    CostIsBounded(net, p);
    ImprovedIsNew(net, o, m.distance, p, a);
    if kind.Heavy? && net.HeavyArcsAdvance(o) {
      if |p| + 2 < net.nodeCount {
        assert net.Advances(o, a);
      } else {
        LastImprovement(net, o, m.distance, p, a);
      }
    }
  }

  /** An improvement whose walk meets every node is the topmost label. */
  lemma LastImprovement(net: Network, o: nat, distance: seq<nat>, p: seq<Arc>, a: Arc)
    requires net.WellFormed() && |distance| == net.nodeCount && net.Traced(o, distance, p, a.source)
    requires a in net.arcs && net.Enabled(a) && net.Extend(net.Cost(p), a) < distance[a.destination]
    requires |p| + 2 >= net.nodeCount
    ensures net.Topmost(distance[a.destination := net.Extend(net.Cost(p), a)], net.Extend(net.Cost(p), a))
  {
    assert NodeAt(o, p, 0) == o;
    CandidateIsTraced(net, o, distance, p, a);
    SimpleIsShort(net, o, p + [a], a.destination);
    SpanningIsTopmost(net, o, distance[a.destination := net.Extend(net.Cost(p), a)], p + [a], a.destination);
  }

  /** A committed improvement is traced, and so is every other label. */
  lemma ImprovementIsSupported(net: Network, o: nat, kind: Kind, m: Memory, a: Arc, candidate: nat, p: seq<Arc>)
    requires net.WellFormed() && Shaped(net, m) && net.Supported(o, m.distance)
    requires HeldBy(net, o, kind, m, a, candidate, p) && a.destination < net.nodeCount
    requires candidate < m.distance[a.destination]
    ensures net.Supported(o, m.distance[a.destination := candidate])
    ensures net.Sound(o, m.distance[a.destination := candidate])
  {
    var e := m.distance[a.destination := candidate];
    CandidateIsTraced(net, o, m.distance, p, a);
    forall v | 0 <= v < net.nodeCount
      ensures net.Labelled(o, e, v, e[v])
    {
      if v != a.destination {
        assert net.Labelled(o, m.distance, v, m.distance[v]);
        LabelledStays(net, o, m.distance, e, v, m.distance[v]);
      }
    }
    SupportedIsSound(net, o, e);
  }

  lemma CommitKeepsProgress(net: Network, o: nat, kind: Kind, m0: Memory, m: Memory, a: Arc, candidate: nat,
                            p: seq<Arc>)
    requires net.WellFormed() && (kind.Frontier? || net.arithmetic.Bucketed())
    requires Shaped(net, m0) && Progress(net, o, kind, m0, m) && a.destination < net.nodeCount
    requires HeldBy(net, o, kind, m, a, candidate, p)
    ensures Progress(net, o, kind, m0, Commit(net, kind, a, candidate, m))
  {
    if candidate < m.distance[a.destination] {
      CommitFlags(net, o, kind, m0, m, a, candidate);
      ImprovementFits(net, o, kind, m, a, candidate, p);
      ImprovementIsSupported(net, o, kind, m, a, candidate, p);
    }
  }

  lemma CommitDescends(net: Network, kind: Kind, a: Arc, candidate: nat, m: Memory)
    requires Shaped(net, m) && a.destination < net.nodeCount
    ensures Commit(net, kind, a, candidate, m).distance[a.destination] <= candidate
    ensures forall v :: 0 <= v < net.nodeCount ==> Commit(net, kind, a, candidate, m).distance[v] <= m.distance[v]
    ensures Commit(net, kind, a, candidate, m).removed == m.removed
  {
  }

  lemma CommitKeeps(net: Network, o: nat, kind: Kind, m0: Memory, tasks: seq<Arc>, s: Launch, t: nat)
    requires net.WellFormed() && (kind.Frontier? || net.arithmetic.Bucketed())
    requires Shaped(net, m0) && AllAdmissible(net, kind, m0, tasks)
    requires LaunchShaped(net, tasks, s) && LaunchSafe(net, o, kind, m0, tasks, s)
    requires t < |tasks| && s.threads[t].Holding?
    ensures LaunchSafe(net, o, kind, m0, tasks, Work(net, kind, tasks, s, t))
  {
    var r := Work(net, kind, tasks, s, t);
    if r.memory.status == SUCCESS {
      var a := tasks[t];
      var candidate := s.threads[t].candidate;
      assert Admissible(net, kind, m0, a);
      assert ThreadSafe(net, o, kind, m0, s.memory, a, s.threads[t]);
      var p :| HeldBy(net, o, kind, s.memory, a, candidate, p);
      CommitKeepsProgress(net, o, kind, m0, s.memory, a, candidate, p);
      CommitDescends(net, kind, a, candidate, s.memory);
      ThreadsSurvive(net, o, kind, m0, tasks, s, r, t);
    }
  }

  /** Words the leaders write are none of the words the threads rely on. */
  lemma LeadKeeps(net: Network, o: nat, kind: Kind, m0: Memory, tasks: seq<Arc>, s: Launch, b: nat)
    requires Shaped(net, m0) && AllAdmissible(net, kind, m0, tasks)
    requires LaunchShaped(net, tasks, s) && LaunchSafe(net, o, kind, m0, tasks, s) && b < |s.leaders|
    ensures LaunchShaped(net, tasks, Lead(net, kind, tasks, s, b))
    ensures LaunchSafe(net, o, kind, m0, tasks, Lead(net, kind, tasks, s, b))
  {
    var r := Lead(net, kind, tasks, s, b);
    if r.memory.status == SUCCESS {
      forall i | 0 <= i < |tasks|
        ensures ThreadSafe(net, o, kind, m0, r.memory, tasks[i], r.threads[i])
      {
        assert Admissible(net, kind, m0, tasks[i]);
        ThreadSurvives(net, o, kind, m0, s.memory, r.memory, tasks[i], s.threads[i]);
      }
    }
  }

  /** Every schedule keeps the launch safe, starting from any point of the pass. */
  lemma {:induction false} ExecKeeps(net: Network, o: nat, kind: Kind, m0: Memory, tasks: seq<Arc>, blockSize: nat,
                                     m: Memory, schedule: seq<Event>)
    requires net.WellFormed() && (kind.Frontier? || net.arithmetic.Bucketed())
    requires Shaped(net, m0) && AllAdmissible(net, kind, m0, tasks)
    requires Shaped(net, m) && Progress(net, o, kind, m0, m) && ValidSchedule(tasks, blockSize, schedule)
    ensures LaunchSafe(net, o, kind, m0, tasks, Exec(net, kind, tasks, blockSize, m, schedule))
  {
    if schedule != [] {
      var before := Exec(net, kind, tasks, blockSize, m, schedule[..|schedule| - 1]);
      ExecKeeps(net, o, kind, m0, tasks, blockSize, m, schedule[..|schedule| - 1]);
      match schedule[|schedule| - 1] {
        case LeaderStep(b) => LeadKeeps(net, o, kind, m0, tasks, before, b);
        case ThreadStep(t) =>
          if before.threads[t].Pending? {
            LoadKeeps(net, o, kind, m0, tasks, before, t);
          } else if before.threads[t].Holding? {
            CommitKeeps(net, o, kind, m0, tasks, before, t);
          }
      }
    }
  }

  /**
    After a successful launch the pass has progressed and every task of the launch is done,
    for every block size, every interleaving and every stale read.
   */
  lemma LaunchOutcome(net: Network, o: nat, kind: Kind, m0: Memory, tasks: seq<Arc>, m: Memory, r: Memory)
    requires net.WellFormed() && (kind.Frontier? || net.arithmetic.Bucketed())
    requires Shaped(net, m0) && AllAdmissible(net, kind, m0, tasks)
    requires Shaped(net, m) && Progress(net, o, kind, m0, m)
    requires LaunchTakes(net, kind, tasks, m, r) && r.status == SUCCESS
    ensures m.status == SUCCESS && Progress(net, o, kind, m0, r)
    ensures forall t :: 0 <= t < |tasks| ==> TaskDone(net, kind, m0, r, tasks[t])
    ensures forall a :: TaskDone(net, kind, m0, m, a) ==> TaskDone(net, kind, m0, r, a)
  {
    var blockSize: nat, schedule: seq<Event> :| Takes(net, kind, tasks, blockSize, m, schedule, r);
    ExecKeeps(net, o, kind, m0, tasks, blockSize, m, schedule);
    ExecDescends(net, kind, tasks, blockSize, m, schedule);
    forall t | 0 <= t < |tasks|
      ensures TaskDone(net, kind, m0, r, tasks[t])
    {
      var s := Exec(net, kind, tasks, blockSize, m, schedule);
      assert ThreadSafe(net, o, kind, m0, s.memory, tasks[t], s.threads[t]);
    }
  }

  lemma AdvanceDescends(net: Network, kind: Kind, tasks: seq<Arc>, s: Launch, e: Event)
    requires LaunchShaped(net, tasks, s) && Happens(tasks, s, e)
    ensures forall v :: 0 <= v < net.nodeCount ==>
              Advance(net, kind, tasks, s, e).memory.distance[v] <= s.memory.distance[v]
    ensures forall v :: 0 <= v < net.nodeCount && s.memory.removed[v] ==>
              Advance(net, kind, tasks, s, e).memory.removed[v]
  {
  }

  /** A launch never raises a distance and never clears a removed bit, even when it faults. */
  lemma {:induction false} ExecDescends(net: Network, kind: Kind, tasks: seq<Arc>, blockSize: nat, m: Memory,
                                        schedule: seq<Event>)
    requires Shaped(net, m) && ValidSchedule(tasks, blockSize, schedule)
    ensures forall v :: 0 <= v < net.nodeCount ==>
              Exec(net, kind, tasks, blockSize, m, schedule).memory.distance[v] <= m.distance[v]
    ensures forall v :: 0 <= v < net.nodeCount && m.removed[v] ==>
              Exec(net, kind, tasks, blockSize, m, schedule).memory.removed[v]
  {
    if schedule != [] {
      var earlier := schedule[..|schedule| - 1];
      ExecDescends(net, kind, tasks, blockSize, m, earlier);
      AdvanceDescends(net, kind, tasks, Exec(net, kind, tasks, blockSize, m, earlier), schedule[|schedule| - 1]);
    }
  }

  // Why a launch can fail.

  /** What a status word says about the network: it is left at success, or some walk outgrows the numbers. */
  ghost predicate StatusMeans(net: Network, o: nat, kind: Kind, status: nat) {
    || status == SUCCESS
    || (status == INVALID_ARITHMETIC && net.Overflows(o))
    || (status == BUCKET_UNREPRESENTABLE && !kind.Frontier? && net.Outgrows(o))
  }

  lemma ArcsPass(net: Network, kind: Kind, a: Arc)
    requires net.WellFormed() && a in net.arcs
    ensures LeaderFault(net, kind, a) == None && WeightsPass(net, a)
  {
  }

  lemma {:induction false} NoLeaderFault(net: Network, kind: Kind, tasks: seq<Arc>, lo: nat, hi: nat)
    requires net.WellFormed() && hi <= |tasks| && forall t :: 0 <= t < |tasks| ==> tasks[t] in net.arcs
    ensures FirstFault(net, kind, tasks, lo, hi) == None
    decreases hi - lo
  {
    if lo < hi {
      ArcsPass(net, kind, tasks[lo]);
      NoLeaderFault(net, kind, tasks, lo + 1, hi);
    }
  }

  lemma LeadSucceeds(net: Network, kind: Kind, tasks: seq<Arc>, s: Launch, b: nat)
    requires net.WellFormed() && forall t :: 0 <= t < |tasks| ==> tasks[t] in net.arcs
    requires b < |s.leaders|
    ensures Lead(net, kind, tasks, s, b).memory.status == s.memory.status
  {
    NoLeaderFault(net, kind, tasks, b * s.blockSize, BlockEnd(|tasks|, s.blockSize, b));
  }

  /** The walk behind a label, extended by an enabled arc, is a walk with no more arcs than nodes. */
  lemma LabelWalk(net: Network, o: nat, distance: seq<nat>, a: Arc) returns (p: seq<Arc>)
    requires net.WellFormed() && net.Supported(o, distance) && a in net.arcs && net.Enabled(a)
    requires distance[a.source] < INFINITY
    ensures net.Walk(o, p, a.source) && net.Cost(p) == distance[a.source] && |p| < net.nodeCount
    ensures net.Walk(o, p + [a], a.destination) && net.Cost(p + [a]) == net.Extend(distance[a.source], a) <= INFINITY
  {
    assert net.Labelled(o, distance, a.source, distance[a.source]);
    p :| net.Traced(o, distance, p, a.source) && net.Cost(p) == distance[a.source];
    assert NodeAt(o, p, 0) == o;
    SimpleIsShort(net, o, p, a.source);
    AppendArc(net, o, p, a);
    CostIsBounded(net, p + [a]);
  }

  /** A thread that faults has met a walk whose cost is infinite or has no bucket. */
  lemma FaultHasCause(net: Network, o: nat, kind: Kind, m0: Memory, m: Memory, a: Arc)
    requires net.WellFormed() && (kind.Frontier? || net.arithmetic.Bucketed())
    requires Shaped(net, m0) && Progress(net, o, kind, m0, m) && Admissible(net, kind, m0, a)
    requires Decide(net, kind, a, m).Fault?
    ensures StatusMeans(net, o, kind, Decide(net, kind, a, m).code) && Decide(net, kind, a, m).code != SUCCESS
  {
    ArcsPass(net, kind, a);
    if !kind.Frontier? {
      SourceStays(net, o, kind, m0, m, a);
    }
    var p := LabelWalk(net, o, m.distance, a);
    assert net.Walk(o, p + [a], a.destination) && |p + [a]| <= net.nodeCount;
  }

  lemma WorkStatus(net: Network, o: nat, kind: Kind, m0: Memory, tasks: seq<Arc>, s: Launch, t: nat)
    requires net.WellFormed() && (kind.Frontier? || net.arithmetic.Bucketed())
    requires Shaped(net, m0) && AllAdmissible(net, kind, m0, tasks)
    requires LaunchShaped(net, tasks, s) && LaunchSafe(net, o, kind, m0, tasks, s) && t < |tasks|
    requires StatusMeans(net, o, kind, s.memory.status)
    ensures StatusMeans(net, o, kind, Work(net, kind, tasks, s, t).memory.status)
  {
    assert Admissible(net, kind, m0, tasks[t]);
    if s.memory.status == SUCCESS && Decide(net, kind, tasks[t], s.memory).Fault? {
      FaultHasCause(net, o, kind, m0, s.memory, tasks[t]);
    }
  }

  /** Along every schedule the status stays at success or has its cause. */
  lemma {:induction false} ExecStatus(net: Network, o: nat, kind: Kind, m0: Memory, tasks: seq<Arc>, blockSize: nat,
                                      m: Memory, schedule: seq<Event>)
    requires net.WellFormed() && (kind.Frontier? || net.arithmetic.Bucketed())
    requires Shaped(net, m0) && AllAdmissible(net, kind, m0, tasks)
    requires Shaped(net, m) && Progress(net, o, kind, m0, m) && ValidSchedule(tasks, blockSize, schedule)
    requires StatusMeans(net, o, kind, m.status)
    ensures StatusMeans(net, o, kind, Exec(net, kind, tasks, blockSize, m, schedule).memory.status)
  {
    if schedule != [] {
      var before := Exec(net, kind, tasks, blockSize, m, schedule[..|schedule| - 1]);
      ExecStatus(net, o, kind, m0, tasks, blockSize, m, schedule[..|schedule| - 1]);
      ExecKeeps(net, o, kind, m0, tasks, blockSize, m, schedule[..|schedule| - 1]);
      match schedule[|schedule| - 1] {
        case LeaderStep(b) =>
          forall t | 0 <= t < |tasks|
            ensures tasks[t] in net.arcs
          {
            assert Admissible(net, kind, m0, tasks[t]);
          }
          LeadSucceeds(net, kind, tasks, before, b);
        case ThreadStep(t) => WorkStatus(net, o, kind, m0, tasks, before, t);
      }
    }
  }

  /** Once a launch has failed, its status stays as it is. */
  lemma {:induction false} StatusStays(net: Network, kind: Kind, tasks: seq<Arc>, blockSize: nat, m: Memory,
                                       schedule: seq<Event>)
    requires Shaped(net, m) && ValidSchedule(tasks, blockSize, schedule) && m.status != SUCCESS
    ensures Exec(net, kind, tasks, blockSize, m, schedule).memory.status == m.status
  {
    if schedule != [] {
      StatusStays(net, kind, tasks, blockSize, m, schedule[..|schedule| - 1]);
    }
  }

  /** A launch over the network's own arcs fails only if some walk outgrows the numbers. */
  lemma LaunchStatusHasCause(net: Network, o: nat, kind: Kind, m0: Memory, tasks: seq<Arc>, m: Memory, r: Memory)
    requires net.WellFormed() && (kind.Frontier? || net.arithmetic.Bucketed())
    requires Shaped(net, m0) && AllAdmissible(net, kind, m0, tasks) && Shaped(net, m)
    requires m.status == SUCCESS ==> Progress(net, o, kind, m0, m)
    requires StatusMeans(net, o, kind, m.status) && LaunchTakes(net, kind, tasks, m, r)
    ensures StatusMeans(net, o, kind, r.status)
  {
    var blockSize: nat, schedule: seq<Event> :| Takes(net, kind, tasks, blockSize, m, schedule, r);
    if m.status == SUCCESS {
      ExecStatus(net, o, kind, m0, tasks, blockSize, m, schedule);
    } else {
      StatusStays(net, kind, tasks, blockSize, m, schedule);
    }
  }
}
