/**
  Delta-stepping makes progress: every launch can reach its barrier, every turn of the
  host lowers a rank, and so every network has a run that ends.
 */
module DeltaProgress {
  import opened Binary64
  import opened RoutingGraph
  import opened Kernels
  import opened Passes
  import opened FrontierSearch
  import opened DeltaSearch

  function Sum(d: seq<nat>): nat {
    if d == [] then 0 else Sum(d[..|d| - 1]) + d[|d| - 1]
  }

  lemma {:induction false} SumFalls(d: seq<nat>, e: seq<nat>)
    requires |d| == |e| && forall v :: 0 <= v < |d| ==> e[v] <= d[v]
    ensures Sum(e) <= Sum(d)
    ensures (exists v :: 0 <= v < |d| && e[v] < d[v]) ==> Sum(e) < Sum(d)
  {
    if d != [] {
      SumFalls(d[..|d| - 1], e[..|e| - 1]);
      if v :| 0 <= v < |d| && e[v] < d[v] {
        if v < |d| - 1 {
          assert e[..|e| - 1][v] < d[..|d| - 1][v];
        }
      }
    }
  }

  predicate InLoop(s: DeltaState) {
    s.stage == LightStage || s.stage == HeavyStage
  }

  /** The rank of a state: unsettled nodes, then the stage, then the sum of the distance words. */
  ghost predicate RankFalls(net: Network, s: DeltaState, s': DeltaState) {
    var before := Unsettled(net, s.memory.distance, s.bucket);
    var after := Unsettled(net, s'.memory.distance, s'.bucket);
    || after < before
    || (after == before && s.stage == LightStage
        && (s'.stage == HeavyStage || Sum(s'.memory.distance) < Sum(s.memory.distance)))
  }

  /** A light pass that goes round again has lowered the sum of the distances. */
  lemma LightPassLowers(net: Network, o: nat, b: nat, m: Memory, r: Memory)
    requires Sane(net, o) && Shaped(net, m) && Progress(net, o, Light(b), m, r)
    ensures Unsettled(net, r.distance, b) <= Unsettled(net, m.distance, b)
    ensures r.changed ==> Sum(r.distance) < Sum(m.distance)
  {
    SumFalls(m.distance, r.distance);
    PassKeepsUnsettled(net, o, Light(b), m, r);
  }

  lemma LightLowersRank(net: Network, o: nat, s: DeltaState, s': DeltaState)
    requires Sane(net, o) && Common(net, o, s) && s.stage == LightStage && LightStep(net, s, s') && InLoop(s')
    ensures RankFalls(net, s, s')
  {
    var launches, r :| LightPass(net, s, launches, r, s');
    LightPassProgresses(net, o, s, launches, r, s');
    LightPassLowers(net, o, s.bucket, s.memory.(changed := false), r);
  }

  lemma LightPassProgresses(net: Network, o: nat, s: DeltaState, launches: seq<seq<Arc>>, r: Memory, s': DeltaState)
    requires Sane(net, o) && Common(net, o, s) && LightPass(net, s, launches, r, s') && r.status == SUCCESS
    ensures Shaped(net, r) && Progress(net, o, Light(s.bucket), s.memory.(changed := false), r)
  {
    var m := s.memory.(changed := false);
    assert TasksAdmissible(net, Light(s.bucket), m, launches);
    PassOutcome(net, o, Light(s.bucket), launches, m, r);
  }

  /** A heavy pass that finds another bucket has settled a node. */
  lemma HeavyPassLowers(net: Network, o: nat, s: DeltaState, r: Memory, index: nat)
    requires Sane(net, o) && Common(net, o, s) && Common(net, o, s.(memory := r))
    requires Progress(net, o, Heavy(s.bucket), s.memory, r)
    requires NextBucket(net.arithmetic, r.distance, s.bucket) == Bucket(index)
    ensures Unsettled(net, r.distance, index) < Unsettled(net, s.memory.distance, s.bucket)
  {
    PassKeepsUnsettled(net, o, Heavy(s.bucket), s.memory, r);
    LeavingSettles(net, o, r.distance, s.bucket, index);
  }

  lemma AfterHeavyInLoop(net: Network, s: DeltaState, r: Memory)
    requires InLoop(AfterHeavy(net, s, r)) && s.stage == HeavyStage
    ensures r.status == SUCCESS
    ensures NextBucket(net.arithmetic, r.distance, s.bucket) == Bucket(AfterHeavy(net, s, r).bucket)
    ensures AfterHeavy(net, s, r).memory.distance == r.distance
  {
    assert r.status != SUCCESS ==> AfterHeavy(net, s, r).stage == Faulted;
  }

  lemma HeavyLowersRank(net: Network, o: nat, s: DeltaState, launches: seq<seq<Arc>>, r: Memory, s': DeltaState)
    requires Sane(net, o) && Common(net, o, s) && LightClosed(net, o, s) && s.stage == HeavyStage
    requires HeavyPass(net, s, launches, r, s') && InLoop(s')
    ensures RankFalls(net, s, s')
  {
    AfterHeavyInLoop(net, s, r);
    HeavyPassRelaxes(net, o, s, launches, r);
    HeavyPassLowers(net, o, s, r, s'.bucket);
  }

  /** Every turn that stays in the loop lowers the rank, so the host loops end. */
  lemma StepLowersRank(net: Network, o: nat, s: DeltaState, s': DeltaState)
    requires Sane(net, o) && DeltaInvariant(net, o, s) && DeltaStep(net, s, s') && InLoop(s')
    ensures RankFalls(net, s, s')
  {
    if s.stage == LightStage {
      LightLowersRank(net, o, s, s');
    } else {
      var launches, r :| HeavyPass(net, s, launches, r, s');
      HeavyLowersRank(net, o, s, launches, r, s');
    }
  }

  lemma ExecAppend(net: Network, kind: Kind, tasks: seq<Arc>, blockSize: nat, m: Memory, schedule: seq<Event>, e: Event)
    requires Shaped(net, m) && ValidSchedule(tasks, blockSize, schedule) && ValidEvent(tasks, blockSize, e)
    ensures ValidSchedule(tasks, blockSize, schedule + [e])
    ensures Exec(net, kind, tasks, blockSize, m, schedule + [e])
            == Advance(net, kind, tasks, Exec(net, kind, tasks, blockSize, m, schedule), e)
  {
    assert (schedule + [e])[..|schedule|] == schedule;
  }

  /** The accesses a leader still has to make. */
  function LeaderWork(leader: Leader): nat {
    match leader
    case Fresh => 5
    case Validated => 4
    case AddsExamined => 3
    case Examined => 2
    case AddsAttempts => 1
    case Passed => 0
  }

  lemma LeadLowersWork(net: Network, kind: Kind, tasks: seq<Arc>, s: Launch, b: nat)
    requires b < |s.leaders| && s.leaders[b] != Passed
    ensures LeaderWork(Lead(net, kind, tasks, s, b).leaders[b]) < LeaderWork(s.leaders[b])
  {
  }

  /** A leader that is given its turns passes the barrier, and no thread moves. */
  lemma {:induction false} LeaderPasses(net: Network, kind: Kind, tasks: seq<Arc>, blockSize: nat, m: Memory,
                                        schedule: seq<Event>, b: nat) returns (longer: seq<Event>)
    requires Shaped(net, m) && ValidSchedule(tasks, blockSize, schedule) && b < BlockCount(|tasks|, blockSize)
    ensures ValidSchedule(tasks, blockSize, longer)
    ensures Exec(net, kind, tasks, blockSize, m, longer).leaders[b] == Passed
    ensures Exec(net, kind, tasks, blockSize, m, longer).threads
            == Exec(net, kind, tasks, blockSize, m, schedule).threads
    decreases LeaderWork(Exec(net, kind, tasks, blockSize, m, schedule).leaders[b])
  {
    var s := Exec(net, kind, tasks, blockSize, m, schedule);
    longer := schedule;
    if s.leaders[b] != Passed {
      LeadLowersWork(net, kind, tasks, s, b);
      ExecAppend(net, kind, tasks, blockSize, m, schedule, LeaderStep(b));
      longer := LeaderPasses(net, kind, tasks, blockSize, m, schedule + [LeaderStep(b)], b);
    }
  }

  lemma WorkTwice(net: Network, kind: Kind, tasks: seq<Arc>, s: Launch, t: nat)
    requires LaunchShaped(net, tasks, s) && t < |tasks|
    requires t / s.blockSize < |s.leaders| && s.leaders[t / s.blockSize] == Passed
    ensures Work(net, kind, tasks, Work(net, kind, tasks, s, t), t).threads == s.threads[t := Finished]
  {
  }

  /** Once its leader has passed, two turns finish a thread, and unfinish none. */
  lemma RunsOut(net: Network, kind: Kind, tasks: seq<Arc>, blockSize: nat, m: Memory, schedule: seq<Event>, t: nat)
    requires Shaped(net, m) && ValidSchedule(tasks, blockSize, schedule) && t < |tasks|
    requires t / blockSize < BlockCount(|tasks|, blockSize)
    requires Exec(net, kind, tasks, blockSize, m, schedule).leaders[t / blockSize] == Passed
    ensures ValidSchedule(tasks, blockSize, schedule + [ThreadStep(t)] + [ThreadStep(t)])
    ensures Exec(net, kind, tasks, blockSize, m, schedule + [ThreadStep(t)] + [ThreadStep(t)]).threads
            == Exec(net, kind, tasks, blockSize, m, schedule).threads[t := Finished]
  {
    ExecAppend(net, kind, tasks, blockSize, m, schedule, ThreadStep(t));
    ExecAppend(net, kind, tasks, blockSize, m, schedule + [ThreadStep(t)], ThreadStep(t));
    WorkTwice(net, kind, tasks, Exec(net, kind, tasks, blockSize, m, schedule), t);
  }

  /** For every block size, leaders and threads in turn are a schedule that reaches the barrier. */
  lemma {:induction false} BarrierExists(net: Network, kind: Kind, tasks: seq<Arc>, blockSize: nat, m: Memory,
                                         done: nat)
    returns (schedule: seq<Event>)
    requires Shaped(net, m) && done <= |tasks| && blockSize > 0
    ensures ValidSchedule(tasks, blockSize, schedule)
    ensures forall t :: 0 <= t < done ==> Exec(net, kind, tasks, blockSize, m, schedule).threads[t] == Finished
  {
    schedule := [];
    if done > 0 {
      var t := done - 1;
      schedule := BarrierExists(net, kind, tasks, blockSize, m, t);
      ThreadHasLeader(|tasks|, blockSize, t);
      schedule := LeaderPasses(net, kind, tasks, blockSize, m, schedule, t / blockSize);
      RunsOut(net, kind, tasks, blockSize, m, schedule, t);
      schedule := schedule + [ThreadStep(t)] + [ThreadStep(t)];
    }
  }

  lemma {:induction false} ListOf(s: set<Arc>) returns (q: seq<Arc>)
    ensures forall a :: a in q <==> a in s
  {
    q := [];
    if s != {} {
      var x :| x in s;
      q := ListOf(s - {x});
      q := q + [x];
    }
  }

  /** Some pass covers a selection. */
  lemma PassExists(net: Network, kind: Kind, m: Memory, selected: seq<bool>)
    returns (launches: seq<seq<Arc>>, r: Memory)
    requires Shaped(net, m) && |selected| == net.nodeCount
    ensures Covers(net, launches, selected) && PassTakes(net, kind, launches, m, r)
  {
    var tasks := ListOf(set a | a in net.arcs && a.source < net.nodeCount && selected[a.source]);
    var schedule := BarrierExists(net, kind, tasks, 1, m, |tasks|);
    launches := [tasks];
    r := Exec(net, kind, tasks, 1, m, schedule).memory;
    assert Takes(net, kind, tasks, 1, m, schedule, r);
    assert LaunchTakes(net, kind, tasks, m, r);
    assert launches[..0] == [];
    assert PassTakes(net, kind, [], m, m);
    forall a: Arc
      ensures InLaunches(a, launches) <==> a in tasks
    {
      if a in tasks {
        assert a in launches[0];
      }
    }
  }

  lemma StepExists(net: Network, s: DeltaState) returns (s': DeltaState)
    requires Shaped(net, s.memory) && InLoop(s)
    ensures DeltaStep(net, s, s') && s'.stage != Stopped
  {
    if s.stage == LightStage {
      var launches, r := PassExists(net, Light(s.bucket), s.memory.(changed := false),
                                    BucketMembers(net, s.memory.distance, s.bucket));
      s' := s.(memory := r,
               stage := if r.status != SUCCESS then Faulted else if r.changed then LightStage else HeavyStage);
      assert LightPass(net, s, launches, r, s');
    } else {
      var launches, r := PassExists(net, Heavy(s.bucket), s.memory, s.memory.removed);
      s' := AfterHeavy(net, s, r);
      assert HeavyPass(net, s, launches, r, s');
    }
  }

  lemma ExtendRun(net: Network, o: nat, states: seq<DeltaState>, s: DeltaState)
    requires DeltaRun(net, o, states) && DeltaStep(net, states[|states| - 1], s)
    ensures DeltaRun(net, o, states + [s])
  {
    var longer := states + [s];
    forall i: nat
      ensures DeltaStepAt(net, longer, i)
    {
      assert DeltaStepAt(net, states, i);
    }
  }

  lemma NextState(net: Network, o: nat, states: seq<DeltaState>) returns (s': DeltaState)
    requires Sane(net, o) && DeltaRun(net, o, states) && InLoop(states[|states| - 1])
    ensures DeltaRun(net, o, states + [s']) && s'.stage != Stopped
    ensures InLoop(s') ==> RankFalls(net, states[|states| - 1], s')
  {
    DeltaRunKeeps(net, o, states, |states| - 1);
    s' := StepExists(net, states[|states| - 1]);
    ExtendRun(net, o, states, s');
    if InLoop(s') {
      StepLowersRank(net, o, states[|states| - 1], s');
    }
  }

  /** Every run still in the loop can be continued to one that has left it. */
  lemma {:induction false} FinishRun(net: Network, o: nat, states: seq<DeltaState>) returns (finished: seq<DeltaState>)
    requires Sane(net, o) && DeltaRun(net, o, states) && states[|states| - 1].stage != Stopped
    ensures DeltaRun(net, o, finished) && !InLoop(finished[|finished| - 1])
    ensures finished[|finished| - 1].stage != Stopped
    decreases Unsettled(net, states[|states| - 1].memory.distance, states[|states| - 1].bucket),
              if states[|states| - 1].stage == LightStage then 1 else 0,
              Sum(states[|states| - 1].memory.distance)
  {
    finished := states;
    if InLoop(states[|states| - 1]) {
      var s' := NextState(net, o, states);
      finished := states + [s'];
      if InLoop(s') {
        finished := FinishRun(net, o, states + [s']);
      }
    }
  }
}
