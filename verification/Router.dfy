/**
  The device buffers, one kernel launch under an arbitrary scheduler, and the two host
  search loops over a resident or partitioned topology.
 */
module Router {
  import opened Basics
  import opened Binary64
  import opened RoutingGraph
  import opened Kernels
  import opened Passes
  import opened FrontierSearch
  import opened DeltaSearch
  import opened DeltaProgress
  import opened Compaction
  import opened Hosts
  import opened WorkCounters

  /** The steps the threads and leaders of a launch still have to take. */
  function ThreadsLeft(threads: seq<Thread>): nat {
    if threads == [] then
      0
    else
      ThreadsLeft(threads[..|threads| - 1])
      + (match threads[|threads| - 1] case Pending => 2 case Holding(_) => 1 case Finished => 0)
  }

  lemma {:induction false} ThreadsLeftFalls(threads: seq<Thread>, t: nat, thread: Thread)
    requires t < |threads|
    requires (threads[t].Pending? && !thread.Pending?) || (threads[t].Holding? && thread.Finished?)
    ensures ThreadsLeft(threads[t := thread]) < ThreadsLeft(threads)
  {
    var updated := threads[t := thread];
    if t < |threads| - 1 {
      ThreadsLeftFalls(threads[..|threads| - 1], t, thread);
      assert updated[..|threads| - 1] == threads[..|threads| - 1][t := thread];
    } else {
      assert updated[..|threads| - 1] == threads[..|threads| - 1];
    }
  }

  function LeadersLeft(leaders: seq<Leader>): nat {
    if leaders == [] then 0
    else LeadersLeft(leaders[..|leaders| - 1]) + LeaderWork(leaders[|leaders| - 1])
  }

  lemma {:induction false} LeadersLeftFalls(leaders: seq<Leader>, b: nat, leader: Leader)
    requires b < |leaders| && LeaderWork(leader) < LeaderWork(leaders[b])
    ensures LeadersLeft(leaders[b := leader]) < LeadersLeft(leaders)
  {
    var updated := leaders[b := leader];
    if b < |leaders| - 1 {
      LeadersLeftFalls(leaders[..|leaders| - 1], b, leader);
      assert updated[..|leaders| - 1] == leaders[..|leaders| - 1][b := leader];
    } else {
      assert updated[..|leaders| - 1] == leaders[..|leaders| - 1];
    }
  }

  /** A thread that may step: past its barrier and not finished. */
  predicate Ready(blockSize: nat, leaders: seq<Leader>, threads: seq<Thread>, t: nat)
    requires blockSize > 0 && t < |threads|
  {
    threads[t].Holding?
    || (threads[t].Pending? && t / blockSize < |leaders| && leaders[t / blockSize] == Passed)
  }

  /** A leader that has validated its range still holds the attempts it counted. */
  ghost predicate SharesKept(net: Network, kind: Kind, tasks: seq<Arc>, blockSize: nat, leaders: seq<Leader>,
                             shares: seq<nat>)
    requires |shares| == |leaders|
  {
    forall b :: 0 <= b < |leaders| && leaders[b] != Fresh && leaders[b] != Passed ==>
      shares[b] == CountedIn(net, kind, tasks, b * blockSize, BlockEnd(|tasks|, blockSize, b))
  }

  /** While a thread is unfinished, it can step or its leader can. */
  lemma SomeoneCanStep(tasks: seq<Arc>, blockSize: nat, leaders: seq<Leader>, threads: seq<Thread>)
    requires blockSize > 0 && |threads| == |tasks| && |leaders| == BlockCount(|tasks|, blockSize)
    requires exists t :: 0 <= t < |threads| && threads[t] != Finished
    ensures (exists b :: 0 <= b < |leaders| && leaders[b] != Passed)
            || exists t :: 0 <= t < |threads| && Ready(blockSize, leaders, threads, t)
  {
    var t :| 0 <= t < |threads| && threads[t] != Finished;
    ThreadHasLeader(|tasks|, blockSize, t);
    assert leaders[t / blockSize] == Passed ==> Ready(blockSize, leaders, threads, t);
  }

  /** The leader's loop over its range: the first refused task, and the attempts of a range without one. */
  method ValidateRange(net: Network, kind: Kind, tasks: seq<Arc>, lo: nat, hi: nat)
    returns (fault: Option<nat>, attempts: nat)
    requires lo <= hi <= |tasks|
    ensures fault == FirstFault(net, kind, tasks, lo, hi)
    ensures fault == None ==> attempts == CountedIn(net, kind, tasks, lo, hi)
  {
    attempts := 0;
    for i := lo to hi
      invariant FirstFault(net, kind, tasks, lo, hi) == FirstFault(net, kind, tasks, i, hi)
      invariant attempts == CountedIn(net, kind, tasks, lo, i)
    {
      fault := LeaderFault(net, kind, tasks[i]);
      if fault.Some? {
        return;
      }
      if Counted(net, kind, tasks[i]) {
        attempts := attempts + 1;
      }
    }
    fault := None;
  }

  lemma PassExtends(net: Network, kind: Kind, launches: seq<seq<Arc>>, i: nat, m: Memory, between: Memory, r: Memory)
    requires i < |launches| && Shaped(net, m) && Shaped(net, between)
    requires PassTakes(net, kind, launches[..i], m, between) && LaunchTakes(net, kind, launches[i], between, r)
    ensures PassTakes(net, kind, launches[..i + 1], m, r)
  {
    assert launches[..i + 1][..i] == launches[..i];
  }

  class Device {
    const blockSize: nat
    const distance: array<nat>
    const next: array<bool>
    const removed: array<bool>
    var changed: bool
    var status: nat
    var examined: nat
    var attempts: nat
    var updates: nat

    ghost predicate Valid(net: Network)
      reads this
    {
      blockSize > 0 && distance.Length == next.Length == removed.Length == net.nodeCount && next != removed
    }

    ghost function View(): Memory
      reads this, distance, next, removed
    {
      Memory(distance[..], next[..], removed[..], changed, status, examined, attempts, updates)
    }

    constructor (net: Network, origin: nat, blockSize: nat)
      requires blockSize > 0
      ensures Valid(net) && View() == InitialMemory(net, origin)
      ensures fresh(distance) && fresh(next) && fresh(removed)
    {
      var n := net.nodeCount;
      this.blockSize := blockSize;
      distance := new nat[n](v => if v == origin then 0 else INFINITY);
      next := new bool[n](_ => false);
      removed := new bool[n](_ => false);
      changed, status, examined, attempts, updates := false, SUCCESS, 0, 0, 0;
      new;
      assert distance[..] == InitialDistances(net, origin);
    }

    /** The load step of a thread: validate, read the source distance, mark, and decide. */
    method Load(net: Network, kind: Kind, a: Arc) returns (thread: Thread)
      requires Valid(net) && status == SUCCESS
      modifies this`status, removed
      ensures Valid(net)
      ensures var outcome := Decide(net, kind, a, old(View()));
              && View() == (if outcome.Fault?
                            then MarkLoaded(net, kind, a, old(View())).(status := outcome.code)
                            else MarkLoaded(net, kind, a, old(View())))
              && thread == if outcome.Attempt? then Holding(outcome.candidate) else Finished
    {
      var fault := LeaderFault(net, kind, a);
      if fault.Some? {
        status := fault.value;
        return Finished;
      }
      var d := distance[a.source];
      var outcome := if kind.Frontier? then RelaxOne(net, a, d) else DeltaRelaxOne(net, kind, a, d, removed[a.source]);
      if kind.Light? && net.arithmetic.InBucket(d, kind.bucket) {
        removed[a.source] := true;
      }
      thread := Finished;
      match outcome {
        case Idle =>
        case Fault(code) => status := code;
        case Attempt(candidate) => thread := Holding(candidate);
      }
    }

    /** The commit step: the atomic minimum and the flags after it. */
    method Store(net: Network, kind: Kind, a: Arc, candidate: nat)
      requires Valid(net) && a.destination < net.nodeCount
      modifies this`changed, this`updates, distance, next
      ensures Valid(net) && View() == Commit(net, kind, a, candidate, old(View()))
    {
      if candidate < distance[a.destination] {
        distance[a.destination] := candidate;
        if kind.Frontier? {
          next[a.destination] := true;
          changed := true;
        } else if kind.Light? && net.arithmetic.InBucket(candidate, kind.bucket) {
          changed := true;
        }
        updates := updates + 1;
      }
    }

    /** The next access of a block leader; share carries the attempts it counted while validating. */
    method StepLeader(net: Network, kind: Kind, tasks: seq<Arc>, b: nat, leader: Leader, share: nat,
                      ghost leaders: seq<Leader>, ghost threads: seq<Thread>)
      returns (next: Leader, counted: nat)
      requires blockSize > 0 && b < BlockCount(|tasks|, blockSize) == |leaders|
      requires leaders[b] == leader && leader != Passed
      requires leader == Fresh || share == CountedIn(net, kind, tasks, b * blockSize, BlockEnd(|tasks|, blockSize, b))
      modifies this`status, this`examined, this`attempts
      ensures Launch(View(), blockSize, leaders[b := next], threads)
              == Lead(net, kind, tasks, Launch(old(View()), blockSize, leaders, threads), b)
      ensures LeaderWork(next) < LeaderWork(leader)
      ensures next == Passed
              || counted == CountedIn(net, kind, tasks, b * blockSize, BlockEnd(|tasks|, blockSize, b))
    {
      var lo, hi := b * blockSize, BlockEnd(|tasks|, blockSize, b);
      BlockIsNotEmpty(|tasks|, blockSize, b);
      next, counted := Passed, share;
      match leader {
        case Fresh =>
          if status == SUCCESS {
            var fault;
            fault, counted := ValidateRange(net, kind, tasks, lo, hi);
            if fault.Some? {
              status := fault.value;
            } else {
              next := Validated;
            }
          }
        case Validated => next := if status == SUCCESS then AddsExamined else Passed;
        case AddsExamined =>
          examined := examined + (hi - lo);
          next := Examined;
        case Examined => next := if status == SUCCESS then AddsAttempts else Passed;
        case AddsAttempts => attempts := attempts + share;
      }
    }

    /** The next step of a thread that is past its barrier. */
    method StepThread(net: Network, kind: Kind, tasks: seq<Arc>, t: nat, thread: Thread,
                      ghost leaders: seq<Leader>, ghost threads: seq<Thread>)
      returns (after: Thread)
      requires Valid(net) && LaunchShaped(net, tasks, Launch(View(), blockSize, leaders, threads))
      requires t < |tasks| && threads[t] == thread && Ready(blockSize, leaders, threads, t)
      modifies this`status, this`changed, this`updates, distance, next, removed
      ensures Valid(net) && LaunchShaped(net, tasks, Launch(old(View()), blockSize, leaders, threads))
      ensures Launch(View(), blockSize, leaders, threads[t := after])
              == Work(net, kind, tasks, Launch(old(View()), blockSize, leaders, threads), t)
      ensures (thread.Pending? && !after.Pending?) || (thread.Holding? && after.Finished?)
    {
      after := Finished;
      if thread.Holding? {
        Store(net, kind, tasks[t], thread.candidate);
      } else if status == SUCCESS {
        after := Load(net, kind, tasks[t]);
      }
    }

    /** One launch: an arbitrary scheduler steps leaders and threads until the barrier. */
    method RunLaunch(net: Network, kind: Kind, tasks: seq<Arc>)
      requires Valid(net)
      modifies this, distance, next, removed
      ensures Valid(net) && LaunchTakes(net, kind, tasks, old(View()), View())
    {
      ghost var m := View();
      ghost var schedule: seq<Event> := [];
      var blocks := BlockCount(|tasks|, blockSize);
      var leaders: seq<Leader> := seq(blocks, _ => Fresh);
      var shares: seq<nat> := seq(blocks, _ => 0);
      var threads: seq<Thread> := seq(|tasks|, _ => Pending);
      while exists t :: 0 <= t < |threads| && threads[t] != Finished
        invariant Valid(net) && ValidSchedule(tasks, blockSize, schedule)
        invariant Exec(net, kind, tasks, blockSize, m, schedule) == Launch(View(), blockSize, leaders, threads)
        invariant |shares| == |leaders| == blocks
        invariant SharesKept(net, kind, tasks, blockSize, leaders, shares)
        decreases LeadersLeft(leaders) + ThreadsLeft(threads)
      {
        var leaderWaits := exists b :: 0 <= b < |leaders| && leaders[b] != Passed;
        var threadReady := exists t :: 0 <= t < |threads| && Ready(blockSize, leaders, threads, t);
        SomeoneCanStep(tasks, blockSize, leaders, threads);
        var chosen: bool := *;
        if leaderWaits && (chosen || !threadReady) {
          var b: nat :| b < |leaders| && leaders[b] != Passed;
          ExecAppend(net, kind, tasks, blockSize, m, schedule, LeaderStep(b));
          schedule := schedule + [LeaderStep(b)];
          var leader, share := StepLeader(net, kind, tasks, b, leaders[b], shares[b], leaders, threads);
          LeadersLeftFalls(leaders, b, leader);
          leaders, shares := leaders[b := leader], shares[b := share];
        } else {
          var t: nat :| t < |threads| && Ready(blockSize, leaders, threads, t);
          ExecAppend(net, kind, tasks, blockSize, m, schedule, ThreadStep(t));
          schedule := schedule + [ThreadStep(t)];
          var thread := StepThread(net, kind, tasks, t, threads[t], leaders, threads);
          ThreadsLeftFalls(threads, t, thread);
          threads := threads[t := thread];
        }
      }
      assert Takes(net, kind, tasks, blockSize, m, schedule, View());
    }

    /** A pass: its launches one after the other, each synchronised. */
    method RunPass(net: Network, kind: Kind, launches: seq<seq<Arc>>)
      requires Valid(net)
      modifies this, distance, next, removed
      ensures Valid(net) && PassTakes(net, kind, launches, old(View()), View())
      ensures status == SUCCESS ==> examined == old(examined) + TotalTasks(launches)
    {
      ghost var m := View();
      for i := 0 to |launches|
        invariant Valid(net) && PassTakes(net, kind, launches[..i], m, View())
      {
        ghost var between := View();
        RunLaunch(net, kind, launches[i]);
        PassExtends(net, kind, launches, i, m, between, View());
      }
      assert launches[..|launches|] == launches;
      if status == SUCCESS {
        PassCounts(net, kind, launches, m, View());
      }
    }

    method ClearNext(net: Network)
      requires Valid(net)
      modifies this`changed, next
      ensures Valid(net) && View() == Cleared(net, old(View()))
    {
      forall v | 0 <= v < next.Length {
        next[v] := false;
      }
      changed := false;
      assert next[..] == seq(net.nodeCount, _ => false);
    }

    method ClearRemoved(net: Network)
      requires Valid(net)
      modifies removed
      ensures Valid(net) && View() == old(View()).(removed := seq(net.nodeCount, _ => false))
    {
      forall v | 0 <= v < removed.Length {
        removed[v] := false;
      }
      assert removed[..] == seq(net.nodeCount, _ => false);
    }
  }

  predicate NoTasks(launches: seq<seq<Arc>>) {
    forall i :: 0 <= i < |launches| ==> launches[i] == []
  }

  lemma {:induction false} NoTasksCount(launches: seq<seq<Arc>>)
    requires NoTasks(launches)
    ensures TotalTasks(launches) == 0
  {
    if launches != [] {
      NoTasksCount(launches[..|launches| - 1]);
    }
  }

  lemma NoTasksCover(net: Network, launches: seq<seq<Arc>>, selected: seq<bool>)
    requires |selected| == net.nodeCount && Covers(net, launches, selected) && NoTasks(launches)
    ensures Covers(net, [], selected)
  {
    forall a: Arc
      ensures InLaunches(a, launches) <==> InLaunches(a, [])
    {
    }
  }

  lemma ExtendFrontierRun(net: Network, o: nat, states: seq<State>, s: State)
    requires Run(net, o, states) && Step(net, states[|states| - 1], s)
    ensures Run(net, o, states + [s])
  {
    forall i: nat
      ensures StepAt(net, states + [s], i)
    {
      assert StepAt(net, states, i);
    }
  }

  /** One turn of the frontier loop: a look at the flag, the plan, the pass, and what follows from them. */
  method FrontierTurn(net: Network, topology: Topology, origin: nat, device: Device, active: seq<bool>, phases: nat,
                      before: nat, host: Host, ghost states: seq<State>)
    returns (mode: Mode, next: seq<bool>, done: nat, compacted: nat, ghost run: seq<State>)
    requires net.WellFormed() && origin < net.nodeCount && Stores(topology, net) && device.Valid(net)
    requires |active| == net.nodeCount && phases < PhaseLimit(net) && Run(net, origin, states)
    requires states[|states| - 1] == State(device.View(), active, phases, Running) && device.examined == before
    modifies device, device.distance, device.next, device.removed, host
    ensures host.Onward(old(host.loads), old(host.requests))
    ensures device.Valid(net) && |next| == net.nodeCount && phases <= done <= phases + 1 && Run(net, origin, run)
    ensures mode == Running || mode == Converged ==> host.Undisturbed(old(host.loads), old(host.requests))
    ensures mode == Cancelled ==> host.Stopped(old(host.loads))
    ensures mode == Failed ==> host.Refused(old(host.requests)) || net.Overflows(origin)
    ensures mode == Running || mode == Converged ==> device.examined == compacted
    ensures mode == Running ==> done == phases + 1 && run[|run| - 1] == State(device.View(), next, done, Running)
    ensures mode == Converged ==> run[|run| - 1].mode == Converged && run[|run| - 1].phases == done
                                  && run[|run| - 1].memory.distance == device.View().distance
  {
    mode, next, done, compacted, run := Cancelled, active, phases, before, states;
    ghost var s := states[|states| - 1];
    var up := host.Load();
    if up {
      return;
    }
    device.ClearNext(net);
    var plan := Plan(topology, active, net, host);
    if !plan.Launches? {
      mode := if plan.Unallocated? then Failed else Cancelled;
      return;
    }
    compacted := compacted + TotalTasks(plan.launches);
    if NoTasks(plan.launches) {
      NoTasksCover(net, plan.launches, active);
      NoTasksCount(plan.launches);
      mode := Converged;
      ExtendFrontierRun(net, origin, states, s.(mode := Converged));
      run := states + [s.(mode := Converged)];
      return;
    }
    done := phases + 1;
    mode, next, run := FrontierPass(net, origin, device, active, phases, plan.launches, states);
  }

  /** The launches of one phase, and how the loop goes on after them. */
  method FrontierPass(net: Network, origin: nat, device: Device, active: seq<bool>, phases: nat,
                      launches: seq<seq<Arc>>, ghost states: seq<State>)
    returns (mode: Mode, next: seq<bool>, ghost run: seq<State>)
    requires net.WellFormed() && origin < net.nodeCount && device.Valid(net) && Run(net, origin, states)
    requires |active| == net.nodeCount && phases < PhaseLimit(net) && Covers(net, launches, active)
    requires var s := states[|states| - 1];
             s.mode == Running && s.active == active && s.phases == phases
             && Shaped(net, s.memory) && Cleared(net, s.memory) == device.View()
    modifies device, device.distance, device.next, device.removed
    ensures device.Valid(net) && |next| == net.nodeCount && Run(net, origin, run)
    ensures mode == Running || mode == Converged || (mode == Failed && net.Overflows(origin))
    ensures mode != Failed ==> device.examined == old(device.examined) + TotalTasks(launches)
    ensures run[|run| - 1] == State(device.View(), next, phases + 1, mode)
  {
    ghost var s := states[|states| - 1];
    device.RunPass(net, Frontier, launches);
    mode := if device.status != SUCCESS then Failed else if !device.changed then Converged else Running;
    next := if mode == Running then device.next[..] else active;
    ghost var s' := State(device.View(), next, phases + 1, mode);
    assert Phase(net, s, launches, device.View(), s');
    ExtendFrontierRun(net, origin, states, s');
    run := states + [s'];
    if mode == Failed {
      FailureHasCause(net, origin, run);
    }
  }

  /**
    The frontier host loop. Whatever the scheduler and the launches do, the loop follows a run
    of the search, so an uncancelled successful end leaves exact distances, and the kernels
    have examined exactly the tasks that were compacted. It is cut short only by the flag, and
    fails only for want of memory or on a walk of infinite cost.
   */
  method RunFrontier(net: Network, topology: Topology, origin: nat, blockSize: nat, host: Host)
    returns (device: Device, phases: nat, mode: Mode, compacted: nat, ghost states: seq<State>)
    requires net.WellFormed() && origin < net.nodeCount && Stores(topology, net) && blockSize > 0
    modifies host
    ensures host.Onward(old(host.loads), old(host.requests))
    ensures fresh(device) && device.Valid(net) && phases <= PhaseLimit(net) && Run(net, origin, states)
    ensures mode != Running
    ensures mode == Converged ==> host.Undisturbed(old(host.loads), old(host.requests))
    ensures mode == Cancelled ==> host.Stopped(old(host.loads))
    ensures mode == Failed ==> host.Refused(old(host.requests)) || net.Overflows(origin)
    ensures mode == Converged ==> net.Exact(origin, device.View().distance)
    ensures mode == Converged ==> device.examined == compacted
    ensures mode == Converged ==> states[|states| - 1].mode == Converged && states[|states| - 1].phases == phases
                                  && states[|states| - 1].memory.distance == device.View().distance
  {
    device := new Device(net, origin, blockSize);
    var active := seq(net.nodeCount, v => v == origin);
    phases, mode, compacted, states := 0, Running, 0, [Initial(net, origin)];
    while phases < PhaseLimit(net) && mode == Running
      invariant device.Valid(net) && fresh(device)
      invariant fresh(device.distance) && fresh(device.next) && fresh(device.removed)
      invariant |active| == net.nodeCount && phases <= PhaseLimit(net)
      invariant host.Onward(old(host.loads), old(host.requests))
      invariant mode == Running || mode == Converged ==>
                  device.examined == compacted && host.Undisturbed(old(host.loads), old(host.requests))
      invariant mode == Cancelled ==> host.Stopped(old(host.loads))
      invariant mode == Failed ==> host.Refused(old(host.requests)) || net.Overflows(origin)
      invariant Run(net, origin, states)
      invariant mode == Running ==> states[|states| - 1] == State(device.View(), active, phases, mode)
      invariant mode == Converged ==> states[|states| - 1].mode == Converged && states[|states| - 1].phases == phases
                                      && states[|states| - 1].memory.distance == device.View().distance
      decreases PhaseLimit(net) - phases, if mode == Running then 1 else 0
    {
      mode, active, phases, compacted, states :=
        FrontierTurn(net, topology, origin, device, active, phases, compacted, host, states);
    }
    if mode == Running {
      ghost var s := states[|states| - 1];
      ExtendFrontierRun(net, origin, states, s.(mode := Converged));
      states := states + [s.(mode := Converged)];
      mode := Converged;
    }
    if mode == Converged {
      ConvergedIsExact(net, origin, states);
    }
  }

  /** next_bucket over the downloaded distances. */
  method FindNextBucket(arithmetic: Arithmetic, distances: seq<nat>, current: nat) returns (r: Next)
    ensures r == NextBucket(arithmetic, distances, current)
  {
    r := Exhausted;
    for v := 0 to |distances|
      invariant r == NextBucket(arithmetic, distances[..v], current) && r != Overflow
    {
      assert distances[..v + 1][..v] == distances[..v];
      var d := distances[v];
      if d < INFINITY {
        var bucket := arithmetic.bucket(d);
        if bucket.None? {
          OverflowPersists(arithmetic, distances, v + 1, current);
          return Overflow;
        }
        if bucket.value > current {
          r := if r.Bucket? && r.index <= bucket.value then r else Bucket(bucket.value);
        }
      }
    }
    assert distances[..|distances|] == distances;
  }

  lemma {:induction false} OverflowPersists(arithmetic: Arithmetic, distances: seq<nat>, v: nat, current: nat)
    requires v <= |distances| && NextBucket(arithmetic, distances[..v], current) == Overflow
    ensures NextBucket(arithmetic, distances, current) == Overflow
    decreases |distances|
  {
    if v < |distances| {
      assert distances[..|distances| - 1][..v] == distances[..v];
      OverflowPersists(arithmetic, distances[..|distances| - 1], v, current);
    } else {
      assert distances[..v] == distances;
    }
  }

  /** The host has gone on from these counts, and a delta search that ends in this stage has its cause. */
  ghost predicate Justified(net: Network, origin: nat, host: Host, loads: nat, requests: nat, stage: Stage)
    reads host
  {
    && host.Onward(loads, requests)
    && match stage
       case Stopped => host.Stopped(loads)
       case Faulted => host.Refused(requests) || net.Overflows(origin) || net.Outgrows(origin)
       case _ => host.Undisturbed(loads, requests)
  }

  /** The light loop of one bucket: passes until one of them leaves the bucket alone. */
  method LightLoop(net: Network, topology: Topology, origin: nat, device: Device, bucket: nat, phases: nat,
                   before: nat, host: Host, ghost states: seq<DeltaState>)
    returns (stage: Stage, compacted: nat, ghost run: seq<DeltaState>)
    requires Sane(net, origin) && Stores(topology, net) && device.Valid(net)
    requires DeltaRun(net, origin, states)
    requires states[|states| - 1] == DeltaState(device.View(), bucket, phases, LightStage)
    requires device.examined == before
    modifies device, device.distance, device.next, device.removed, host
    ensures Justified(net, origin, host, old(host.loads), old(host.requests), stage)
    ensures device.Valid(net) && DeltaRun(net, origin, run)
    ensures stage == HeavyStage ==> run[|run| - 1] == DeltaState(device.View(), bucket, phases, HeavyStage)
    ensures stage == HeavyStage ==>
              Unsettled(net, device.View().distance, bucket) <= Unsettled(net, old(device.View()).distance, bucket)
    ensures stage == HeavyStage || stage == Faulted || stage == Stopped
    ensures stage == HeavyStage ==> device.examined == compacted
  {
    stage, compacted, run := LightStage, before, states;
    while stage == LightStage
      invariant device.Valid(net) && DeltaRun(net, origin, run)
      invariant Justified(net, origin, host, old(host.loads), old(host.requests), stage)
      invariant stage == LightStage || stage == HeavyStage || stage == Faulted || stage == Stopped
      invariant stage == LightStage || stage == HeavyStage ==> device.examined == compacted
      invariant stage == LightStage || stage == HeavyStage ==>
                  && run[|run| - 1] == DeltaState(device.View(), bucket, phases, stage)
                  && Unsettled(net, device.View().distance, bucket) <= Unsettled(net, old(device.View()).distance, bucket)
      decreases if stage == LightStage then 1 else 0, Unsettled(net, device.View().distance, bucket),
                Sum(device.View().distance)
    {
      stage, compacted, run := LightTurn(net, topology, origin, device, bucket, phases, compacted, host, run);
    }
  }

  /** One light pass, or its place when the bucket has no task. */
  method LightTurn(net: Network, topology: Topology, origin: nat, device: Device, bucket: nat, phases: nat,
                   before: nat, host: Host, ghost states: seq<DeltaState>)
    returns (stage: Stage, compacted: nat, ghost run: seq<DeltaState>)
    requires Sane(net, origin) && Stores(topology, net) && device.Valid(net) && DeltaRun(net, origin, states)
    requires states[|states| - 1] == DeltaState(device.View(), bucket, phases, LightStage)
    requires device.examined == before
    modifies device, device.distance, device.next, device.removed, host
    ensures Justified(net, origin, host, old(host.loads), old(host.requests), stage)
    ensures device.Valid(net) && DeltaRun(net, origin, run)
    ensures stage == LightStage || stage == HeavyStage || stage == Faulted || stage == Stopped
    ensures stage == LightStage || stage == HeavyStage ==>
              device.examined == compacted && run[|run| - 1] == DeltaState(device.View(), bucket, phases, stage)
              && RankFalls(net, states[|states| - 1], run[|run| - 1])
  {
    stage, compacted, run := Stopped, before, states;
    ghost var s := states[|states| - 1];
    device.changed := false;
    ghost var m := device.View();
    var selected := BucketMembers(net, device.distance[..], bucket);
    var plan := Plan(topology, selected, net, host);
    if !plan.Launches? {
      stage := if plan.Unallocated? then Faulted else Stopped;
      return;
    }
    compacted := before + TotalTasks(plan.launches);
    ghost var launches := plan.launches;
    if NoTasks(plan.launches) {
      NoTasksCover(net, plan.launches, selected);
      NoTasksCount(plan.launches);
      launches := [];
      InLoopSucceeds(net, origin, run);
      stage := HeavyStage;
    } else {
      device.RunPass(net, Light(bucket), plan.launches);
      stage := if device.status != SUCCESS then Faulted else if device.changed then LightStage else HeavyStage;
    }
    ghost var s' := DeltaState(device.View(), bucket, phases, stage);
    assert m == s.memory.(changed := false) && LightPass(net, s, launches, device.View(), s');
    LightTurnFollows(net, origin, states, launches, device.View(), s');
    run := states + [s'];
    if stage == Faulted {
      FaultNeedsLargeWalk(net, origin, run);
    }
  }

  lemma InLoopSucceeds(net: Network, o: nat, states: seq<DeltaState>)
    requires Sane(net, o) && DeltaRun(net, o, states) && InLoop(states[|states| - 1])
    ensures states[|states| - 1].memory.status == SUCCESS
  {
    DeltaRunKeeps(net, o, states, |states| - 1);
  }

  lemma LightTurnFollows(net: Network, o: nat, states: seq<DeltaState>, launches: seq<seq<Arc>>, r: Memory,
                         s': DeltaState)
    requires Sane(net, o) && DeltaRun(net, o, states)
    requires states[|states| - 1].stage == LightStage && Shaped(net, states[|states| - 1].memory)
    requires LightPass(net, states[|states| - 1], launches, r, s')
    ensures DeltaRun(net, o, states + [s'])
    ensures InLoop(s') ==> RankFalls(net, states[|states| - 1], s')
  {
    DeltaRunKeeps(net, o, states, |states| - 1);
    ExtendRun(net, o, states, s');
    if InLoop(s') {
      StepLowersRank(net, o, states[|states| - 1], s');
    }
  }

  /** The heavy pass over the removed sources and the choice of the next bucket. */
  method HeavyTurn(net: Network, topology: Topology, origin: nat, device: Device, bucket: nat, phases: nat,
                   before: nat, host: Host, ghost states: seq<DeltaState>)
    returns (stage: Stage, nextBucket: nat, nextPhases: nat, compacted: nat, ghost run: seq<DeltaState>)
    requires Sane(net, origin) && Stores(topology, net) && device.Valid(net)
    requires DeltaRun(net, origin, states)
    requires states[|states| - 1] == DeltaState(device.View(), bucket, phases, HeavyStage)
    requires device.examined == before
    modifies device, device.distance, device.next, device.removed, host
    ensures Justified(net, origin, host, old(host.loads), old(host.requests), stage)
    ensures device.Valid(net) && DeltaRun(net, origin, run)
    ensures stage == LightStage || stage == Settled ==>
              run[|run| - 1] == DeltaState(device.View(), nextBucket, nextPhases, stage)
    ensures stage == LightStage ==>
              Unsettled(net, device.View().distance, nextBucket) < Unsettled(net, old(device.View()).distance, bucket)
    ensures stage == LightStage || stage == Settled || stage == Faulted || stage == Stopped
    ensures stage == LightStage || stage == Settled ==> device.examined == compacted
  {
    ghost var s := states[|states| - 1];
    run, nextBucket, nextPhases, compacted := states, bucket, phases, before;
    var plan := Plan(topology, device.removed[..], net, host);
    if !plan.Launches? {
      stage := if plan.Unallocated? then Faulted else Stopped;
      return;
    }
    compacted := before + TotalTasks(plan.launches);
    device.RunPass(net, Heavy(bucket), plan.launches);
    ghost var r := device.View();
    if device.status != SUCCESS {
      stage := Faulted;
    } else {
      nextPhases := phases + 1;
      var next := FindNextBucket(net.arithmetic, device.distance[..], bucket);
      match next {
        case Overflow => stage := Faulted;
        case Exhausted => stage := Settled;
        case Bucket(index) =>
          device.ClearRemoved(net);
          nextBucket, stage := index, LightStage;
      }
    }
    HeavyTurnFollows(net, origin, states, plan.launches, r);
    run := states + [AfterHeavy(net, s, r)];
    if stage == Faulted {
      FaultNeedsLargeWalk(net, origin, run);
    }
  }

  lemma HeavyTurnFollows(net: Network, o: nat, states: seq<DeltaState>, launches: seq<seq<Arc>>, r: Memory)
    requires Sane(net, o) && DeltaRun(net, o, states)
    requires states[|states| - 1].stage == HeavyStage && Shaped(net, states[|states| - 1].memory)
    requires Covers(net, launches, states[|states| - 1].memory.removed)
    requires PassTakes(net, Heavy(states[|states| - 1].bucket), launches, states[|states| - 1].memory, r)
    ensures var s := states[|states| - 1];
            var s' := AfterHeavy(net, s, r);
            && DeltaRun(net, o, states + [s'])
            && (InLoop(s') ==>
                  Unsettled(net, s'.memory.distance, s'.bucket) < Unsettled(net, s.memory.distance, s.bucket))
  {
    var s := states[|states| - 1];
    var s' := AfterHeavy(net, s, r);
    assert HeavyPass(net, s, launches, r, s');
    ExtendRun(net, o, states, s');
    if InLoop(s') {
      LastStepLowersRank(net, o, states, s');
    }
  }

  lemma LastStepLowersRank(net: Network, o: nat, states: seq<DeltaState>, s': DeltaState)
    requires Sane(net, o) && DeltaRun(net, o, states) && DeltaStep(net, states[|states| - 1], s') && InLoop(s')
    ensures RankFalls(net, states[|states| - 1], s')
  {
    DeltaRunKeeps(net, o, states, |states| - 1);
    StepLowersRank(net, o, states[|states| - 1], s');
  }

  /** One bucket: a look at the flag, its light loop, and its heavy turn. */
  method BucketTurn(net: Network, topology: Topology, origin: nat, device: Device, bucket: nat, phases: nat,
                    before: nat, host: Host, ghost states: seq<DeltaState>)
    returns (stage: Stage, nextBucket: nat, nextPhases: nat, compacted: nat, ghost run: seq<DeltaState>)
    requires Sane(net, origin) && Stores(topology, net) && device.Valid(net) && DeltaRun(net, origin, states)
    requires states[|states| - 1] == DeltaState(device.View(), bucket, phases, LightStage)
    requires device.examined == before
    modifies device, device.distance, device.next, device.removed, host
    ensures Justified(net, origin, host, old(host.loads), old(host.requests), stage)
    ensures device.Valid(net) && DeltaRun(net, origin, run)
    ensures stage == LightStage || stage == Settled || stage == Faulted || stage == Stopped
    ensures stage == LightStage || stage == Settled ==>
              device.examined == compacted && run[|run| - 1] == DeltaState(device.View(), nextBucket, nextPhases, stage)
    ensures stage == LightStage ==>
              Unsettled(net, device.View().distance, nextBucket) < Unsettled(net, old(device.View()).distance, bucket)
  {
    stage, nextBucket, nextPhases, compacted, run := Stopped, bucket, phases, before, states;
    var up := host.Load();
    if up {
      return;
    }
    stage, compacted, run := LightLoop(net, topology, origin, device, bucket, phases, compacted, host, run);
    if stage == HeavyStage {
      stage, nextBucket, nextPhases, compacted, run :=
        HeavyTurn(net, topology, origin, device, bucket, phases, compacted, host, run);
    }
  }

  /**
    The delta-stepping host loop. It ends after at most one visit per node, and an uncancelled
    successful end leaves exact distances whenever the heavy arcs advance.
   */
  method RunDelta(net: Network, topology: Topology, origin: nat, blockSize: nat, host: Host)
    returns (device: Device, phases: nat, stage: Stage, compacted: nat, ghost run: seq<DeltaState>)
    requires Sane(net, origin) && Stores(topology, net) && blockSize > 0
    modifies host
    ensures fresh(device) && device.Valid(net) && DeltaRun(net, origin, run)
    ensures stage == Settled || stage == Faulted || stage == Stopped
    ensures Justified(net, origin, host, old(host.loads), old(host.requests), stage)
    ensures stage == Settled ==> run[|run| - 1].stage == Settled && run[|run| - 1].phases == phases
                                 && run[|run| - 1].memory == device.View()
    ensures stage == Settled ==> phases <= net.nodeCount
    ensures stage == Settled && net.HeavyArcsAdvance(origin) ==> net.Exact(origin, device.View().distance)
    ensures stage == Settled ==> device.examined == compacted
  {
    device := new Device(net, origin, blockSize);
    var bucket := 0;
    phases, stage, compacted, run := 0, LightStage, 0, [InitialState(net, origin)];
    while stage == LightStage
      invariant device.Valid(net) && fresh(device)
      invariant fresh(device.distance) && fresh(device.next) && fresh(device.removed)
      invariant DeltaRun(net, origin, run)
      invariant Justified(net, origin, host, old(host.loads), old(host.requests), stage)
      invariant stage == LightStage || stage == Settled || stage == Faulted || stage == Stopped
      invariant stage == LightStage || stage == Settled ==> device.examined == compacted
      invariant stage == LightStage || stage == Settled ==>
                  run[|run| - 1] == DeltaState(device.View(), bucket, phases, stage)
      decreases if stage == LightStage then 1 else 0, Unsettled(net, device.View().distance, bucket)
    {
      stage, bucket, phases, compacted, run :=
        BucketTurn(net, topology, origin, device, bucket, phases, compacted, host, run);
    }
    if stage == Settled {
      DeltaRunKeeps(net, origin, run, |run| - 1);
    }
  }
}
