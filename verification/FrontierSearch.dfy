/**
  The label-correcting frontier search: phases over an active set, at most node_count of
  them, ending early when a phase changes nothing. Stated over every run, every
  interleaving, every grouping of the tasks into launches, and every monotone
  inflationary addition.
 */
module FrontierSearch {
  import opened Binary64
  import opened RoutingGraph
  import opened Kernels
  import opened Passes

  datatype Mode = Running | Converged | Failed | Cancelled

  datatype State = State(memory: Memory, active: seq<bool>, phases: nat, mode: Mode)

  function InitialDistances(net: Network, o: nat): (d: seq<nat>)
    ensures |d| == net.nodeCount
  {
    seq(net.nodeCount, v => if v == o then 0 else INFINITY)
  }

  function InitialMemory(net: Network, o: nat): (m: Memory)
    ensures Shaped(net, m)
  {
    Memory(InitialDistances(net, o), seq(net.nodeCount, _ => false), seq(net.nodeCount, _ => false),
           false, SUCCESS, 0, 0, 0)
  }

  function Initial(net: Network, o: nat): State {
    State(InitialMemory(net, o), seq(net.nodeCount, v => v == o), 0, Running)
  }

  /** The host clears the next-active words and the changed flag before a phase. */
  function Cleared(net: Network, m: Memory): Memory {
    m.(next := seq(net.nodeCount, _ => false), changed := false)
  }

  function PhaseLimit(net: Network): nat {
    if net.nodeCount == 0 then 1 else net.nodeCount
  }

  ghost predicate Phase(net: Network, s: State, launches: seq<seq<Arc>>, r: Memory, s': State)
    requires Shaped(net, s.memory) && |s.active| == net.nodeCount
  {
    && s.phases < PhaseLimit(net)
    && Covers(net, launches, s.active)
    && PassTakes(net, Frontier, launches, Cleared(net, s.memory), r)
    && s' == if r.status != SUCCESS then State(r, s.active, s.phases + 1, Failed)
             else if !r.changed then State(r, s.active, s.phases + 1, Converged)
             else State(r, r.next, s.phases + 1, Running)
  }

  /**
    One turn of the host loop: cancelled, the phase limit reached, no task left, or a
    phase whose launches cover the active sources.
   */
  ghost predicate Step(net: Network, s: State, s': State) {
    && Shaped(net, s.memory) && |s.active| == net.nodeCount && s.mode == Running
    && (|| s' == s.(mode := Cancelled)
        || (s.phases == PhaseLimit(net) && s' == s.(mode := Converged))
        || (Covers(net, [], s.active) && s' == s.(mode := Converged))
        || (exists launches, r :: Phase(net, s, launches, r, s')))
  }

  ghost predicate Run(net: Network, o: nat, states: seq<State>) {
    && states != [] && states[0] == Initial(net, o)
    && (forall i: nat :: StepAt(net, states, i))
  }

  ghost predicate StepAt(net: Network, states: seq<State>, i: nat) {
    i + 1 < |states| ==> Step(net, states[i], states[i + 1])
  }

  /**
    Every enabled arc is relaxed unless its source is active, and k phases are below walks of k arcs; a search fails
    only where some walk costs infinity.
   */
  ghost predicate Invariant(net: Network, o: nat, s: State)
    requires net.WellFormed() && o < net.nodeCount
  {
    && Shaped(net, s.memory) && |s.active| == net.nodeCount
    && (s.mode == Failed ==> s.memory.status == INVALID_ARITHMETIC && net.Overflows(o))
    && (s.mode == Running || s.mode == Converged ==>
          && s.memory.status == SUCCESS
          && net.Sound(o, s.memory.distance) && net.Supported(o, s.memory.distance)
          && s.phases <= PhaseLimit(net)
          && (s.mode == Converged ==> net.Exact(o, s.memory.distance))
          && (s.mode == Running ==>
                && s.memory.distance[o] == 0
                && net.BelowWalksOfLength(o, s.memory.distance, s.phases)
                && (forall a :: a in net.arcs && net.Enabled(a) ==>
                      s.active[a.source] || net.Relaxed(s.memory.distance, a))))
  }

  lemma InitialIsSupported(net: Network, o: nat)
    requires o < net.nodeCount
    ensures net.Supported(o, InitialDistances(net, o)) && net.Sound(o, InitialDistances(net, o))
  {
    var d := InitialDistances(net, o);
    assert net.Traced(o, d, [], o) && net.Cost([]) == 0;
    forall v | 0 <= v < net.nodeCount
      ensures net.Labelled(o, d, v, d[v])
    {
    }
    SupportedIsSound(net, o, d);
  }

  lemma InitialInvariant(net: Network, o: nat)
    requires net.WellFormed() && o < net.nodeCount
    ensures Invariant(net, o, Initial(net, o))
  {
    var d := InitialDistances(net, o);
    InitialIsSupported(net, o);
    assert net.Walk(o, [], o) && net.Cost([]) == 0;
    forall a | a in net.arcs && net.Enabled(a) && a.source != o
      ensures net.Relaxed(d, a)
    {
      assert net.Extend(INFINITY, a) == INFINITY;
    }
  }

  /** One more phase covers walks of one more arc. */
  lemma LongerWalks(net: Network, o: nat, s: State, r: Memory)
    requires net.WellFormed() && o < net.nodeCount && Invariant(net, o, s) && s.mode == Running
    requires Shaped(net, r)
    requires forall v :: 0 <= v < net.nodeCount ==> r.distance[v] <= s.memory.distance[v]
    requires forall a :: a in net.arcs && net.Enabled(a) && s.active[a.source] ==>
               r.distance[a.destination] <= net.Extend(s.memory.distance[a.source], a)
    ensures net.BelowWalksOfLength(o, r.distance, s.phases + 1)
  {
    var d := s.memory.distance;
    forall p: seq<Arc>, v: nat | net.Walk(o, p, v) && |p| <= s.phases + 1 && v < net.nodeCount
      ensures r.distance[v] <= net.Cost(p)
    {
      if p == [] {
        assert d[v] <= net.Cost(p);
      } else {
        var a := p[|p| - 1];
        var q := p[..|p| - 1];
        assert net.Walk(o, q, a.source) && d[a.source] <= net.Cost(q);
        ExtendIsMonotone(net, d[a.source], net.Cost(q), a);
        assert net.Relaxed(d, a) || s.active[a.source];
      }
    }
  }

  /** What a successful phase leaves behind. */
  lemma PhaseKeeps(net: Network, o: nat, s: State, launches: seq<seq<Arc>>, r: Memory, s': State)
    requires net.WellFormed() && o < net.nodeCount && Invariant(net, o, s) && s.mode == Running
    requires Phase(net, s, launches, r, s')
    ensures Invariant(net, o, s')
  {
    var m := Cleared(net, s.memory);
    PassIsShaped(net, Frontier, launches, m, r);
    assert Progress(net, o, Frontier, m, m);
    forall a | InLaunches(a, launches)
      ensures Admissible(net, Frontier, m, a)
    {
    }
    PassStatusHasCause(net, o, Frontier, launches, m, r);
    if r.status == SUCCESS {
      PassOutcome(net, o, Frontier, launches, m, r);
      forall a | a in net.arcs && net.Enabled(a) && s.active[a.source]
        ensures r.distance[a.destination] <= net.Extend(s.memory.distance[a.source], a)
      {
        assert InLaunches(a, launches);
        assert TaskDone(net, Frontier, m, r, a);
      }
      LongerWalks(net, o, s, r);
      NextRelaxed(net, o, s, r);
      if !r.changed {
        assert r.distance == s.memory.distance;
        FixpointIsExact(net, o, r.distance);
      } else {
        assert net.Attained(o, o, r.distance[o]);
      }
    }
  }

  /** An arc that is not relaxed after the phase starts at a node the phase improved. */
  lemma NextRelaxed(net: Network, o: nat, s: State, r: Memory)
    requires net.WellFormed() && o < net.nodeCount && Invariant(net, o, s) && s.mode == Running
    requires Shaped(net, r)
    requires Progress(net, o, Frontier, Cleared(net, s.memory), r)
    requires forall a :: a in net.arcs && net.Enabled(a) && s.active[a.source] ==>
               r.distance[a.destination] <= net.Extend(s.memory.distance[a.source], a)
    ensures forall a :: a in net.arcs && net.Enabled(a) ==> r.next[a.source] || net.Relaxed(r.distance, a)
  {
    forall a | a in net.arcs && net.Enabled(a) && !r.next[a.source]
      ensures net.Relaxed(r.distance, a)
    {
      assert r.distance[a.source] == s.memory.distance[a.source];
      assert s.active[a.source] || net.Relaxed(s.memory.distance, a);
    }
  }

  lemma StepKeeps(net: Network, o: nat, s: State, s': State)
    requires net.WellFormed() && o < net.nodeCount && Invariant(net, o, s) && Step(net, s, s')
    ensures Invariant(net, o, s')
  {
    if s' == s.(mode := Cancelled) {
    } else if s.phases == PhaseLimit(net) && s' == s.(mode := Converged) {
      ShortWalksSuffice(net, o, s.memory.distance, s.phases);
    } else if Covers(net, [], s.active) && s' == s.(mode := Converged) {
      forall a | a in net.arcs && net.Enabled(a)
        ensures net.Relaxed(s.memory.distance, a)
      {
        assert !InLaunches(a, []);
      }
      FixpointIsExact(net, o, s.memory.distance);
    } else {
      var launches, r :| Phase(net, s, launches, r, s');
      PhaseKeeps(net, o, s, launches, r, s');
    }
  }

  /** The invariant holds in every state of every run. */
  lemma {:induction false} RunKeeps(net: Network, o: nat, states: seq<State>, i: nat)
    requires net.WellFormed() && o < net.nodeCount && Run(net, o, states) && i < |states|
    ensures Invariant(net, o, states[i])
  {
    if i == 0 {
      InitialInvariant(net, o);
    } else {
      RunKeeps(net, o, states, i - 1);
      assert StepAt(net, states, i - 1);
      StepKeeps(net, o, states[i - 1], states[i]);
    }
  }

  /**
    Exactness: a run that ends uncancelled and without a fault holds the least walk cost of
    every node, whether it stopped early or used up the phase limit.
   */
  lemma ConvergedIsExact(net: Network, o: nat, states: seq<State>)
    requires net.WellFormed() && o < net.nodeCount && Run(net, o, states)
    requires states[|states| - 1].mode == Converged
    ensures net.Exact(o, states[|states| - 1].memory.distance)
  {
    RunKeeps(net, o, states, |states| - 1);
  }

  /** A run fails only on a network with a walk, of no more arcs than nodes, whose cost is infinite. */
  lemma FailureHasCause(net: Network, o: nat, states: seq<State>)
    requires net.WellFormed() && o < net.nodeCount && Run(net, o, states)
    requires states[|states| - 1].mode == Failed
    ensures states[|states| - 1].memory.status == INVALID_ARITHMETIC && net.Overflows(o)
  {
    RunKeeps(net, o, states, |states| - 1);
  }

  /** After k phases every distance is at most the cost of every walk of k or fewer arcs. */
  lemma PhasesCoverWalks(net: Network, o: nat, states: seq<State>, i: nat)
    requires net.WellFormed() && o < net.nodeCount && Run(net, o, states) && i < |states|
    requires states[i].mode == Running
    ensures |states[i].memory.distance| == net.nodeCount
    ensures net.BelowWalksOfLength(o, states[i].memory.distance, states[i].phases)
  {
    RunKeeps(net, o, states, i);
  }
}
