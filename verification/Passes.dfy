/**
  A pass is a list of kernel launches, each synchronised before the next: the chunks of
  a resident task list, or one launch per partition in either order. Its tasks together
  are the arcs of the selected sources, in any order and any grouping.
 */
module Passes {
  import opened Binary64
  import opened RoutingGraph
  import opened Kernels

  ghost predicate InLaunches(a: Arc, launches: seq<seq<Arc>>) {
    exists i :: 0 <= i < |launches| && a in launches[i]
  }

  /** The launches contain exactly the arcs whose source is selected. */
  ghost predicate Covers(net: Network, launches: seq<seq<Arc>>, selected: seq<bool>)
    requires |selected| == net.nodeCount
  {
    forall a: Arc :: InLaunches(a, launches) <==>
      a in net.arcs && a.source < net.nodeCount && selected[a.source]
  }

  /** Whether running the launches one after the other can take memory m to memory r. */
  ghost predicate PassTakes(net: Network, kind: Kind, launches: seq<seq<Arc>>, m: Memory, r: Memory)
    requires Shaped(net, m)
  {
    if launches == [] then
      r == m
    else
      exists between :: Shaped(net, between)
        && PassTakes(net, kind, launches[..|launches| - 1], m, between)
        && LaunchTakes(net, kind, launches[|launches| - 1], between, r)
  }

  lemma {:induction false} PassIsShaped(net: Network, kind: Kind, launches: seq<seq<Arc>>, m: Memory, r: Memory)
    requires Shaped(net, m) && PassTakes(net, kind, launches, m, r)
    ensures Shaped(net, r)
  {
  }

  ghost predicate TasksDone(net: Network, kind: Kind, m0: Memory, m: Memory, launches: seq<seq<Arc>>)
    requires Shaped(net, m0) && Shaped(net, m)
  {
    forall a :: InLaunches(a, launches) ==> TaskDone(net, kind, m0, m, a)
  }

  ghost predicate TasksAdmissible(net: Network, kind: Kind, m0: Memory, launches: seq<seq<Arc>>)
    requires Shaped(net, m0)
  {
    forall a :: InLaunches(a, launches) ==> Admissible(net, kind, m0, a)
  }

  lemma InLast(a: Arc, launches: seq<seq<Arc>>)
    requires launches != []
    ensures InLaunches(a, launches) <==>
              InLaunches(a, launches[..|launches| - 1]) || a in launches[|launches| - 1]
  {
    var earlier := launches[..|launches| - 1];
    if InLaunches(a, launches) && a !in launches[|launches| - 1] {
      var i :| 0 <= i < |launches| && a in launches[i];
      assert a in earlier[i];
    }
    if InLaunches(a, earlier) {
      var i :| 0 <= i < |earlier| && a in earlier[i];
      assert a in launches[i];
    }
  }

  /** A successful pass has progressed and every one of its tasks is done. */
  lemma {:induction false} PassOutcome(net: Network, o: nat, kind: Kind, launches: seq<seq<Arc>>, m: Memory, r: Memory)
    requires net.WellFormed() && (kind.Frontier? || net.arithmetic.Bucketed())
    requires Shaped(net, m) && Progress(net, o, kind, m, m)
    requires TasksAdmissible(net, kind, m, launches)
    requires PassTakes(net, kind, launches, m, r) && r.status == SUCCESS
    ensures m.status == SUCCESS && Progress(net, o, kind, m, r)
    ensures TasksDone(net, kind, m, r, launches)
  {
    if launches != [] {
      var earlier := launches[..|launches| - 1];
      var last := launches[|launches| - 1];
      var between :| Shaped(net, between) && PassTakes(net, kind, earlier, m, between)
        && LaunchTakes(net, kind, last, between, r);
      LaunchStatus(net, kind, last, between, r);
      assert TasksAdmissible(net, kind, m, earlier) && AllAdmissible(net, kind, m, last) by {
        forall a | InLaunches(a, earlier) || a in last
          ensures Admissible(net, kind, m, a)
        {
          InLast(a, launches);
        }
      }
      PassOutcome(net, o, kind, earlier, m, between);
      LaunchOutcome(net, o, kind, m, last, between, r);
      forall a | InLaunches(a, launches)
        ensures TaskDone(net, kind, m, r, a)
      {
        InLast(a, launches);
      }
    }
  }

  lemma LaunchStatus(net: Network, kind: Kind, tasks: seq<Arc>, m: Memory, r: Memory)
    requires Shaped(net, m) && LaunchTakes(net, kind, tasks, m, r) && r.status == SUCCESS
    ensures m.status == SUCCESS
  {
  }

  /** A pass over the network's own arcs fails only if some walk outgrows the numbers. */
  lemma {:induction false} PassStatusHasCause(net: Network, o: nat, kind: Kind, launches: seq<seq<Arc>>, m: Memory,
                                              r: Memory)
    requires net.WellFormed() && (kind.Frontier? || net.arithmetic.Bucketed())
    requires Shaped(net, m) && Progress(net, o, kind, m, m) && m.status == SUCCESS
    requires TasksAdmissible(net, kind, m, launches) && PassTakes(net, kind, launches, m, r)
    ensures StatusMeans(net, o, kind, r.status)
  {
    if launches != [] {
      var earlier := launches[..|launches| - 1];
      var last := launches[|launches| - 1];
      var between :| Shaped(net, between) && PassTakes(net, kind, earlier, m, between)
        && LaunchTakes(net, kind, last, between, r);
      forall a | InLaunches(a, earlier) || a in last
        ensures Admissible(net, kind, m, a)
      {
        InLast(a, launches);
      }
      PassStatusHasCause(net, o, kind, earlier, m, between);
      if between.status == SUCCESS {
        PassOutcome(net, o, kind, earlier, m, between);
      }
      LaunchStatusHasCause(net, o, kind, m, last, between, r);
    }
  }
}
