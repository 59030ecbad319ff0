/**
  Turning a set of selected sources into kernel tasks: the two-pass compaction of a
  resident CSR image, the same over the source segments of a partition, the binary
  search that finds the source of a CSR edge, and the choice of partitions in either
  order. All of them list exactly the arcs of the selected sources.
 */
module Compaction {
  import opened Basics
  import opened RoutingGraph
  import opened Passes
  import opened Hosts

  /** A resident image: row offsets and three parallel adjacency arrays. */
  datatype Csr = Csr(offsets: seq<nat>, destinations: seq<nat>, relations: seq<nat>, bases: seq<nat>) {
    ghost predicate Valid() {
      && |offsets| >= 1
      && Monotone(offsets)
      && |destinations| == |relations| == |bases|
      && offsets[0] == 0
      && offsets[|offsets| - 1] == |destinations|
    }

    function Rows(): nat
      requires |offsets| >= 1
    {
      |offsets| - 1
    }
  }

  datatype Segment = Segment(source: nat, start: nat, count: nat)

  /** One partition: source segments over its own adjacency arrays. */
  datatype Partition = Partition(segments: seq<Segment>, destinations: seq<nat>, relations: seq<nat>, bases: seq<nat>) {
    ghost predicate Valid() {
      && |destinations| == |relations| == |bases|
      && (forall i :: 0 <= i < |segments| ==> segments[i].start + segments[i].count <= |destinations|)
    }
  }

  /** Compacted task arrays, or the reason there are none. */
  datatype Tasks = Tasks(edges: seq<nat>, sources: seq<nat>) | NotAllocated | Interrupted

  ghost predicate Monotone(offsets: seq<nat>) {
    forall i, j :: 0 <= i <= j < |offsets| ==> offsets[i] <= offsets[j]
  }

  /** Edge e lies in row s. */
  predicate InRow(offsets: seq<nat>, s: nat, e: nat) {
    s + 1 < |offsets| && offsets[s] <= e < offsets[s + 1]
  }

  /** csr_source: the row of an edge, found by bisection over the row ends. */
  method CsrSource(offsets: seq<nat>, edge: nat, adjacencyCount: nat) returns (r: Option<nat>)
    requires |offsets| >= 1 && Monotone(offsets)
    ensures r.Some? ==> InRow(offsets, r.value, edge)
    ensures r.Some? <==> edge < adjacencyCount && exists s :: InRow(offsets, s, edge)
  {
    if edge >= adjacencyCount {
      return None;
    }
    var low, high := 0, |offsets| - 1;
    while low < high
      invariant 0 <= low <= high <= |offsets| - 1
      invariant forall s :: 0 < s <= low ==> offsets[s] <= edge
      invariant forall s :: high < s < |offsets| ==> edge < offsets[s]
    {
      var middle := low + (high - low) / 2;
      if offsets[middle + 1] <= edge {
        low := middle + 1;
      } else {
        high := middle;
      }
    }
    if low < |offsets| - 1 && offsets[low] <= edge && edge < offsets[low + 1] {
      r := Some(low);
      assert InRow(offsets, low, edge);
    } else {
      r := None;
      assert forall s: nat :: InRow(offsets, s, edge) ==> s == low;
    }
  }

  function Range(lo: nat, hi: nat): (r: seq<nat>)
    ensures |r| == if lo <= hi then hi - lo else 0
    ensures forall i :: 0 <= i < |r| ==> r[i] == lo + i
  {
    seq(if lo <= hi then hi - lo else 0, i => lo + i)
  }

  function Repeat(x: nat, n: nat): (r: seq<nat>)
    ensures |r| == n && forall i :: 0 <= i < n ==> r[i] == x
  {
    seq(n, _ => x)
  }

  predicate Chosen(selected: seq<bool>, s: nat) {
    s < |selected| && selected[s]
  }

  /** A stretch of consecutive edges with one source: a CSR row, or a segment. */
  datatype Stretch = Stretch(source: nat, lo: nat, hi: nat)

  function RowsOf(offsets: seq<nat>): (r: seq<Stretch>)
    requires |offsets| >= 1
    ensures |r| == |offsets| - 1
    ensures forall s :: 0 <= s < |r| ==> r[s] == Stretch(s, offsets[s], offsets[s + 1])
  {
    seq(|offsets| - 1, s requires 0 <= s < |offsets| - 1 => Stretch(s, offsets[s], offsets[s + 1]))
  }

  function SegmentsOf(segments: seq<Segment>): (r: seq<Stretch>)
    ensures |r| == |segments|
    ensures forall i :: 0 <= i < |r| ==>
              r[i] == Stretch(segments[i].source, segments[i].start, segments[i].start + segments[i].count)
  {
    seq(|segments|, i requires 0 <= i < |segments| =>
      Stretch(segments[i].source, segments[i].start, segments[i].start + segments[i].count))
  }

  /** The number of edges the first pass counts. */
  function CountedEdges(stretches: seq<Stretch>, selected: seq<bool>): nat {
    if stretches == [] then
      0
    else
      var x := stretches[|stretches| - 1];
      CountedEdges(stretches[..|stretches| - 1], selected)
      + (if Chosen(selected, x.source) && x.lo <= x.hi then x.hi - x.lo else 0)
  }

  function EdgesOf(stretches: seq<Stretch>, selected: seq<bool>): seq<nat> {
    if stretches == [] then
      []
    else
      var x := stretches[|stretches| - 1];
      EdgesOf(stretches[..|stretches| - 1], selected)
      + (if Chosen(selected, x.source) then Range(x.lo, x.hi) else [])
  }

  function SourcesOf(stretches: seq<Stretch>, selected: seq<bool>): seq<nat> {
    if stretches == [] then
      []
    else
      var x := stretches[|stretches| - 1];
      SourcesOf(stretches[..|stretches| - 1], selected)
      + (if Chosen(selected, x.source) then Repeat(x.source, |Range(x.lo, x.hi)|) else [])
  }

  /** The task (e, s) belongs to the selection. */
  ghost predicate IsTask(stretches: seq<Stretch>, selected: seq<bool>, e: nat, s: nat) {
    Chosen(selected, s) && exists i :: 0 <= i < |stretches| && stretches[i].source == s
                                 && stretches[i].lo <= e < stretches[i].hi
  }

  ghost predicate Lists(edges: seq<nat>, sources: seq<nat>, e: nat, s: nat) {
    |edges| == |sources| && exists i :: 0 <= i < |edges| && edges[i] == e && sources[i] == s
  }

  /** The second pass produces as many tasks as the first pass counted. */
  lemma {:induction false} CompactionLength(stretches: seq<Stretch>, selected: seq<bool>)
    ensures |EdgesOf(stretches, selected)| == |SourcesOf(stretches, selected)| == CountedEdges(stretches, selected)
  {
    if stretches != [] {
      CompactionLength(stretches[..|stretches| - 1], selected);
    }
  }

  /** One more stretch adds its own tasks. */
  lemma LastStretchLists(stretches: seq<Stretch>, selected: seq<bool>, e: nat, s: nat)
    requires stretches != []
    ensures Lists(EdgesOf(stretches, selected), SourcesOf(stretches, selected), e, s)
            <==> Lists(EdgesOf(stretches[..|stretches| - 1], selected),
                       SourcesOf(stretches[..|stretches| - 1], selected), e, s)
                 || InStretch(stretches[|stretches| - 1], selected, e, s)
  {
    var n := |stretches| - 1;
    var earlier, x := stretches[..n], stretches[n];
    CompactionLength(stretches, selected);
    CompactionLength(earlier, selected);
    var edges, sources := EdgesOf(stretches, selected), SourcesOf(stretches, selected);
    var before := |EdgesOf(earlier, selected)|;
    if Lists(edges, sources, e, s) {
      var i :| 0 <= i < |edges| && edges[i] == e && sources[i] == s;
      if i < before {
        assert EdgesOf(earlier, selected)[i] == e && SourcesOf(earlier, selected)[i] == s;
      }
    }
    if Lists(EdgesOf(earlier, selected), SourcesOf(earlier, selected), e, s) {
      var j :| 0 <= j < before && EdgesOf(earlier, selected)[j] == e && SourcesOf(earlier, selected)[j] == s;
      assert edges[j] == e && sources[j] == s;
    }
    if InStretch(x, selected, e, s) {
      var j := before + (e - x.lo);
      assert edges[j] == e && sources[j] == s;
    }
  }

  predicate InStretch(x: Stretch, selected: seq<bool>, e: nat, s: nat) {
    Chosen(selected, s) && x.source == s && x.lo <= e < x.hi
  }

  lemma LastStretchTask(stretches: seq<Stretch>, selected: seq<bool>, e: nat, s: nat)
    requires stretches != []
    ensures IsTask(stretches, selected, e, s)
            <==> IsTask(stretches[..|stretches| - 1], selected, e, s)
                 || InStretch(stretches[|stretches| - 1], selected, e, s)
  {
    var earlier := stretches[..|stretches| - 1];
    if IsTask(stretches, selected, e, s) {
      var i :| 0 <= i < |stretches| && stretches[i].source == s && stretches[i].lo <= e < stretches[i].hi;
      if i < |earlier| {
        assert earlier[i].source == s && earlier[i].lo <= e < earlier[i].hi;
      }
    }
    if IsTask(earlier, selected, e, s) {
      var i :| 0 <= i < |earlier| && earlier[i].source == s && earlier[i].lo <= e < earlier[i].hi;
      assert stretches[i].source == s && stretches[i].lo <= e < stretches[i].hi;
    }
  }

  /** The compacted list holds a task if and only if it belongs to the selection. */
  lemma {:induction false} CompactionIsExact(stretches: seq<Stretch>, selected: seq<bool>, e: nat, s: nat)
    ensures Lists(EdgesOf(stretches, selected), SourcesOf(stretches, selected), e, s)
            <==> IsTask(stretches, selected, e, s)
  {
    if stretches != [] {
      CompactionIsExact(stretches[..|stretches| - 1], selected, e, s);
      LastStretchLists(stretches, selected, e, s);
      LastStretchTask(stretches, selected, e, s);
    }
  }

  ghost predicate Ascending(edges: seq<nat>) {
    forall i, j :: 0 <= i < j < |edges| ==> edges[i] < edges[j]
  }

  /** Over CSR rows the compacted edges are strictly increasing, so each is listed once. */
  lemma {:induction false} ResidentAscends(offsets: seq<nat>, selected: seq<bool>, n: nat)
    requires |offsets| >= 1 && Monotone(offsets) && n < |offsets|
    ensures Ascending(EdgesOf(RowsOf(offsets)[..n], selected))
    ensures forall i :: 0 <= i < |EdgesOf(RowsOf(offsets)[..n], selected)| ==>
              EdgesOf(RowsOf(offsets)[..n], selected)[i] < offsets[n]
  {
    if n > 0 {
      ResidentAscends(offsets, selected, n - 1);
      var rows := RowsOf(offsets)[..n];
      assert rows[..n - 1] == RowsOf(offsets)[..n - 1];
      assert rows[n - 1] == Stretch(n - 1, offsets[n - 1], offsets[n]);
      assert offsets[n - 1] <= offsets[n];
    }
  }

  /** The tasks of one selected stretch, pushed one by one; the cancellation flag is polled on the way. */
  method AppendStretch(x: Stretch, edges: seq<nat>, sources: seq<nat>, host: Host)
    returns (whole: bool, allEdges: seq<nat>, allSources: seq<nat>)
    modifies host
    ensures host.Onward(old(host.loads), old(host.requests))
    ensures host.requests == old(host.requests)
    ensures if whole then host.Undisturbed(old(host.loads), old(host.requests)) else host.Stopped(old(host.loads))
    ensures whole ==> allEdges == edges + Range(x.lo, x.hi)
    ensures whole ==> allSources == sources + Repeat(x.source, |Range(x.lo, x.hi)|)
  {
    whole, allEdges, allSources := true, edges, sources;
    var edge := x.lo;
    while edge < x.hi
      invariant x.lo <= edge && (edge == x.lo || edge <= x.hi)
      invariant allEdges == edges + Range(x.lo, edge)
      invariant allSources == sources + Repeat(x.source, |Range(x.lo, edge)|)
      invariant host.requests == old(host.requests) && host.Undisturbed(old(host.loads), old(host.requests))
    {
      if edge % 1024 == 0 {
        var up := host.Load();
        if up {
          return false, edges, sources;
        }
      }
      assert Range(x.lo, edge + 1) == Range(x.lo, edge) + [edge];
      assert Repeat(x.source, |Range(x.lo, edge + 1)|) == Repeat(x.source, |Range(x.lo, edge)|) + [x.source];
      allEdges := allEdges + [edge];
      allSources := allSources + [x.source];
      edge := edge + 1;
    }
    assert Range(x.lo, edge) == Range(x.lo, x.hi);
  }

  /** The first pass: how many tasks there will be. */
  method CountStretches(stretches: seq<Stretch>, selected: seq<bool>, host: Host) returns (count: Option<nat>)
    modifies host
    ensures host.Onward(old(host.loads), old(host.requests))
    ensures host.requests == old(host.requests)
    ensures if count.Some? then host.Undisturbed(old(host.loads), old(host.requests)) else host.Stopped(old(host.loads))
    ensures count.Some? ==> count.value == CountedEdges(stretches, selected)
  {
    var n := 0;
    for i := 0 to |stretches|
      invariant n == CountedEdges(stretches[..i], selected)
      invariant host.requests == old(host.requests) && host.Undisturbed(old(host.loads), old(host.requests))
    {
      assert stretches[..i + 1][..i] == stretches[..i];
      var up := host.Load();
      if up {
        return None;
      }
      var x := stretches[i];
      if Chosen(selected, x.source) && x.lo <= x.hi {
        n := n + (x.hi - x.lo);
      }
    }
    assert stretches[..|stretches|] == stretches;
    count := Some(n);
  }

  /** The second pass: the tasks themselves. */
  method ListStretches(stretches: seq<Stretch>, selected: seq<bool>, host: Host)
    returns (whole: bool, edges: seq<nat>, sources: seq<nat>)
    modifies host
    ensures host.Onward(old(host.loads), old(host.requests))
    ensures host.requests == old(host.requests)
    ensures if whole then host.Undisturbed(old(host.loads), old(host.requests)) else host.Stopped(old(host.loads))
    ensures whole ==> edges == EdgesOf(stretches, selected) && sources == SourcesOf(stretches, selected)
  {
    whole, edges, sources := true, [], [];
    for i := 0 to |stretches|
      invariant whole && edges == EdgesOf(stretches[..i], selected)
      invariant sources == SourcesOf(stretches[..i], selected)
      invariant host.requests == old(host.requests) && host.Undisturbed(old(host.loads), old(host.requests))
    {
      assert stretches[..i + 1][..i] == stretches[..i];
      var up := host.Load();
      if up {
        return false, edges, sources;
      }
      var x := stretches[i];
      if Chosen(selected, x.source) {
        whole, edges, sources := AppendStretch(x, edges, sources, host);
        if !whole {
          return;
        }
      }
    }
    assert stretches[..|stretches|] == stretches;
  }

  /**
    The two passes over any list of stretches, with two reservations between them: cut short only by a load that
    found the flag up, without memory only after a refused reservation, and otherwise complete.
   */
  method CompactStretches(stretches: seq<Stretch>, selected: seq<bool>, host: Host) returns (r: Tasks)
    modifies host
    ensures host.Onward(old(host.loads), old(host.requests))
    ensures match r
            case Tasks(_, _) => host.Undisturbed(old(host.loads), old(host.requests))
            case NotAllocated => host.Refused(old(host.requests))
            case Interrupted => host.Stopped(old(host.loads))
    ensures r.Tasks? ==> r.edges == EdgesOf(stretches, selected) && r.sources == SourcesOf(stretches, selected)
  {
    var count := CountStretches(stretches, selected, host);
    if count.None? {
      return Interrupted;
    }
    var ok := host.Reserve();
    if ok {
      ok := host.Reserve();
    }
    if !ok {
      return NotAllocated;
    }
    var whole, edges, sources := ListStretches(stretches, selected, host);
    if !whole {
      return Interrupted;
    }
    CompactionLength(stretches, selected);
    assert |edges| == count.value;
    r := Tasks(edges, sources);
  }

  /** compact_resident_tasks: exactly the edges whose row is selected, each once, in order, with its row. */
  method CompactResident(offsets: seq<nat>, selected: seq<bool>, host: Host) returns (r: Tasks)
    requires |offsets| >= 1 && Monotone(offsets)
    modifies host
    ensures host.Onward(old(host.loads), old(host.requests))
    ensures match r
            case Tasks(_, _) => host.Undisturbed(old(host.loads), old(host.requests))
            case NotAllocated => host.Refused(old(host.requests))
            case Interrupted => host.Stopped(old(host.loads))
    ensures r.Tasks? ==> |r.edges| == |r.sources| == CountedEdges(RowsOf(offsets), selected)
    ensures r.Tasks? ==> Ascending(r.edges)
    ensures r.Tasks? ==> forall e, s :: Lists(r.edges, r.sources, e, s) <==> InRow(offsets, s, e) && Chosen(selected, s)
  {
    r := CompactStretches(RowsOf(offsets), selected, host);
    if r.Tasks? {
      CompactionLength(RowsOf(offsets), selected);
      ResidentAscends(offsets, selected, |offsets| - 1);
      assert RowsOf(offsets)[..|offsets| - 1] == RowsOf(offsets);
      forall e: nat, s: nat
        ensures Lists(r.edges, r.sources, e, s) <==> InRow(offsets, s, e) && Chosen(selected, s)
      {
        CompactionIsExact(RowsOf(offsets), selected, e, s);
        if InRow(offsets, s, e) {
          assert RowsOf(offsets)[s].source == s;
        }
      }
    }
  }

  /** compact_partition_tasks: exactly the local edges of the partition's selected segments, with their sources. */
  method CompactPartition(p: Partition, selected: seq<bool>, host: Host) returns (r: Tasks)
    modifies host
    ensures host.Onward(old(host.loads), old(host.requests))
    ensures match r
            case Tasks(_, _) => host.Undisturbed(old(host.loads), old(host.requests))
            case NotAllocated => host.Refused(old(host.requests))
            case Interrupted => host.Stopped(old(host.loads))
    ensures r.Tasks? ==> |r.edges| == |r.sources| == CountedEdges(SegmentsOf(p.segments), selected)
    ensures r.Tasks? ==> forall e, s :: Lists(r.edges, r.sources, e, s) <==>
              Chosen(selected, s) && exists i :: 0 <= i < |p.segments| && SegmentHolds(p.segments[i], e, s)
  {
    r := CompactStretches(SegmentsOf(p.segments), selected, host);
    if r.Tasks? {
      CompactionLength(SegmentsOf(p.segments), selected);
      forall e: nat, s: nat
        ensures Lists(r.edges, r.sources, e, s) <==>
                Chosen(selected, s) && exists i :: 0 <= i < |p.segments| && SegmentHolds(p.segments[i], e, s)
      {
        CompactionIsExact(SegmentsOf(p.segments), selected, e, s);
        if i :| 0 <= i < |p.segments| && SegmentHolds(p.segments[i], e, s) {
          assert SegmentsOf(p.segments)[i].source == s;
        }
        if Lists(r.edges, r.sources, e, s) {
          var stretches := SegmentsOf(p.segments);
          var i :| 0 <= i < |stretches| && stretches[i].source == s && stretches[i].lo <= e < stretches[i].hi;
          assert SegmentHolds(p.segments[i], e, s);
        }
      }
    }
  }

  predicate SegmentHolds(segment: Segment, e: nat, s: nat) {
    segment.source == s && segment.start <= e < segment.start + segment.count
  }

  /** The arc a task stands for in a set of adjacency arrays. */
  function ArcAt(s: nat, e: nat, destinations: seq<nat>, relations: seq<nat>, bases: seq<nat>): Arc
    requires e < |destinations| == |relations| == |bases|
  {
    Arc(s, destinations[e], relations[e], bases[e])
  }

  /** a is an arc of the CSR image. */
  ghost predicate CsrArc(csr: Csr, a: Arc)
    requires csr.Valid()
  {
    exists e: nat :: e < |csr.destinations| && InRow(csr.offsets, a.source, e)
      && a == ArcAt(a.source, e, csr.destinations, csr.relations, csr.bases)
  }

  /** a is an arc of the partition. */
  ghost predicate PartitionArc(p: Partition, a: Arc)
    requires p.Valid()
  {
    exists i, e: nat :: 0 <= i < |p.segments| && SegmentHolds(p.segments[i], e, a.source)
      && a == ArcAt(a.source, e, p.destinations, p.relations, p.bases)
  }

  ghost predicate InSomePartition(partitions: seq<Partition>, a: Arc)
    requires forall i :: 0 <= i < |partitions| ==> partitions[i].Valid()
  {
    exists i :: 0 <= i < |partitions| && PartitionArc(partitions[i], a)
  }

  ghost predicate OwnsSource(p: Partition, s: nat) {
    exists i :: 0 <= i < |p.segments| && p.segments[i].source == s
  }

  /** Where the adjacency lives: one resident CSR image, or partitions with a directory from sources to partitions. */
  datatype Topology =
    | Resident(csr: Csr)
    | Partitioned(partitions: seq<Partition>, directory: seq<set<nat>>, reversed: bool)

  /** The topology stores exactly the arcs of the network; for partitions, the segments tile the adjacency. */
  ghost predicate Stores(topology: Topology, net: Network) {
    match topology
    case Resident(csr) =>
      && csr.Valid() && csr.Rows() == net.nodeCount
      && (forall a :: a in net.arcs <==> CsrArc(csr, a))
    case Partitioned(partitions, directory, _) =>
      && |directory| == net.nodeCount
      && (forall i :: 0 <= i < |partitions| ==> partitions[i].Valid())
      && (forall a :: a in net.arcs <==> (a.source < net.nodeCount && InSomePartition(partitions, a)))
      && (forall s :: 0 <= s < |directory| ==>
            directory[s] == set i: nat | i < |partitions| && OwnsSource(partitions[i], s))
  }

  /** The kernel reads a task's adjacency words and so relaxes one arc. */
  function ArcsOfTasks(edges: seq<nat>, sources: seq<nat>, destinations: seq<nat>, relations: seq<nat>,
                       bases: seq<nat>): (r: seq<Arc>)
    requires |edges| == |sources| && |destinations| == |relations| == |bases|
    requires forall i :: 0 <= i < |edges| ==> edges[i] < |destinations|
    ensures |r| == |edges|
    ensures forall i :: 0 <= i < |edges| ==> r[i] == ArcAt(sources[i], edges[i], destinations, relations, bases)
  {
    seq(|edges|, i requires 0 <= i < |edges| => ArcAt(sources[i], edges[i], destinations, relations, bases))
  }

  /** Splitting a task list into chunks of bounded length loses and adds nothing. */
  method Chunks(tasks: seq<Arc>, limit: nat) returns (launches: seq<seq<Arc>>)
    requires limit > 0
    ensures forall a :: InLaunches(a, launches) <==> a in tasks
    ensures forall i :: 0 <= i < |launches| ==> 0 < |launches[i]| <= limit
  {
    launches := [];
    var at := 0;
    while at < |tasks|
      invariant at <= |tasks|
      invariant forall a :: InLaunches(a, launches) <==> a in tasks[..at]
      invariant forall i :: 0 <= i < |launches| ==> 0 < |launches[i]| <= limit
    {
      var end := if at + limit <= |tasks| then at + limit else |tasks|;
      var longer := launches + [tasks[at..end]];
      forall a
        ensures InLaunches(a, longer) <==> a in tasks[..end]
      {
        InLast(a, longer);
        assert longer[..|longer| - 1] == launches;
        assert tasks[..end] == tasks[..at] + tasks[at..end];
      }
      launches, at := longer, end;
    }
    assert tasks[..at] == tasks;
  }

  const CHUNK_LIMIT: nat := 0xFFFF_FFFF

  /** The launches of a pass, or why there are none: no memory for the tasks, or a cancellation on the way. */
  datatype PassPlan = Launches(launches: seq<seq<Arc>>) | Unallocated | Cut

  /** The launches of one pass over a resident image. */
  method PlanResident(csr: Csr, selected: seq<bool>, ghost net: Network, host: Host) returns (plan: PassPlan)
    requires Stores(Resident(csr), net) && |selected| == net.nodeCount
    modifies host
    ensures host.Onward(old(host.loads), old(host.requests))
    ensures match plan
            case Launches(_) => host.Undisturbed(old(host.loads), old(host.requests))
            case Unallocated => host.Refused(old(host.requests))
            case Cut => host.Stopped(old(host.loads))
    ensures plan.Launches? ==> Covers(net, plan.launches, selected)
  {
    var tasks := CompactResident(csr.offsets, selected, host);
    if !tasks.Tasks? {
      return if tasks.NotAllocated? then Unallocated else Cut;
    }
    forall i | 0 <= i < |tasks.edges|
      ensures tasks.edges[i] < |csr.destinations| && InRow(csr.offsets, tasks.sources[i], tasks.edges[i])
      ensures Chosen(selected, tasks.sources[i])
    {
      assert Lists(tasks.edges, tasks.sources, tasks.edges[i], tasks.sources[i]);
      assert csr.offsets[tasks.sources[i] + 1] <= csr.offsets[|csr.offsets| - 1];
    }
    var arcs := ArcsOfTasks(tasks.edges, tasks.sources, csr.destinations, csr.relations, csr.bases);
    var launches := Chunks(arcs, CHUNK_LIMIT);
    forall a: Arc
      ensures InLaunches(a, launches) <==> a in net.arcs && a.source < net.nodeCount && selected[a.source]
    {
      ResidentTaskArc(csr, selected, tasks.edges, tasks.sources, a);
    }
    plan := Launches(launches);
  }

  lemma ResidentTaskArc(csr: Csr, selected: seq<bool>, edges: seq<nat>, sources: seq<nat>, a: Arc)
    requires csr.Valid() && |selected| == csr.Rows() && |edges| == |sources|
    requires forall e, s :: Lists(edges, sources, e, s) <==> InRow(csr.offsets, s, e) && Chosen(selected, s)
    requires forall i :: 0 <= i < |edges| ==> edges[i] < |csr.destinations|
    ensures a in ArcsOfTasks(edges, sources, csr.destinations, csr.relations, csr.bases)
            <==> CsrArc(csr, a) && a.source < csr.Rows() && selected[a.source]
  {
    var arcs := ArcsOfTasks(edges, sources, csr.destinations, csr.relations, csr.bases);
    if a in arcs {
      var i :| 0 <= i < |arcs| && arcs[i] == a;
      assert Lists(edges, sources, edges[i], sources[i]);
    }
    if CsrArc(csr, a) && a.source < csr.Rows() && selected[a.source] {
      var e: nat :| e < |csr.destinations| && InRow(csr.offsets, a.source, e)
        && a == ArcAt(a.source, e, csr.destinations, csr.relations, csr.bases);
      assert Lists(edges, sources, e, a.source);
      var i :| 0 <= i < |edges| && edges[i] == e && sources[i] == a.source;
      assert arcs[i] == a;
    }
  }

  /** Partition i holds segments of an active source. */
  ghost predicate OfActive(directory: seq<set<nat>>, active: seq<bool>, i: nat)
    requires |active| <= |directory|
  {
    exists s :: 0 <= s < |active| && active[s] && i in directory[s]
  }

  /** active_partition_ids: the partitions of the active sources, each once, in ascending or descending order. */
  method ActivePartitions(directory: seq<set<nat>>, active: seq<bool>, partitionCount: nat, reversed: bool)
    returns (ids: seq<nat>)
    requires |active| == |directory|
    requires forall s, i :: 0 <= s < |directory| && i in directory[s] ==> i < partitionCount
    ensures forall i :: i in ids <==> OfActive(directory, active, i)
    ensures forall i, j :: 0 <= i < j < |ids| ==> if reversed then ids[i] > ids[j] else ids[i] < ids[j]
  {
    var chosen: set<nat> := {};
    for s := 0 to |active|
      invariant forall i :: i in chosen <==> OfActive(directory, active[..s], i)
    {
      ghost var before := active[..s];
      ghost var longer := active[..s + 1];
      forall i: nat
        ensures OfActive(directory, longer, i) <==> OfActive(directory, before, i) || (active[s] && i in directory[s])
      {
        if OfActive(directory, before, i) {
          var t :| 0 <= t < |before| && before[t] && i in directory[t];
          assert longer[t] && i in directory[t];
        }
        if active[s] && i in directory[s] {
          assert longer[s] && i in directory[s];
        }
      }
      if active[s] {
        chosen := chosen + directory[s];
      }
    }
    assert active[..|active|] == active;
    ids := [];
    for i := 0 to partitionCount
      invariant forall j :: j in ids <==> j in chosen && j < i
      invariant forall j :: 0 <= j < |ids| ==> ids[j] < i
      invariant forall j, k :: 0 <= j < k < |ids| ==> if reversed then ids[j] > ids[k] else ids[j] < ids[k]
    {
      if i in chosen {
        ids := if reversed then [i] + ids else ids + [i];
      }
    }
  }

  /** One partition's share of a pass. */
  method PlanPartition(p: Partition, selected: seq<bool>, host: Host) returns (tasks: Tasks, arcs: seq<Arc>)
    requires p.Valid()
    modifies host
    ensures host.Onward(old(host.loads), old(host.requests))
    ensures match tasks
            case Tasks(_, _) => host.Undisturbed(old(host.loads), old(host.requests))
            case NotAllocated => host.Refused(old(host.requests))
            case Interrupted => host.Stopped(old(host.loads))
    ensures tasks.Tasks? ==> forall a :: a in arcs <==> PartitionArc(p, a) && Chosen(selected, a.source)
  {
    tasks := CompactPartition(p, selected, host);
    arcs := [];
    if !tasks.Tasks? {
      return;
    }
    forall i | 0 <= i < |tasks.edges|
      ensures tasks.edges[i] < |p.destinations|
    {
      assert Lists(tasks.edges, tasks.sources, tasks.edges[i], tasks.sources[i]);
    }
    arcs := ArcsOfTasks(tasks.edges, tasks.sources, p.destinations, p.relations, p.bases);
    forall a: Arc
      ensures a in arcs <==> PartitionArc(p, a) && Chosen(selected, a.source)
    {
      PartitionTaskArc(p, selected, tasks.edges, tasks.sources, a);
    }
  }

  lemma PartitionTaskArc(p: Partition, selected: seq<bool>, edges: seq<nat>, sources: seq<nat>, a: Arc)
    requires p.Valid() && |edges| == |sources|
    requires forall e, s :: Lists(edges, sources, e, s) <==>
               Chosen(selected, s) && exists i :: 0 <= i < |p.segments| && SegmentHolds(p.segments[i], e, s)
    requires forall i :: 0 <= i < |edges| ==> edges[i] < |p.destinations|
    ensures a in ArcsOfTasks(edges, sources, p.destinations, p.relations, p.bases)
            <==> PartitionArc(p, a) && Chosen(selected, a.source)
  {
    var arcs := ArcsOfTasks(edges, sources, p.destinations, p.relations, p.bases);
    if a in arcs {
      var i :| 0 <= i < |arcs| && arcs[i] == a;
      assert Lists(edges, sources, edges[i], sources[i]);
    }
    if PartitionArc(p, a) && Chosen(selected, a.source) {
      var k, e: nat :| 0 <= k < |p.segments| && SegmentHolds(p.segments[k], e, a.source)
        && a == ArcAt(a.source, e, p.destinations, p.relations, p.bases);
      assert Lists(edges, sources, e, a.source);
      var i :| 0 <= i < |edges| && edges[i] == e && sources[i] == a.source;
      assert arcs[i] == a;
    }
  }

  /** The launches of one pass over the partitions of the selected sources, in the configured order. */
  method PlanPartitions(topology: Topology, selected: seq<bool>, ghost net: Network, host: Host)
    returns (plan: PassPlan)
    requires topology.Partitioned? && Stores(topology, net) && |selected| == net.nodeCount
    modifies host
    ensures host.Onward(old(host.loads), old(host.requests))
    ensures match plan
            case Launches(_) => host.Undisturbed(old(host.loads), old(host.requests))
            case Unallocated => host.Refused(old(host.requests))
            case Cut => host.Stopped(old(host.loads))
    ensures plan.Launches? ==> Covers(net, plan.launches, selected)
  {
    var ids := ActivePartitions(topology.directory, selected, |topology.partitions|, topology.reversed);
    var launches: seq<seq<Arc>> := [];
    for k := 0 to |ids|
      invariant forall a :: InLaunches(a, launches) <==>
                  exists j :: 0 <= j < k && ids[j] < |topology.partitions|
                    && PartitionArc(topology.partitions[ids[j]], a) && Chosen(selected, a.source)
      invariant host.Undisturbed(old(host.loads), old(host.requests))
    {
      var up := host.Load();
      if up {
        return Cut;
      }
      assert ids[k] in ids && OfActive(topology.directory, selected, ids[k]);
      assert topology.partitions[ids[k]].Valid();
      var tasks, share := PlanPartition(topology.partitions[ids[k]], selected, host);
      if !tasks.Tasks? {
        return if tasks.NotAllocated? then Unallocated else Cut;
      }
      OneLaunchMore(launches, share);
      launches := launches + [share];
    }
    forall a: Arc
      ensures InLaunches(a, launches) <==> a in net.arcs && a.source < net.nodeCount && selected[a.source]
    {
      ListedPartitionArc(topology, selected, net, ids, a);
    }
    plan := Launches(launches);
  }

  lemma OneLaunchMore(launches: seq<seq<Arc>>, share: seq<Arc>)
    ensures forall a :: InLaunches(a, launches + [share]) <==> InLaunches(a, launches) || a in share
  {
    var longer := launches + [share];
    forall a
      ensures InLaunches(a, longer) <==> InLaunches(a, launches) || a in share
    {
      InLast(a, longer);
      assert longer[..|longer| - 1] == launches;
    }
  }

  /** An arc is in a partition of the list exactly when its source is selected. */
  lemma ListedPartitionArc(topology: Topology, selected: seq<bool>, net: Network, ids: seq<nat>, a: Arc)
    requires topology.Partitioned? && Stores(topology, net) && |selected| == net.nodeCount
    requires forall i :: i in ids <==> OfActive(topology.directory, selected, i)
    ensures (exists j :: 0 <= j < |ids| && ids[j] < |topology.partitions|
               && PartitionArc(topology.partitions[ids[j]], a) && Chosen(selected, a.source))
            <==> a in net.arcs && a.source < net.nodeCount && selected[a.source]
  {
    if a in net.arcs && selected[a.source] {
      var i :| 0 <= i < |topology.partitions| && PartitionArc(topology.partitions[i], a);
      assert OwnsSource(topology.partitions[i], a.source);
      assert i in topology.directory[a.source];
      assert OfActive(topology.directory, selected, i);
      var j :| 0 <= j < |ids| && ids[j] == i;
    }
  }

  /** The launches of one pass over either topology. */
  method Plan(topology: Topology, selected: seq<bool>, ghost net: Network, host: Host) returns (plan: PassPlan)
    requires Stores(topology, net) && |selected| == net.nodeCount
    modifies host
    ensures host.Onward(old(host.loads), old(host.requests))
    ensures match plan
            case Launches(_) => host.Undisturbed(old(host.loads), old(host.requests))
            case Unallocated => host.Refused(old(host.requests))
            case Cut => host.Stopped(old(host.loads))
    ensures plan.Launches? ==> Covers(net, plan.launches, selected)
  {
    if topology.Resident? {
      plan := PlanResident(topology.csr, selected, net, host);
    } else {
      plan := PlanPartitions(topology, selected, net, host);
    }
  }
}
