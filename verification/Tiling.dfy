/**
  Segments that tile a resident adjacency store the same arcs, so a partitioned search,
  in either partition order, ends with the distances of the resident search, and the two
  algorithms agree with each other.
 */
module Tiling {
  import opened RoutingGraph
  import opened Kernels
  import opened FrontierSearch
  import opened DeltaSearch
  import opened Compaction

  /** Local edge e of a partition, under one of its segments, is edge at + e of the image, in the segment's row. */
  ghost predicate SegmentAgrees(csr: Csr, p: Partition, at: nat, s: nat, e: nat)
    requires csr.Valid() && p.Valid() && e < |p.destinations|
  {
    && InRow(csr.offsets, s, at + e) && at + e < |csr.destinations|
    && p.destinations[e] == csr.destinations[at + e]
    && p.relations[e] == csr.relations[at + e]
    && p.bases[e] == csr.bases[at + e]
  }

  /** Some segment of some partition carries edge e of row s. */
  ghost predicate Carried(partitions: seq<Partition>, at: seq<nat>, s: nat, e: nat)
    requires |at| == |partitions|
  {
    exists i, k, local: nat :: 0 <= i < |partitions| && 0 <= k < |partitions[i].segments|
      && SegmentHolds(partitions[i].segments[k], local, s) && at[i] + local == e
  }

  /** The segments tile the adjacency: each lies inside a row, at its partition's place, and every edge is carried. */
  ghost predicate Tiles(csr: Csr, partitions: seq<Partition>, at: seq<nat>) {
    && csr.Valid() && |at| == |partitions|
    && (forall i :: 0 <= i < |partitions| ==> partitions[i].Valid())
    && (forall i, k, s: nat, e: nat ::
          (0 <= i < |partitions| && 0 <= k < |partitions[i].segments| && SegmentHolds(partitions[i].segments[k], e, s))
          ==> SegmentAgrees(csr, partitions[i], at[i], s, e))
    && (forall s: nat, e: nat {:trigger Carried(partitions, at, s, e)} ::
          InRow(csr.offsets, s, e) ==> Carried(partitions, at, s, e))
  }

  /** Where the words agree, the partition's task and the image's task are the same arc. */
  lemma SameArc(csr: Csr, p: Partition, at: nat, s: nat, e: nat)
    requires csr.Valid() && p.Valid() && e < |p.destinations| && SegmentAgrees(csr, p, at, s, e)
    ensures ArcAt(s, e, p.destinations, p.relations, p.bases)
            == ArcAt(s, at + e, csr.destinations, csr.relations, csr.bases)
  {
  }

  lemma TilesAgree(csr: Csr, partitions: seq<Partition>, at: seq<nat>, i: nat, k: nat, s: nat, e: nat)
    requires Tiles(csr, partitions, at) && i < |partitions| && k < |partitions[i].segments|
    requires SegmentHolds(partitions[i].segments[k], e, s)
    ensures partitions[i].Valid() && e < |partitions[i].destinations|
    ensures SegmentAgrees(csr, partitions[i], at[i], s, e)
    ensures ArcAt(s, e, partitions[i].destinations, partitions[i].relations, partitions[i].bases)
            == ArcAt(s, at[i] + e, csr.destinations, csr.relations, csr.bases)
  {
    assert partitions[i].Valid();
    SameArc(csr, partitions[i], at[i], s, e);
  }

  lemma ArcOfCsr(csr: Csr, s: nat, e: nat)
    requires csr.Valid() && InRow(csr.offsets, s, e) && e < |csr.destinations|
    ensures CsrArc(csr, ArcAt(s, e, csr.destinations, csr.relations, csr.bases))
  {
  }

  lemma ArcOfPartition(p: Partition, k: nat, s: nat, e: nat)
    requires p.Valid() && k < |p.segments| && SegmentHolds(p.segments[k], e, s)
    ensures PartitionArc(p, ArcAt(s, e, p.destinations, p.relations, p.bases))
  {
  }

  lemma TiledArc(csr: Csr, partitions: seq<Partition>, at: seq<nat>, i: nat, a: Arc)
    requires Tiles(csr, partitions, at) && i < |partitions| && PartitionArc(partitions[i], a)
    ensures CsrArc(csr, a)
  {
    var k, e: nat :| 0 <= k < |partitions[i].segments| && SegmentHolds(partitions[i].segments[k], e, a.source)
      && a == ArcAt(a.source, e, partitions[i].destinations, partitions[i].relations, partitions[i].bases);
    TilesAgree(csr, partitions, at, i, k, a.source, e);
    ArcOfCsr(csr, a.source, at[i] + e);
  }

  /** The segment that carries an edge of the image. */
  lemma Carrier(csr: Csr, partitions: seq<Partition>, at: seq<nat>, s: nat, e: nat) returns (i: nat, k: nat, local: nat)
    requires Tiles(csr, partitions, at) && InRow(csr.offsets, s, e)
    ensures i < |partitions| && k < |partitions[i].segments|
    ensures SegmentHolds(partitions[i].segments[k], local, s) && at[i] + local == e
  {
    assert Carried(partitions, at, s, e);
    i, k, local :| 0 <= i < |partitions| && 0 <= k < |partitions[i].segments|
      && SegmentHolds(partitions[i].segments[k], local, s) && at[i] + local == e;
  }

  lemma CarriedArc(csr: Csr, partitions: seq<Partition>, at: seq<nat>, a: Arc) returns (i: nat)
    requires Tiles(csr, partitions, at) && CsrArc(csr, a)
    ensures i < |partitions| && PartitionArc(partitions[i], a)
  {
    var e: nat :| e < |csr.destinations| && InRow(csr.offsets, a.source, e)
      && a == ArcAt(a.source, e, csr.destinations, csr.relations, csr.bases);
    var k, local;
    i, k, local := Carrier(csr, partitions, at, a.source, e);
    TilesAgree(csr, partitions, at, i, k, a.source, local);
    ArcOfPartition(partitions[i], k, a.source, local);
  }

  /** Tiling segments store exactly the resident arcs, wherever a row is split and whatever the order. */
  lemma TilesStoreTheSameArcs(csr: Csr, partitions: seq<Partition>, at: seq<nat>, directory: seq<set<nat>>,
                              reversed: bool, net: Network)
    requires Stores(Resident(csr), net) && Tiles(csr, partitions, at) && |directory| == net.nodeCount
    requires forall s :: 0 <= s < |directory| ==>
               directory[s] == set i: nat | i < |partitions| && OwnsSource(partitions[i], s)
    ensures Stores(Partitioned(partitions, directory, reversed), net)
  {
    forall a: Arc
      ensures a in net.arcs <==> (a.source < net.nodeCount && InSomePartition(partitions, a))
    {
      if i :| 0 <= i < |partitions| && PartitionArc(partitions[i], a) {
        TiledArc(csr, partitions, at, i, a);
      }
      if CsrArc(csr, a) {
        var i := CarriedArc(csr, partitions, at, a);
      }
    }
  }

  /** Two converged frontier searches of one network end alike, whatever their launches and schedulers. */
  lemma FrontierRunsAgree(net: Network, o: nat, a: seq<State>, b: seq<State>)
    requires net.WellFormed() && o < net.nodeCount && Run(net, o, a) && Run(net, o, b)
    requires a[|a| - 1].mode == Converged && b[|b| - 1].mode == Converged
    ensures a[|a| - 1].memory.distance == b[|b| - 1].memory.distance
  {
    ConvergedIsExact(net, o, a);
    ConvergedIsExact(net, o, b);
    ExactIsUnique(net, o, a[|a| - 1].memory.distance, b[|b| - 1].memory.distance);
  }

  /** Two settled delta searches of one network end alike, whatever their launches and schedulers. */
  lemma DeltaRunsAgree(net: Network, o: nat, a: seq<DeltaState>, b: seq<DeltaState>)
    requires Sane(net, o) && net.HeavyArcsAdvance(o) && DeltaRun(net, o, a) && DeltaRun(net, o, b)
    requires a[|a| - 1].stage == Settled && b[|b| - 1].stage == Settled
    ensures a[|a| - 1].memory.distance == b[|b| - 1].memory.distance
  {
    SettledIsExact(net, o, a);
    SettledIsExact(net, o, b);
    ExactIsUnique(net, o, a[|a| - 1].memory.distance, b[|b| - 1].memory.distance);
  }

  /** A settled delta search ends with the distances of a converged frontier search. */
  lemma AlgorithmsAgree(net: Network, o: nat, a: seq<State>, b: seq<DeltaState>)
    requires Sane(net, o) && net.HeavyArcsAdvance(o) && Run(net, o, a) && DeltaRun(net, o, b)
    requires a[|a| - 1].mode == Converged && b[|b| - 1].stage == Settled
    ensures a[|a| - 1].memory.distance == b[|b| - 1].memory.distance
  {
    ConvergedIsExact(net, o, a);
    SettledIsExact(net, o, b);
    ExactIsUnique(net, o, a[|a| - 1].memory.distance, b[|b| - 1].memory.distance);
  }
}
