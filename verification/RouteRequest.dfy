/**
  A distance-only route from end to end: mapped destinations, the shortcuts, a search by
  either algorithm over either topology, and the response built from what it left behind.
 */
module RouteRequest {
  import opened Basics
  import opened RoutingGraph
  import opened FrontierSearch
  import opened DeltaSearch
  import opened Compaction
  import opened Hosts
  import opened Router
  import opened Response

  datatype Algorithm = FrontierRelaxation | DeltaStepping

  /** How a search ends: with distances, cut short after it saw the cancellation flag, or with an error. */
  datatype Search = Distances(bits: seq<nat>) | CutShort(bits: seq<nat>) | SearchFailed

  method RunSearch(net: Network, topology: Topology, origin: nat, algorithm: Algorithm, blockSize: nat, host: Host)
    returns (r: Search)
    requires Sane(net, origin) && Stores(topology, net) && blockSize > 0
    modifies host
    ensures host.Onward(old(host.loads), old(host.requests))
    ensures match r
            case Distances(_) => host.Undisturbed(old(host.loads), old(host.requests))
            case CutShort(_) => host.Stopped(old(host.loads))
            case SearchFailed =>
              host.Refused(old(host.requests)) || net.Overflows(origin)
              || (algorithm.DeltaStepping? && net.Outgrows(origin))
    ensures !r.SearchFailed? ==> |r.bits| == net.nodeCount
    ensures r.Distances? && (algorithm.DeltaStepping? ==> net.HeavyArcsAdvance(origin)) ==> net.Exact(origin, r.bits)
  {
    if algorithm.FrontierRelaxation? {
      var device, phases, mode, compacted, states := RunFrontier(net, topology, origin, blockSize, host);
      var bits := device.distance[..];
      match mode {
        case Converged => return Distances(bits);
        case Cancelled => return CutShort(bits);
        case _ => return SearchFailed;
      }
    }
    var device, phases, stage, compacted, run := RunDelta(net, topology, origin, blockSize, host);
    var bits := device.distance[..];
    match stage {
      case Settled => return Distances(bits);
      case Stopped => return CutShort(bits);
      case _ => return SearchFailed;
    }
  }

  datatype Answer =
    | Answer(states: seq<DestinationState>, reason: CompletionReason, first: bool)
    | RouteFailed

  /** The response that goes with the last look at the flag. */
  method Respond(destinations: seq<Option<nat>>, origin: nat, cancelled: bool, bits: seq<nat>) returns (r: Answer)
    requires InRange(destinations, |bits|)
    ensures r.Answer? && r.states == States(destinations, origin, cancelled, bits)
    ensures |r.states| == |destinations| && Allowed(r.states, r.reason, r.first)
    ensures r.reason == CancelledEarly <==> cancelled
    ensures cancelled ==> !r.first
    ensures cancelled ==>
              forall i :: 0 <= i < |destinations| ==> CancelledState(destinations[i], origin, r.states[i])
  {
    var states := States(destinations, origin, cancelled, bits);
    ProducerMeetsValidator(destinations, origin, cancelled, bits);
    CancelledReportsOnlyOrigin(destinations, origin, bits);
    r := Answer(states, Reason(cancelled, states), FirstDestination(cancelled, destinations));
  }

  /** Every state is the one the least costs dictate. */
  ghost predicate Tells(net: Network, origin: nat, destinations: seq<Option<nat>>, states: seq<DestinationState>)
    requires InRange(destinations, net.nodeCount)
  {
    |states| == |destinations|
    && exists d :: net.Exact(origin, d)
         && forall i :: 0 <= i < |destinations| ==> states[i] == Truth(destinations[i], d)
  }

  lemma UncancelledTells(net: Network, origin: nat, destinations: seq<Option<nat>>, bits: seq<nat>)
    requires net.WellFormed() && origin < net.nodeCount && InRange(destinations, net.nodeCount)
    requires |bits| == net.nodeCount
    requires if NoSearchNeeded(net, destinations, origin) then bits == InitialDistances(net, origin)
             else net.Exact(origin, bits)
    ensures Tells(net, origin, destinations, States(destinations, origin, false, bits))
  {
    var d := ExactExists(net, origin);
    forall i | 0 <= i < |destinations|
      ensures States(destinations, origin, false, bits)[i] == Truth(destinations[i], d)
    {
      ResponseIsTrue(net, origin, destinations, bits, d, i);
    }
  }

  /**
    The route: whatever the interleavings and the moment of cancellation, an answer satisfies the codec's rules. It
    is a cancelled one exactly when the last look found the flag up, and then leaves everything but the origin open;
    any other tells the least costs. The route fails only for want of memory or on a walk that outgrows the numbers.
   */
  method Route(net: Network, topology: Topology, origin: nat, destinations: seq<Option<nat>>, algorithm: Algorithm,
               blockSize: nat, host: Host)
    returns (r: Answer)
    requires Sane(net, origin) && Stores(topology, net) && InRange(destinations, net.nodeCount) && blockSize > 0
    requires Rising(host.raised)
    modifies host
    ensures host.Onward(old(host.loads), old(host.requests))
    ensures old(host.loads) < host.loads
    ensures r.Answer? ==> |r.states| == |destinations| && Allowed(r.states, r.reason, r.first)
    ensures r.Answer? ==> (r.reason == CancelledEarly <==> host.raised(host.loads - 1))
    ensures host.raised(old(host.loads)) ==> r.Answer? && r.reason == CancelledEarly
    ensures r.RouteFailed? ==>
              host.Refused(old(host.requests)) || net.Overflows(origin)
              || (algorithm.DeltaStepping? && net.Outgrows(origin))
    ensures r.Answer? && r.reason == CancelledEarly ==>
              !r.first && forall i :: 0 <= i < |destinations| ==> CancelledState(destinations[i], origin, r.states[i])
    ensures r.Answer? && r.reason != CancelledEarly
            && (algorithm.DeltaStepping? ==> net.HeavyArcsAdvance(origin)) ==>
              Tells(net, origin, destinations, r.states)
  {
    var cancelled := host.Load();
    var bits := InitialDistances(net, origin);
    var skipped := NoSearchNeeded(net, destinations, origin);
    if !cancelled && !skipped {
      var search := RunSearch(net, topology, origin, algorithm, blockSize, host);
      if search.SearchFailed? {
        return RouteFailed;
      }
      bits := search.bits;
      cancelled := host.Load();
    } else if !cancelled {
      cancelled := host.Load();
    }
    if !cancelled && (algorithm.DeltaStepping? ==> net.HeavyArcsAdvance(origin)) {
      UncancelledTells(net, origin, destinations, bits);
    }
    r := Respond(destinations, origin, cancelled, bits);
  }
}
