/**
  From distances to a response: destination states, completion reason and the
  first-destination flag, the shortcuts that skip the search, and the codec's rules for
  the combination. Every response the router builds is one the codec accepts, and an
  uncancelled one tells the truth about every destination.
 */
module Response {
  import opened Basics
  import opened Binary64
  import opened RoutingGraph
  import opened FrontierSearch

  datatype DestinationState = Exact(distance: nat) | Unreachable | MissingNode | Incomplete

  datatype CompletionReason = AllDestinationsFinalized | FrontierExhausted | BudgetExhausted | CancelledEarly

  /** The state of one requested destination; None is a node the image does not have. */
  function Classify(dense: Option<nat>, origin: nat, cancelled: bool, distance: seq<nat>): DestinationState
    requires dense.Some? ==> dense.value < |distance|
  {
    match dense
    case None => MissingNode
    case Some(v) =>
      if v == origin then Exact(0)
      else if cancelled then Incomplete
      else if distance[v] == INFINITY then Unreachable
      else Exact(distance[v])
  }

  predicate InRange(destinations: seq<Option<nat>>, n: nat) {
    forall i :: 0 <= i < |destinations| && destinations[i].Some? ==> destinations[i].value < n
  }

  function States(destinations: seq<Option<nat>>, origin: nat, cancelled: bool, distance: seq<nat>)
    : (r: seq<DestinationState>)
    requires InRange(destinations, |distance|)
  {
    seq(|destinations|, i requires 0 <= i < |destinations| => Classify(destinations[i], origin, cancelled, distance))
  }

  predicate Final(state: DestinationState) {
    state.Exact? || state.MissingNode?
  }

  function Reason(cancelled: bool, states: seq<DestinationState>): CompletionReason {
    if cancelled then CancelledEarly
    else if forall i :: 0 <= i < |states| ==> Final(states[i]) then AllDestinationsFinalized
    else FrontierExhausted
  }

  /** Whether the response carries a first-destination time. */
  predicate FirstDestination(cancelled: bool, destinations: seq<Option<nat>>) {
    !cancelled && exists i :: 0 <= i < |destinations| && destinations[i].Some?
  }

  /** No adjacency, or no present destination but the origin. */
  predicate NoSearchNeeded(net: Network, destinations: seq<Option<nat>>, origin: nat) {
    net.arcs == {} || forall i :: 0 <= i < |destinations| && destinations[i].Some? ==> destinations[i].value == origin
  }

  /** The distances a response is built from; without a search they are the initial ones. */
  function Distances(net: Network, origin: nat, skipped: bool, searched: seq<nat>): seq<nat> {
    if skipped then InitialDistances(net, origin) else searched
  }

  // The codec's rules.

  /** How many states of each kind there are. */
  datatype Counts = Counts(exact: nat, unreachable: nat, missing: nat, incomplete: nat)

  function Add(c: Counts, state: DestinationState): Counts {
    match state
    case Exact(_) => c.(exact := c.exact + 1)
    case Unreachable => c.(unreachable := c.unreachable + 1)
    case MissingNode => c.(missing := c.missing + 1)
    case Incomplete => c.(incomplete := c.incomplete + 1)
  }

  function CountStates(states: seq<DestinationState>): Counts {
    if states == [] then Counts(0, 0, 0, 0) else Add(CountStates(states[..|states| - 1]), states[|states| - 1])
  }

  /** The completion-state rules of the response validation. */
  predicate Consistent(counts: Counts, reason: CompletionReason, first: bool) {
    && (match reason
        case AllDestinationsFinalized => counts.unreachable == 0 && counts.incomplete == 0
        case FrontierExhausted => counts.unreachable != 0 && counts.incomplete == 0
        case BudgetExhausted => counts.unreachable == 0 && counts.incomplete != 0
        case CancelledEarly => counts.unreachable == 0)
    && (if reason != CancelledEarly
        then first <==> (counts.exact != 0 || counts.unreachable != 0)
        else first ==> counts.exact != 0)
  }

  /** The same rules, said of the results themselves. */
  predicate Allowed(states: seq<DestinationState>, reason: CompletionReason, first: bool) {
    && (match reason
        case AllDestinationsFinalized =>
          forall i :: 0 <= i < |states| ==> !states[i].Unreachable? && !states[i].Incomplete?
        case FrontierExhausted =>
          && (forall i :: 0 <= i < |states| ==> !states[i].Incomplete?)
          && (exists i :: 0 <= i < |states| && states[i].Unreachable?)
        case BudgetExhausted =>
          && (forall i :: 0 <= i < |states| ==> !states[i].Unreachable?)
          && (exists i :: 0 <= i < |states| && states[i].Incomplete?)
        case CancelledEarly => forall i :: 0 <= i < |states| ==> !states[i].Unreachable?)
    && (reason == CancelledEarly && first ==> exists i :: 0 <= i < |states| && states[i].Exact?)
    && (reason != CancelledEarly ==>
          (first <==> exists i :: 0 <= i < |states| && (states[i].Exact? || states[i].Unreachable?)))
  }

  /** Counting the states loses nothing the rules depend on. */
  lemma CountsDecide(states: seq<DestinationState>, reason: CompletionReason, first: bool)
    ensures Consistent(CountStates(states), reason, first) <==> Allowed(states, reason, first)
  {
    CountsAreExact(states);
  }

  /** The validator's loop over the results decides the rules. */
  method Validate(states: seq<DestinationState>, reason: CompletionReason, first: bool) returns (ok: bool)
    ensures ok <==> Allowed(states, reason, first)
  {
    CountsDecide(states, reason, first);
    var exact, unreachable, missing, incomplete := 0, 0, 0, 0;
    for i := 0 to |states|
      invariant CountStates(states[..i]) == Counts(exact, unreachable, missing, incomplete)
    {
      assert states[..i + 1][..i] == states[..i];
      match states[i] {
        case Exact(_) => exact := exact + 1;
        case Unreachable => unreachable := unreachable + 1;
        case MissingNode => missing := missing + 1;
        case Incomplete => incomplete := incomplete + 1;
      }
    }
    assert states[..|states|] == states;
    var completion :=
      match reason
      case AllDestinationsFinalized => unreachable == 0 && incomplete == 0
      case FrontierExhausted => unreachable != 0 && incomplete == 0
      case BudgetExhausted => unreachable == 0 && incomplete != 0
      case CancelledEarly => unreachable == 0;
    if !completion {
      return false;
    }
    if reason != CancelledEarly {
      return first == (exact != 0 || unreachable != 0);
    }
    ok := !(first && exact == 0);
  }

  /** A count is zero exactly when no state is of its kind. */
  lemma {:induction false} CountsAreExact(states: seq<DestinationState>)
    ensures CountStates(states).exact == 0 <==> forall i :: 0 <= i < |states| ==> !states[i].Exact?
    ensures CountStates(states).unreachable == 0 <==> forall i :: 0 <= i < |states| ==> !states[i].Unreachable?
    ensures CountStates(states).incomplete == 0 <==> forall i :: 0 <= i < |states| ==> !states[i].Incomplete?
  {
    if states != [] {
      var last := |states| - 1;
      CountsAreExact(states[..last]);
      assert forall i :: 0 <= i < |states| ==> states[i] == if i < last then states[..last][i] else states[last];
    }
  }

  /** For every destination list, distance array and cancellation, the response satisfies the codec's rules. */
  lemma ProducerMeetsValidator(destinations: seq<Option<nat>>, origin: nat, cancelled: bool, distance: seq<nat>)
    requires InRange(destinations, |distance|)
    ensures var states := States(destinations, origin, cancelled, distance);
            Allowed(states, Reason(cancelled, states), FirstDestination(cancelled, destinations))
  {
    var states := States(destinations, origin, cancelled, distance);
    if !cancelled && FirstDestination(cancelled, destinations) {
      var i :| 0 <= i < |destinations| && destinations[i].Some?;
      assert states[i].Exact? || states[i].Unreachable?;
    }
  }

  /** All that a cancelled response may say of a destination. */
  predicate CancelledState(dense: Option<nat>, origin: nat, state: DestinationState) {
    && (dense == None <==> state.MissingNode?)
    && (dense == Some(origin) <==> state == Exact(0))
    && (state == Exact(0) || state.MissingNode? || state.Incomplete?)
  }

  /** A cancelled response tells a missing node, reports the origin at zero, and leaves everything else open. */
  lemma CancelledReportsOnlyOrigin(destinations: seq<Option<nat>>, origin: nat, distance: seq<nat>)
    requires InRange(destinations, |distance|)
    ensures |States(destinations, origin, true, distance)| == |destinations|
    ensures forall i :: 0 <= i < |destinations| ==>
              CancelledState(destinations[i], origin, States(destinations, origin, true, distance)[i])
  {
  }

  /** Without arcs the initial distances are already exact. */
  lemma NoArcsIsExact(net: Network, o: nat)
    requires net.WellFormed() && o < net.nodeCount && net.arcs == {}
    ensures net.Exact(o, InitialDistances(net, o))
  {
    var d := InitialDistances(net, o);
    forall v | 0 <= v < net.nodeCount
      ensures net.Attained(o, v, d[v])
    {
      if v == o {
        assert net.Walk(o, [], v) && net.Cost([]) == 0;
      }
    }
    forall p: seq<Arc>, v: nat | net.Walk(o, p, v) && v < net.nodeCount
      ensures d[v] <= net.Cost(p)
    {
      assert p == [];
    }
  }

  lemma OriginIsAtZero(net: Network, o: nat, d: seq<nat>)
    requires net.Exact(o, d) && o < net.nodeCount
    ensures d[o] == 0
  {
    assert net.Walk(o, [], o) && net.Cost([]) == 0;
  }

  /** What an exact distance array says about a destination. */
  function Truth(dense: Option<nat>, d: seq<nat>): DestinationState
    requires dense.Some? ==> dense.value < |d|
  {
    match dense
    case None => MissingNode
    case Some(v) => if d[v] == INFINITY then Unreachable else Exact(d[v])
  }

  /**
    An uncancelled response is true: whether the search ran to its exact end or was skipped, every destination's
    state is the one the least walk costs dictate. In particular the shortcut changes no state.
   */
  lemma ResponseIsTrue(net: Network, o: nat, destinations: seq<Option<nat>>, searched: seq<nat>, d: seq<nat>, i: nat)
    requires net.WellFormed() && o < net.nodeCount && InRange(destinations, net.nodeCount) && i < |destinations|
    requires net.Exact(o, d)
    requires !NoSearchNeeded(net, destinations, o) ==> net.Exact(o, searched)
    ensures var distance := Distances(net, o, NoSearchNeeded(net, destinations, o), searched);
            |distance| == net.nodeCount
            && States(destinations, o, false, distance)[i] == Truth(destinations[i], d)
  {
    OriginIsAtZero(net, o, d);
    if net.arcs == {} {
      NoArcsIsExact(net, o);
      ExactIsUnique(net, o, InitialDistances(net, o), d);
    } else if !NoSearchNeeded(net, destinations, o) {
      ExactIsUnique(net, o, searched, d);
    }
  }

  /** What that means: a reported distance is the least cost of a walk, and unreachable means no walk of finite cost. */
  lemma TruthIsLeast(net: Network, o: nat, d: seq<nat>, v: nat, p: seq<Arc>)
    requires net.WellFormed() && net.Exact(o, d) && v < net.nodeCount && net.Walk(o, p, v)
    ensures match Truth(Some(v), d)
            case Exact(x) => x <= net.Cost(p) && exists q :: net.Walk(o, q, v) && net.Cost(q) == x
            case _ => net.Cost(p) == INFINITY
  {
    CostIsBounded(net, p);
  }
}
