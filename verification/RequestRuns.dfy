/**
  Runs of the request protocol: every interleaving of the atomic accesses of all threads,
  and what holds in every state of every run.
 */
module RequestRuns {
  import opened Basics
  import opened Requests

  ghost predicate StepAt(states: seq<System>, i: nat) {
    i + 1 < |states| ==> exists a :: Enabled(states[i], a) && states[i + 1] == Apply(states[i], a)
  }

  ghost predicate Run(states: seq<System>) {
    states != [] && states[0] == Initial && forall i: nat :: StepAt(states, i)
  }

  lemma StepKeeps(states: seq<System>, i: nat)
    requires Run(states) && i + 1 < |states| && Invariant(states[i])
    ensures Invariant(states[i + 1])
  {
    assert StepAt(states, i);
    var a :| Enabled(states[i], a) && states[i + 1] == Apply(states[i], a);
    ApplyKeeps(states[i], a);
  }

  lemma RunStart(states: seq<System>)
    requires Run(states)
    ensures Invariant(states[0])
  {
    InitialHolds(states[0]);
  }

  /** The induction, with the invariant kept under a quantifier. */
  lemma {:induction false} HoldsAt(states: seq<System>, i: nat)
    requires Run(states) && i < |states|
    ensures forall k: nat :: k == i ==> Invariant(states[k])
  {
    if i == 0 {
      RunStart(states);
    } else {
      HoldsAt(states, i - 1);
      StepKeeps(states, i - 1);
    }
  }

  /** The invariant holds in every state of every run. */
  lemma RunKeeps(states: seq<System>, i: nat)
    requires Run(states) && i < |states|
    ensures Invariant(states[i])
  {
    HoldsAt(states, i);
  }

  /** Over every interleaving, a request starts executing at most once. */
  lemma ExecutesAtMostOnce(states: seq<System>, i: nat, id: nat)
    requires Run(states) && i < |states| && id in states[i].requests
    ensures states[i].requests[id].begins <= 1
    ensures states[i].requests[id].begins == 0 <==> states[i].requests[id].phase == Created
  {
    RunKeeps(states, i);
  }

  /**
    Over every interleaving of cancel by handle, by identifier and of everything, at most one caller per request
    is told Signalled, and the flag is set exactly when its one winner has reported or is about to.
   */
  lemma SignalledAtMostOnce(states: seq<System>, i: nat, id: nat)
    requires Run(states) && i < |states| && id in states[i].requests
    ensures states[i].requests[id].told <= 1
    ensures states[i].requests[id].told + states[i].requests[id].late + |Winners(states[i].cancellers, id)|
            == if states[i].requests[id].flag then 1 else 0
  {
    RunKeeps(states, i);
    assert WonOnce(states[i], id);
  }

  /** When cancel_all is done with a registered request, its flag is raised, whatever happened in between. */
  lemma SweepRaisesEverything(states: seq<System>, i: nat, id: nat)
    requires Run(states) && i < |states| && states[i].sweep == Some({}) && id in states[i].registry
    ensures id in states[i].requests && states[i].requests[id].flag
  {
    RunKeeps(states, i);
  }

  /** The engine never refuses a registration as a duplicate. */
  lemma RegistrationSucceeds(states: seq<System>, i: nat, thread: nat)
    requires Run(states) && i < |states| && thread in states[i].routers && states[i].routers[thread].Begun?
    ensures states[i].routers[thread].id !in states[i].registry
  {
    RunKeeps(states, i);
    var s := states[i];
    assert forall u :: u in s.routers && s.routers[u] == Registered(s.routers[thread].id) ==> u == thread;
  }

  /** Identifiers strictly increase in the order they were issued, whatever has been dropped since. */
  lemma IdentifiersAreNeverReused(states: seq<System>, i: nat)
    requires Run(states) && i < |states|
    ensures Ascending(states[i].issued)
    ensures forall k :: 0 <= k < |states[i].issued| ==> states[i].issued[k] <= U64_MAX
  {
    RunKeeps(states, i);
  }

  function Rank(p: Phase): nat {
    match p case Created => 0 case Executing => 1 case Complete => 2
  }

  ghost predicate RequestOnward(r: Request, q: Request) {
    Rank(r.phase) <= Rank(q.phase) && (r.flag ==> q.flag) && r.told <= q.told
  }

  /** What never goes back: the list of identifiers, the shutdown, and each request's phase and flag. */
  ghost predicate Onward(s: System, t: System) {
    && s.issued <= t.issued && (s.shuttingDown ==> t.shuttingDown)
    && (forall id :: id in s.requests ==> id in t.requests && RequestOnward(s.requests[id], t.requests[id]))
  }

  lemma RouteOnward(s: System, thread: nat, proceed: bool)
    requires Enabled(s, StepRoute(thread, proceed))
    ensures Onward(s, RouteStep(s, thread, proceed))
  {
  }

  lemma CancelOnward(s: System, thread: nat)
    requires Enabled(s, StepCancel(thread))
    ensures Onward(s, CancelStep(s, thread))
  {
    CancelTouches(s, thread);
  }

  lemma AllocateOnward(s: System, allocation: Allocation)
    requires Identified(s)
    ensures Onward(s, Allocated(s, allocation))
  {
    if Assign(HighWater(s.issued), allocation).Some? {
      assert Assign(HighWater(s.issued), allocation).value !in s.issued;
    }
  }

  lemma SweepOnward(s: System, id: nat)
    requires Enabled(s, SweepOne(id))
    ensures Onward(s, Apply(s, SweepOne(id)))
  {
  }

  lemma ApplyGoesOnward(s: System, a: Action)
    requires Enabled(s, a) && Identified(s)
    ensures Onward(s, Apply(s, a))
  {
    match a {
      case Allocate(allocation) => AllocateOnward(s, allocation);
      case SweepOne(id) => SweepOnward(s, id);
      case StepCancel(thread) => CancelOnward(s, thread);
      case StepRoute(thread, proceed) => RouteOnward(s, thread, proceed);
      case _ =>
    }
  }

  lemma StepGoesOnward(states: seq<System>, i: nat)
    requires Run(states) && i + 1 < |states|
    ensures Onward(states[i], states[i + 1])
  {
    RunIsIdentified(states, i);
    assert StepAt(states, i);
    var a :| Enabled(states[i], a) && states[i + 1] == Apply(states[i], a);
    ApplyGoesOnward(states[i], a);
  }

  lemma OnwardTwice(s: System, t: System, u: System)
    requires Onward(s, t) && Onward(t, u)
    ensures Onward(s, u)
  {
    forall id | id in s.requests
      ensures id in u.requests && RequestOnward(s.requests[id], u.requests[id])
    {
      assert id in t.requests && RequestOnward(s.requests[id], t.requests[id]);
    }
  }

  /** A flag is never reset, a phase never goes back, and the issued identifiers only grow. */
  lemma {:induction false} RunGoesOnward(states: seq<System>, i: nat, j: nat)
    requires Run(states) && i <= j < |states|
    ensures Onward(states[i], states[j])
    decreases j - i
  {
    if i < j {
      RunGoesOnward(states, i, j - 1);
      StepGoesOnward(states, j - 1);
      OnwardTwice(states[i], states[j - 1], states[j]);
    }
  }

  lemma RunIsIdentified(states: seq<System>, i: nat)
    requires Run(states) && i < |states|
    ensures Identified(states[i])
  {
    RunKeeps(states, i);
  }
}
