/**
  Runs of the CUDA worker's scheduler: every interleaving of submitters, owner, worker and
  lanes, what holds in every state of every run, and why every job is answered.
 */
module SchedulerRuns {
  import opened Scheduler

  ghost predicate StepAt(maximum: nat, states: seq<System>, i: nat) {
    i + 1 < |states| ==> exists a :: Enabled(maximum, states[i], a) && states[i + 1] == Apply(maximum, states[i], a)
  }

  /** Any interleaving of submitters, owner, worker and lanes. */
  ghost predicate Run(maximum: nat, states: seq<System>) {
    states != [] && states[0] == Initial && forall i: nat :: StepAt(maximum, states, i)
  }

  lemma StepKeeps(maximum: nat, states: seq<System>, i: nat)
    requires maximum > 0 && Run(maximum, states) && i + 1 < |states| && Invariant(maximum, states[i])
    ensures Invariant(maximum, states[i + 1])
  {
    assert StepAt(maximum, states, i);
    var a :| Enabled(maximum, states[i], a) && states[i + 1] == Apply(maximum, states[i], a);
    ApplyKeeps(maximum, states[i], a);
  }

  lemma RunStart(maximum: nat, states: seq<System>)
    requires Run(maximum, states)
    ensures Invariant(maximum, states[0])
  {
    InitialHolds(maximum, states[0]);
  }

  /** The induction, with the invariant kept under a quantifier. */
  lemma {:induction false} HoldsAt(maximum: nat, states: seq<System>, i: nat)
    requires maximum > 0 && Run(maximum, states) && i < |states|
    ensures forall k: nat :: k == i ==> Invariant(maximum, states[k])
  {
    if i == 0 {
      RunStart(maximum, states);
    } else {
      HoldsAt(maximum, states, i - 1);
      StepKeeps(maximum, states, i - 1);
    }
  }

  /** The invariant holds in every state of every run. */
  lemma RunKeeps(maximum: nat, states: seq<System>, i: nat)
    requires maximum > 0 && Run(maximum, states) && i < |states|
    ensures Invariant(maximum, states[i])
  {
    HoldsAt(maximum, states, i);
  }

  lemma RunIsShaped(maximum: nat, states: seq<System>, i: nat)
    requires maximum > 0 && Run(maximum, states) && i < |states|
    ensures Shaped(maximum, states[i]) && Ordered(states[i])
  {
    RunKeeps(maximum, states, i);
  }

  // What follows for every run.

  lemma {:induction false} TallyPrefix(jobs: seq<Job>, job: Job)
    requires Numbered(jobs)
    ensures Tally(jobs, Only(job)) == if job in jobs then 1 else 0
  {
    if jobs != [] {
      var last := |jobs| - 1;
      TallyPrefix(jobs[..last], job);
      TallyPush(jobs[..last], jobs[last], Only(job));
      assert jobs[..last] + [jobs[last]] == jobs;
    }
  }

  /** Exactly once: an accepted job is either pending or replied to once, and no other job is ever replied to. */
  lemma RepliesExactlyOnce(maximum: nat, states: seq<System>, i: nat, job: Job)
    requires maximum > 0 && Run(maximum, states) && i < |states|
    ensures Pending(states[i], Only(job)) + Replied(states[i], Only(job)) == if job in states[i].accepted then 1 else 0
  {
    RunKeeps(maximum, states, i);
    assert Balanced(states[i], Only(job));
    TallyPrefix(states[i].accepted, job);
  }

  /** When the worker is gone, every accepted job has had its one reply, and the counters are back at zero. */
  lemma ExitAnswersEverything(maximum: nat, states: seq<System>, i: nat, job: Job)
    requires maximum > 0 && Run(maximum, states) && i < |states| && states[i].worker == Exited
    ensures Replied(states[i], Only(job)) == if job in states[i].accepted then 1 else 0
    ensures states[i].queued == 0 && states[i].active == 0
  {
    RunKeeps(maximum, states, i);
    RepliesExactlyOnce(maximum, states, i, job);
    assert states[i].lanes == [];
  }

  /**
    At every access: queued counts jobs not yet dispatched or rejected, active is zero between batches, and failures
    counts error replies, those sent and those counted and about to be sent.
   */
  lemma CountersAreExact(maximum: nat, states: seq<System>, i: nat)
    requires maximum > 0 && Run(maximum, states) && i < |states|
    ensures states[i].queued == states[i].submitting + Waiting(states[i], Each())
    ensures !states[i].worker.Spawning? && !states[i].worker.Launching? && !states[i].worker.Joining? ==>
              states[i].active == 0
    ensures 0 <= states[i].active <= maximum
    ensures states[i].failures == Tally(states[i].replies, Failed()) + FailuresInHand(states[i])
    ensures states[i].worker == Head && states[i].outbox == Vacant ==>
              states[i].failures == Tally(states[i].replies, Failed())
    ensures states[i].stop.Reported? ==> states[i].stop.rejected == Tally(states[i].replies, WasDrained())
  {
    RunKeeps(maximum, states, i);
    GuardsBound(states[i].lanes);
  }

  lemma {:induction false} GuardsBound(lanes: seq<Lane>)
    ensures Tally(lanes, Guarded()) <= |lanes|
  {
    if lanes != [] {
      GuardsBound(lanes[1..]);
    }
  }

  /** Every batch has one image and one algorithm, from its collection to its last lane, and fits the maximum. */
  lemma BatchesAreAlike(maximum: nat, states: seq<System>, i: nat)
    requires maximum > 0 && Run(maximum, states) && i < |states|
    ensures |Members(states[i].worker)| + |states[i].lanes| <= maximum
    ensures Alike(Members(states[i].worker), states[i].lanes)
    ensures forall a, b :: InService(states[i], a) && InService(states[i], b) ==>
              a.image == b.image && a.algorithm == b.algorithm
  {
    RunIsShaped(maximum, states, i);
    AlikeMeans(states[i]);
  }

  lemma AlikeMeans(s: System)
    requires Alike(Members(s.worker), s.lanes)
    ensures forall a, b :: InService(s, a) && InService(s, b) ==> a.image == b.image && a.algorithm == b.algorithm
  {
    forall a, b | InService(s, a) && InService(s, b)
      ensures Compatible(a, b)
    {
    }
  }

  /** The job is in the batch or has a lane. */
  ghost predicate InService(s: System, job: Job) {
    job in Members(s.worker) || exists k :: 0 <= k < |s.lanes| && s.lanes[k].job == job
  }

  // Deferred commands move up with every head and never otherwise.

  predicate Leaving(w: Worker) {
    w.Draining? || w == Exited
  }

  ghost predicate MovedUp(s: System, t: System) {
    && s.heads <= t.heads
    && (!Leaving(t.worker) ==>
          && !Leaving(s.worker)
          && (t.heads - s.heads <= |s.deferred| ==> s.deferred[t.heads - s.heads..] <= t.deferred))
  }

  lemma HeadMovesUp(s: System, granted: bool)
    requires Enabled(1, s, TakeHead(granted))
    ensures MovedUp(s, AfterHead(s, granted))
  {
    HeadTakesOne(s, granted);
    if s.deferred != [] {
      assert s.deferred[1..] == AfterHead(s, granted).deferred;
    }
  }

  lemma HeadTakesOne(s: System, granted: bool)
    requires Enabled(1, s, TakeHead(granted))
    ensures var t := AfterHead(s, granted);
            t.heads == s.heads + 1 && t.deferred == if s.deferred != [] then s.deferred[1..] else []
  {
  }

  lemma StepMovesUp(maximum: nat, s: System, a: Action)
    requires Enabled(maximum, s, a)
    ensures MovedUp(s, Apply(maximum, s, a))
  {
    if a.TakeHead? {
      HeadMovesUp(s, a.granted);
    } else {
      assert s.deferred[0..] == s.deferred;
    }
  }

  lemma StepAtMovesUp(maximum: nat, states: seq<System>, i: nat)
    requires Run(maximum, states) && i + 1 < |states|
    ensures MovedUp(states[i], states[i + 1])
  {
    assert StepAt(maximum, states, i);
    var a :| Enabled(maximum, states[i], a) && states[i + 1] == Apply(maximum, states[i], a);
    StepMovesUp(maximum, states[i], a);
  }

  lemma MovedUpTwice(s: System, t: System, u: System)
    requires MovedUp(s, t) && MovedUp(t, u)
    ensures MovedUp(s, u)
  {
    var n := t.heads - s.heads;
    var k := u.heads - t.heads;
    if !Leaving(u.worker) && n + k <= |s.deferred| {
      assert s.deferred[n..][k..] == s.deferred[n + k..];
      assert s.deferred[n..][k..] <= t.deferred[k..];
    }
  }

  lemma {:induction false} RunMovesUp(maximum: nat, states: seq<System>, i: nat, j: nat)
    requires Run(maximum, states) && i <= j < |states|
    ensures MovedUp(states[i], states[j])
    decreases j - i
  {
    if i < j {
      RunMovesUp(maximum, states, i, j - 1);
      StepAtMovesUp(maximum, states, j - 1);
      MovedUpTwice(states[i], states[j - 1], states[j]);
    } else {
      assert states[i].deferred[0..] == states[i].deferred;
    }
  }

  /**
    No starvation: whatever keeps arriving, a command at deferred position p is the loop's next head after
    exactly p further heads, unless a shutdown drains the queue first.
   */
  lemma DeferralDoesNotStarve(maximum: nat, states: seq<System>, i: nat, j: nat, p: nat)
    requires Run(maximum, states) && i <= j < |states| && p < |states[i].deferred|
    requires !Leaving(states[j].worker) && states[j].heads == states[i].heads + p
    ensures states[j].deferred != [] && Next(states[j]) == states[i].deferred[p]
  {
    RunMovesUp(maximum, states, i, j);
    assert states[i].deferred[p..][0] == states[i].deferred[p];
  }

  // Without new arrivals the worker and its lanes finish everything.

  function LaneRank(): Lane -> nat {
    (lane: Lane) =>
      match lane
      case Running(_) => 5
      case HasResult(_, _) => 4
      case Panicked(_) => 3
      case Sent(_) => 1
      case Finished(_) => 0
  }

  function OutboxRank(o: Outbox): nat {
    if o == Vacant then 0
    else match o.todo case Dequeue => 4 case Deactivate => 3 case CountFailure => 2 case Send => 1
  }

  function WorkerRank(s: System): int {
    match s.worker
    case Head => 0
    case Collecting(batch) => 10 * |batch| + 9
    case Dispatching(batch) => 10 * |batch| + 8
    case Rejecting(batch) => 10 * |batch| + 7
    case Spawning(batch) => 10 * |batch| + 7 + |s.lanes|
    case Launching(_, batch) => 10 * |batch| + 15 + |s.lanes|
    case Joining(next) => 6 + |s.lanes| - next
    case Draining(_) => 1
    case Exited => 0
  }

  function Rank(s: System): int {
    40 * |s.channel| + 39 * |s.deferred| + WorkerRank(s) + OutboxRank(s.outbox) + Tally(s.lanes, LaneRank())
  }

  lemma LoopLowersRank(maximum: nat, s: System, a: Action)
    requires Enabled(maximum, s, a) && Shaped(maximum, s)
    requires a.TakeHead? || a.Collect? || a.DrainNext? || a.RejectNext?
    ensures Rank(Apply(maximum, s, a)) < Rank(s)
  {
  }

  lemma DeliverLowersRank(s: System)
    requires s.outbox.InHand?
    ensures Rank(Delivered(s)) < Rank(s)
  {
  }

  lemma LaneLowersRank(s: System, a: Action)
    requires Enabled(1, s, a) && OfLane(a)
    ensures Rank(Apply(1, s, a)) < Rank(s)
  {
    TallyUpdate(s.lanes, a.lane, Apply(1, s, a).lanes[a.lane], LaneRank());
  }

  lemma JoinLowersRank(maximum: nat, s: System)
    requires Enabled(maximum, s, Join) && Shaped(maximum, s)
    ensures Rank(AfterJoin(s)) < Rank(s)
  {
    var k := s.worker.next;
    if k < |s.lanes| && s.lanes[k].Panicked? {
      TallyUpdate(s.lanes, k, Finished(s.lanes[k].job), LaneRank());
    }
  }

  lemma DispatchLowersRank(maximum: nat, s: System, a: Action)
    requires Enabled(maximum, s, a) && Shaped(maximum, s)
    requires a.EndCollection? || a.Dispatch? || a.TakeJob? || a.Spawn? || a.StartJoin? || a.FinishDrain?
    ensures Rank(Apply(maximum, s, a)) < Rank(s)
  {
    if a.Spawn? {
      TallyPush(s.lanes, Running(s.worker.job), LaneRank());
    }
  }

  /** Every step of the worker or a lane lowers the rank. */
  lemma StepLowersRank(maximum: nat, s: System, a: Action)
    requires Shaped(maximum, s) && Enabled(maximum, s, a) && !External(a)
    ensures Rank(Apply(maximum, s, a)) < Rank(s)
  {
    if a.TakeHead? || a.Collect? || a.DrainNext? || a.RejectNext? {
      LoopLowersRank(maximum, s, a);
    } else if OfLane(a) {
      LaneLowersRank(s, a);
    } else if a.Join? {
      JoinLowersRank(maximum, s);
    } else if a.Deliver? {
      DeliverLowersRank(s);
    } else {
      DispatchLowersRank(maximum, s, a);
    }
  }

  lemma RankIsNatural(maximum: nat, s: System)
    requires Shaped(maximum, s)
    ensures 0 <= Rank(s)
  {
  }

  lemma RunRank(maximum: nat, states: seq<System>, i: nat)
    requires maximum > 0 && Run(maximum, states) && i < |states|
    ensures 0 <= Rank(states[i])
  {
    RunIsShaped(maximum, states, i);
    RankIsNatural(maximum, states[i]);
  }

  /** Step i is taken by the worker or a lane. */
  ghost predicate InternalStepAt(maximum: nat, states: seq<System>, i: nat) {
    i + 1 < |states|
    && exists a :: !External(a) && Enabled(maximum, states[i], a) && states[i + 1] == Apply(maximum, states[i], a)
  }

  lemma InternalStepLowersRank(maximum: nat, states: seq<System>, i: nat)
    requires maximum > 0 && Run(maximum, states) && InternalStepAt(maximum, states, i)
    ensures Rank(states[i + 1]) < Rank(states[i])
  {
    RunIsShaped(maximum, states, i);
    var a :| !External(a) && Enabled(maximum, states[i], a) && states[i + 1] == Apply(maximum, states[i], a);
    StepLowersRank(maximum, states[i], a);
  }

  ghost predicate Falls(states: seq<System>, i: nat) {
    i + 1 < |states| && Rank(states[i + 1]) < Rank(states[i])
  }

  lemma {:induction false} FallsAddUp(states: seq<System>, i: nat, j: nat)
    requires i <= j < |states| && forall k: nat :: i <= k < j ==> Falls(states, k)
    ensures j - i <= Rank(states[i]) - Rank(states[j])
    decreases j - i
  {
    if i < j {
      FallsAddUp(states, i, j - 1);
      assert Falls(states, j - 1);
    }
  }

  /** Without arrivals, worker and lanes take a bounded number of steps. */
  lemma InternalRunsEnd(maximum: nat, states: seq<System>, i: nat, j: nat)
    requires maximum > 0 && Run(maximum, states) && i <= j < |states|
    requires forall k: nat :: i <= k < j ==> InternalStepAt(maximum, states, k)
    ensures j - i <= Rank(states[i]) - Rank(states[j]) <= Rank(states[i])
  {
    RunRank(maximum, states, j);
    forall k: nat | i <= k < j
      ensures Falls(states, k)
    {
      InternalStepLowersRank(maximum, states, k);
    }
    FallsAddUp(states, i, j);
  }

  /** The next step of the worker or of the lane it waits for. */
  lemma WorkerCanStep(maximum: nat, s: System) returns (a: Action)
    requires Shaped(maximum, s) && s.worker != Exited
    requires s.worker == Head && s.outbox == Vacant ==> s.channel != [] || s.deferred != []
    ensures !External(a) && Enabled(maximum, s, a)
  {
    if s.outbox.InHand? {
      return Deliver;
    }
    match s.worker {
      case Head => a := TakeHead(true);
      case Collecting(_) => a := EndCollection;
      case Dispatching(_) => a := Dispatch(true);
      case Rejecting(_) => a := RejectNext;
      case Spawning(batch) => a := if batch == [] then StartJoin else TakeJob;
      case Launching(_, _) => a := Spawn(true);
      case Joining(k) =>
        a := if k < |s.lanes| && s.lanes[k].Running? then LaneResult(k, true)
             else if k < |s.lanes| && s.lanes[k].HasResult? then LaneReply(k)
             else if k < |s.lanes| && s.lanes[k].Sent? then LaneDrop(k)
             else Join;
      case Draining(_) => a := if s.deferred == [] && s.channel == [] then FinishDrain else DrainNext;
    }
  }

  /** Where neither worker nor lane can step, every accepted job has its reply and a posted shutdown is reported. */
  lemma NoJobIsStuck(maximum: nat, states: seq<System>, i: nat, job: Job)
    requires maximum > 0 && Run(maximum, states) && i < |states|
    requires forall a :: !External(a) ==> !Enabled(maximum, states[i], a)
    ensures Replied(states[i], Only(job)) == if job in states[i].accepted then 1 else 0
    ensures states[i].stop != Posted
  {
    RunKeeps(maximum, states, i);
    RepliesExactlyOnce(maximum, states, i, job);
    if states[i].worker != Exited
       && (states[i].worker == Head && states[i].outbox == Vacant ==> states[i].channel != [] || states[i].deferred != []) {
      var a := WorkerCanStep(maximum, states[i]);
      assert false;
    }
    assert states[i].lanes == [];
  }

  // A shutdown that finds every job answered, as it does when all submits have returned, rejects nothing.

  lemma {:induction false} TallyAll<T>(s: seq<T>, f: T -> nat)
    requires forall x :: f(x) == 1
    ensures Tally(s, f) == |s|
  {
    if s != [] {
      TallyAll(s[1..], f);
    }
  }

  lemma EachCounts(s: System)
    ensures Tally(s.accepted, Each()) == |s.accepted| && Replied(s, Each()) == |s.replies|
  {
    TallyAll(s.accepted, Each());
    TallyAll(s.replies, InReply(Each()));
  }

  lemma StoppedStep(maximum: nat, s: System, a: Action)
    requires Enabled(maximum, s, a) && Ordered(s) && Stopping(s)
    ensures var t := Apply(maximum, s, a); Stopping(t) && t.accepted == s.accepted && s.replies <= t.replies
  {
    if OfWorker(a) {
      LoopIsSilent(maximum, s, a);
    }
  }

  lemma StoppedStepAt(maximum: nat, states: seq<System>, i: nat)
    requires maximum > 0 && Run(maximum, states) && i + 1 < |states| && Stopping(states[i])
    ensures Stopping(states[i + 1]) && states[i + 1].accepted == states[i].accepted
    ensures states[i].replies <= states[i + 1].replies
  {
    RunIsShaped(maximum, states, i);
    assert StepAt(maximum, states, i);
    var a :| Enabled(maximum, states[i], a) && states[i + 1] == Apply(maximum, states[i], a);
    StoppedStep(maximum, states[i], a);
  }

  lemma {:induction false} StoppedRun(maximum: nat, states: seq<System>, i: nat, j: nat)
    requires maximum > 0 && Run(maximum, states) && i <= j < |states| && Stopping(states[i])
    ensures Stopping(states[j]) && states[j].accepted == states[i].accepted && states[i].replies <= states[j].replies
    decreases j - i
  {
    if i < j {
      StoppedRun(maximum, states, i, j - 1);
      StoppedStepAt(maximum, states, j - 1);
    }
  }

  /** submit blocks until its reply, so a shutdown, which needs the worker to itself, never rejects a route. */
  lemma AnsweredShutdownRejectsNothing(maximum: nat, states: seq<System>, i: nat, j: nat)
    requires maximum > 0 && Run(maximum, states) && i <= j < |states|
    requires states[i].stop == Requested && Pending(states[i], Each()) == 0
    ensures states[j].replies == states[i].replies
    ensures states[j].stop.Reported? ==> states[j].stop.rejected == 0
  {
    RunKeeps(maximum, states, i);
    RunKeeps(maximum, states, j);
    StoppedRun(maximum, states, i, j);
    EachCounts(states[i]);
    EachCounts(states[j]);
  }
}
