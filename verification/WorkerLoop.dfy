/**
  The worker object and the body of its loop. The object records the run of the scheduler
  it takes part in, so everything proved of runs holds of it, whatever the submitters and
  the lane threads do between two of the worker's steps.
 */
module WorkerLoop {
  import opened Scheduler
  import opened SchedulerRuns
  import opened ReplyCauses

  lemma ExtendRun(maximum: nat, states: seq<System>, a: Action)
    requires Run(maximum, states) && Enabled(maximum, states[|states| - 1], a)
    ensures Run(maximum, states + [Apply(maximum, states[|states| - 1], a)])
  {
    var longer := states + [Apply(maximum, states[|states| - 1], a)];
    forall i: nat
      ensures StepAt(maximum, longer, i)
    {
      assert StepAt(maximum, states, i);
      if i + 1 < |states| {
        assert longer[i] == states[i] && longer[i + 1] == states[i + 1];
      } else if i + 1 < |longer| {
        assert longer[i] == states[i];
        assert Enabled(maximum, longer[i], a);
        assert longer[i + 1] == Apply(maximum, longer[i], a);
      }
    }
  }

  lemma RunStarts(maximum: nat, s: System)
    requires s == Initial
    ensures Run(maximum, [s])
  {
  }

  /** What the end of a run at Exited means. */
  lemma ExitIsFinal(maximum: nat, states: seq<System>)
    requires maximum > 0 && Run(maximum, states) && states[|states| - 1].worker == Exited
    ensures var s := states[|states| - 1];
            && s.queued == 0 && s.active == 0 && s.stop == Reported(Tally(s.replies, WasDrained()))
            && forall job :: job in s.accepted ==> Replied(s, Only(job)) == 1
  {
    var last := |states| - 1;
    CountersAreExact(maximum, states, last);
    RunIsShaped(maximum, states, last);
    ExitAnswersEverything(maximum, states, last, Job(0, 0, 0));
    forall job: Job | job in states[last].accepted
      ensures Replied(states[last], Only(job)) == 1
    {
      ExitAnswersEverything(maximum, states, last, job);
    }
  }

  /** What holds between two turns. */
  lemma TurnIsOver(maximum: nat, states: seq<System>, untroubled: bool)
    requires maximum > 0 && Run(maximum, states) && (untroubled ==> Quiet(maximum, states))
    requires states[|states| - 1].worker == Head || states[|states| - 1].worker == Exited
    ensures states[|states| - 1].active == 0 && (untroubled ==> NobodyDenied(states[|states| - 1]))
  {
    CountersAreExact(maximum, states, |states| - 1);
    if untroubled {
      QuietRunDeniesNobody(maximum, states, |states| - 1);
    }
  }

  /** Lanes only move forward. */
  ghost predicate LanesAdvance(before: seq<Lane>, after: seq<Lane>) {
    && |after| == |before|
    && (forall i :: 0 <= i < |before| ==> LaneRank()(after[i]) <= LaneRank()(before[i]))
    && (forall i :: 0 <= i < |before| && (before[i].Finished? || before[i].Panicked?) ==> after[i] == before[i])
  }

  class CudaWorker {
    const maximum: nat
    /** The requests for memory or a lane that will be granted, by their number. */
    const granted: iset<nat>
    var requests: nat
    var channel: seq<Command>
    var deferred: seq<Command>
    var worker: Worker
    var outbox: Outbox
    var lanes: seq<Lane>
    var queued: int
    var active: int
    var failures: nat
    var stop: Stop
    var submitting: nat
    var accepted: seq<Job>
    var replies: seq<Reply>
    ghost var heads: nat
    /** No request has been refused so far. */
    ghost var untroubled: bool
    ghost var trace: seq<System>

    ghost function View(): System
      reads this
    {
      System(channel, deferred, worker, outbox, lanes, queued, active, failures, stop, submitting, accepted, replies, heads)
    }

    /** The trace is a run of the scheduler that ends here, and quiet unless a request has been refused. */
    ghost predicate Valid()
      reads this
    {
      && maximum > 0 && Run(maximum, trace) && trace[|trace| - 1] == View()
      && (untroubled ==> Quiet(maximum, trace))
    }

    constructor (maximum: nat, granted: iset<nat>)
      requires maximum > 0
      ensures Valid() && View() == Initial && this.maximum == maximum
      ensures this.granted == granted && requests == 0 && untroubled
    {
      this.maximum, this.granted, requests := maximum, granted, 0;
      channel, deferred, worker, outbox, lanes := [], [], Head, Vacant, [];
      queued, active, failures, stop, submitting := 0, 0, 0, Open, 0;
      accepted, replies, heads, untroubled := [], [], 0, true;
      trace := [Initial];
      RunStarts(maximum, Initial);
    }

    /** Appends the step just taken to the trace. */
    ghost method Record(a: Action)
      requires untroubled ==> !Denial(a)
      requires untroubled ==> Quiet(maximum, trace)
      requires maximum > 0 && Run(maximum, trace) && Enabled(maximum, trace[|trace| - 1], a)
      requires View() == Apply(maximum, trace[|trace| - 1], a)
      modifies this`trace
      ensures Valid() && trace == old(trace) + [View()]
    {
      ExtendRun(maximum, trace, a);
      if untroubled {
        ExtendQuiet(maximum, trace, a);
      }
      trace := trace + [View()];
    }

    /** One request for memory or a lane. */
    method Ask() returns (ok: bool)
      modifies this`requests, this`untroubled
      ensures requests == old(requests) + 1 && ok == (old(requests) in granted)
      ensures untroubled == (old(untroubled) && ok)
    {
      ok := requests in granted;
      untroubled := untroubled && ok;
      requests := requests + 1;
    }

    /** The next access for the reply in hand. */
    method DeliverOne()
      requires Valid() && outbox.InHand?
      modifies this`outbox, this`queued, this`active, this`failures, this`replies, this`trace
      ensures Valid() && old(trace) <= trace
      ensures OutboxRank(outbox) < OutboxRank(old(outbox))
    {
      var r := outbox.reply;
      var next := if Failure(r.outcome) then CountFailure else Send;
      match outbox.todo {
        case Dequeue => queued, outbox := queued - 1, InHand(r, next);
        case Deactivate => active, outbox := active - 1, InHand(r, next);
        case CountFailure => failures, outbox := failures + 1, InHand(r, Send);
        case Send =>
          SendReply();
          return;
      }
      Record(Deliver);
    }

    method SendReply()
      requires Valid() && outbox.InHand? && outbox.todo == Send
      modifies this`outbox, this`replies, this`trace
      ensures Valid() && old(trace) <= trace && outbox == Vacant && replies == old(replies) + [old(outbox).reply]
    {
      replies, outbox := replies + [outbox.reply], Vacant;
      Record(Deliver);
    }

    /** reject_queued and its variants, access by access, with other threads in between, until the reply is sent. */
    method DeliverAll(turns: nat)
      requires Valid()
      modifies this`outbox, this`queued, this`submitting, this`accepted, this`channel, this`lanes, this`active,
               this`replies, this`failures, this`trace
      ensures Valid() && old(trace) <= trace && outbox == Vacant
      ensures old(channel) <= channel && LanesAdvance(old(lanes), lanes)
    {
      while outbox.InHand?
        invariant Valid() && old(trace) <= trace
        invariant old(channel) <= channel && LanesAdvance(old(lanes), lanes)
        decreases OutboxRank(outbox)
      {
        Others(turns);
        DeliverOne();
      }
    }

    /** submit, up to the wait for the reply: accepted exactly when the worker is not stopping, and then sent. */
    method Submit(image: nat, algorithm: nat) returns (ok: bool)
      requires Valid()
      modifies this`queued, this`submitting, this`accepted, this`channel, this`trace
      ensures Valid() && old(trace) <= trace
      ensures ok <==> stop == Open
      ensures if ok
              then channel == old(channel) + [Route(Job(|old(accepted)|, image, algorithm))]
              else channel == old(channel)
    {
      RunIsShaped(maximum, trace, |trace| - 1);
      if stop != Open {
        return false;
      }
      queued, submitting := queued + 1, submitting + 1;
      Record(BeginSubmit);
      Post(Job(|accepted|, image, algorithm));
      ok := true;
    }

    /** The send of an admitted job; the worker is there to receive it. */
    method Post(job: Job)
      requires Valid() && submitting > 0 && worker != Exited && job.id == |accepted|
      modifies this`submitting, this`accepted, this`channel, this`trace
      ensures Valid() && old(trace) <= trace && channel == old(channel) + [Route(job)]
    {
      submitting, accepted, channel := submitting - 1, accepted + [job], channel + [Route(job)];
      Record(SendJob(job.image, job.algorithm));
    }

    /** A lane thread takes its next step: it has a result or panics, replies, or drops its guard. */
    method StepLane(i: nat)
      requires Valid() && i < |lanes| && (lanes[i].Running? || lanes[i].HasResult? || lanes[i].Sent?)
      modifies this`lanes, this`active, this`replies, this`failures, this`trace
      ensures Valid() && old(trace) <= trace
      ensures LanesAdvance(old(lanes), lanes) && LaneRank()(lanes[i]) < LaneRank()(old(lanes)[i])
    {
      var job := lanes[i].job;
      if lanes[i].Sent? {
        lanes, active := lanes[i := Finished(job)], active - 1;
        Record(LaneDrop(i));
      } else if lanes[i].HasResult? {
        replies := replies + [Reply(job, Routed(lanes[i].ok))];
        lanes := lanes[i := Sent(job)];
        Record(LaneReply(i));
      } else {
        StartLane(i);
      }
    }

    method StartLane(i: nat)
      requires Valid() && i < |lanes| && lanes[i].Running?
      modifies this`lanes, this`active, this`failures, this`trace
      ensures Valid() && old(trace) <= trace
      ensures LanesAdvance(old(lanes), lanes) && LaneRank()(lanes[i]) < LaneRank()(old(lanes)[i])
    {
      var job := lanes[i].job;
      var panics: bool := *;
      if panics {
        lanes, active := lanes[i := Panicked(job)], active - 1;
        Record(LanePanic(i));
      } else {
        var ok: bool := *;
        if !ok {
          failures := failures + 1;
        }
        lanes := lanes[i := HasResult(job, ok)];
        Record(LaneResult(i, ok));
      }
    }

    /** What submitters and lanes do between two steps of the worker. */
    method Others(turns: nat)
      requires Valid()
      modifies this`queued, this`submitting, this`accepted, this`channel, this`lanes, this`active,
               this`replies, this`failures, this`trace
      ensures Valid() && old(trace) <= trace
      ensures old(channel) <= channel && LanesAdvance(old(lanes), lanes)
    {
      for k := 0 to turns
        invariant Valid() && old(trace) <= trace
        invariant old(channel) <= channel && LanesAdvance(old(lanes), lanes)
      {
        if * {
          var image: int, algorithm: int := *, *;
          if image >= 0 && algorithm >= 0 {
            var ok := Submit(image, algorithm);
          }
        } else {
          var i: int := *;
          if 0 <= i < |lanes| && (lanes[i].Running? || lanes[i].HasResult? || lanes[i].Sent?) {
            StepLane(i);
          }
        }
      }
    }

    /** The head of the loop: the deferred queue goes before the channel. */
    method Take() returns (command: Command)
      requires deferred != [] || channel != []
      modifies this`deferred, this`channel
      ensures command == Next(old(View())) && View() == PopNext(old(View()))
    {
      if deferred != [] {
        command, deferred := deferred[0], deferred[1..];
      } else {
        command, channel := channel[0], channel[1..];
      }
    }

    method TakeHead()
      requires Valid() && worker == Head && outbox == Vacant && (deferred != [] || channel != [])
      modifies this
      ensures Valid() && old(trace) <= trace
      ensures worker == Head || (worker.Collecting? && |worker.batch| == 1) || worker == Draining(0)
      ensures match Next(old(View()))
              case Shutdown => worker == Draining(0)
              case Route(job) => stop == Open && untroubled ==> worker == Collecting([job]) && outbox == Vacant
    {
      ghost var before := View();
      var command := Take();
      heads := heads + 1;
      if command.Shutdown? {
        worker := Draining(0);
        Record(Action.TakeHead(true));
      } else if stop != Open {
        outbox := InHand(Reply(command.job, ShuttingDown), Dequeue);
        Record(Action.TakeHead(true));
      } else {
        BeginBatch(command.job, before);
      }
    }

    /** The job heads a batch, if there is memory for one. */
    method BeginBatch(job: Job, ghost before: System)
      requires maximum > 0 && Run(maximum, trace) && (untroubled ==> Quiet(maximum, trace))
      requires trace[|trace| - 1] == before && before.worker == Head && before.outbox == Vacant && before.stop == Open
      requires (before.deferred != [] || before.channel != []) && Next(before) == Route(job)
      requires View() == PopNext(before).(heads := before.heads + 1)
      modifies this`worker, this`outbox, this`requests, this`untroubled, this`trace
      ensures Valid() && old(trace) <= trace
      ensures if worker == Head then !untroubled else worker == Collecting([job]) && outbox == Vacant
    {
      var ok := Ask();
      if ok {
        worker := Collecting([job]);
      } else {
        outbox := InHand(Reply(job, NotAllocated), Dequeue);
      }
      Record(Action.TakeHead(ok));
    }

    /** The next command is taken, and answered if it has to be. */
    method BeginTurn(turns: nat)
      requires Valid() && worker == Head && outbox == Vacant && (deferred != [] || channel != [])
      modifies this
      ensures Valid() && old(trace) <= trace && outbox == Vacant
      ensures worker == Head || (worker.Collecting? && |worker.batch| == 1) || worker == Draining(0)
    {
      TakeHead();
      DeliverAll(turns);
    }

    /** Collecting a batch until it is full, the delay is over, or the batch cannot grow. */
    method CollectBatch(delay: nat)
      requires Valid() && worker.Collecting? && outbox == Vacant
      modifies this
      ensures Valid() && old(trace) <= trace && outbox == Vacant
      ensures worker.Dispatching? && 0 < |worker.batch| <= maximum
    {
      RunIsShaped(maximum, trace, |trace| - 1);
      var remaining := delay;
      while remaining > 0 && worker.Collecting? && |worker.batch| < maximum
        invariant Valid() && old(trace) <= trace && outbox == Vacant
        invariant worker.Collecting? || worker.Dispatching?
        invariant 0 < |worker.batch| <= maximum
        decreases remaining
      {
        CollectTurn();
        remaining := remaining - 1;
      }
      if worker.Collecting? {
        worker := Dispatching(worker.batch);
        Record(EndCollection);
      }
    }

    /** One receive attempt: a command that has arrived is taken, and answered if it has to be. */
    method CollectTurn()
      requires Valid() && worker.Collecting? && 0 < |worker.batch| < maximum && outbox == Vacant
      modifies this
      ensures Valid() && old(trace) <= trace && outbox == Vacant
      ensures worker.Collecting? || worker.Dispatching?
      ensures 0 < |worker.batch| <= maximum
    {
      var arrivals: nat := *;
      Others(arrivals);
      if channel != [] {
        CollectOne();
        DeliverAll(arrivals);
      }
    }

    method CollectOne()
      requires Valid() && worker.Collecting? && 0 < |worker.batch| < maximum && channel != [] && outbox == Vacant
      modifies this
      ensures Valid() && old(trace) <= trace
      ensures worker.Collecting? || worker.Dispatching?
      ensures 0 < |worker.batch| <= maximum
      ensures stop == Open && old(channel)[0].Route? && untroubled ==>
                outbox == Vacant
                && if Compatible(old(channel)[0].job, old(worker).batch[0])
                   then worker == Collecting(old(worker).batch + [old(channel)[0].job]) && deferred == old(deferred)
                   else worker == old(worker) && deferred == old(deferred) + [old(channel)[0]]
    {
      var command := channel[0];
      if command.Route? && stop != Open {
        RejectArrival(command.job);
      } else if command.Route? && Compatible(command.job, worker.batch[0]) {
        JoinBatch(command.job);
      } else {
        channel, deferred := channel[1..], deferred + [command];
        Record(Collect(true));
      }
    }

    /** A job that arrives while the worker is stopping is answered so. */
    method RejectArrival(job: Job)
      requires Valid() && worker.Collecting? && 0 < |worker.batch| < maximum && channel != [] && outbox == Vacant
      requires channel[0] == Route(job) && stop != Open
      modifies this`channel, this`outbox, this`trace
      ensures Valid() && old(trace) <= trace
    {
      channel := channel[1..];
      outbox := InHand(Reply(job, ShuttingDown), Dequeue);
      Record(Collect(true));
    }

    /** A job like the batch joins it, if the batch can grow. */
    method JoinBatch(job: Job)
      requires Valid() && worker.Collecting? && 0 < |worker.batch| < maximum && channel != [] && outbox == Vacant
      requires channel[0] == Route(job) && stop == Open && Compatible(job, worker.batch[0])
      modifies this`channel, this`worker, this`outbox, this`requests, this`untroubled, this`trace
      ensures Valid() && old(trace) <= trace
      ensures if worker.Collecting? then worker == Collecting(old(worker).batch + [job]) && outbox == Vacant
              else worker == Dispatching(old(worker).batch) && !untroubled
    {
      var ok := Ask();
      if ok {
        channel := channel[1..];
        worker := Collecting(worker.batch + [job]);
        Record(Collect(true));
      } else {
        RefuseArrival(job);
      }
    }

    method RefuseArrival(job: Job)
      requires Valid() && worker.Collecting? && 0 < |worker.batch| < maximum && channel != [] && outbox == Vacant
      requires channel[0] == Route(job) && stop == Open && Compatible(job, worker.batch[0]) && !untroubled
      modifies this`channel, this`worker, this`outbox, this`trace
      ensures Valid() && old(trace) <= trace && worker == Dispatching(old(worker).batch)
    {
      channel := channel[1..];
      outbox := InHand(Reply(job, NotAllocated), Dequeue);
      worker := Dispatching(worker.batch);
      Record(Collect(false));
    }

    /** The lane-join queue could not be allocated: every job of the batch is answered with the error. */
    method RejectBatch(turns: nat)
      requires Valid() && worker.Rejecting? && outbox == Vacant
      modifies this
      ensures Valid() && old(trace) <= trace && worker == Head && outbox == Vacant
    {
      while worker.Rejecting? && worker.batch != []
        invariant Valid() && old(trace) <= trace && worker.Rejecting? && outbox == Vacant
        decreases |worker.batch|
      {
        RejectOne();
        DeliverAll(turns);
      }
      worker := Head;
      Record(RejectNext);
    }

    method RejectOne()
      requires Valid() && worker.Rejecting? && worker.batch != [] && outbox == Vacant
      modifies this`worker, this`outbox, this`trace
      ensures Valid() && old(trace) <= trace && worker == Rejecting(old(worker).batch[1..])
    {
      outbox := InHand(Reply(worker.batch[0], NotAllocated), Dequeue);
      worker := Rejecting(worker.batch[1..]);
      Record(RejectNext);
    }

    /** One lane per job of the batch, in order; a lane that cannot be spawned is answered at once. */
    method SpawnLanes()
      requires Valid() && worker.Spawning? && outbox == Vacant
      modifies this
      ensures Valid() && old(trace) <= trace && worker == Joining(0) && outbox == Vacant
    {
      while worker.Spawning? && worker.batch != []
        invariant Valid() && old(trace) <= trace && worker.Spawning? && outbox == Vacant
        decreases |worker.batch|
      {
        SpawnNext();
      }
      worker := Joining(0);
      Record(StartJoin);
    }

    method SpawnNext()
      requires Valid() && worker.Spawning? && worker.batch != [] && outbox == Vacant
      modifies this
      ensures Valid() && old(trace) <= trace && outbox == Vacant && worker == Spawning(old(worker).batch[1..])
    {
      var arrivals: nat := *;
      Others(arrivals);
      TakeOne();
      Others(arrivals);
      SpawnOne();
      DeliverAll(arrivals);
    }

    method TakeOne()
      requires Valid() && worker.Spawning? && worker.batch != [] && outbox == Vacant
      modifies this`worker, this`queued, this`trace
      ensures Valid() && old(trace) <= trace
      ensures worker == Launching(old(worker).batch[0], old(worker).batch[1..])
    {
      worker := Launching(worker.batch[0], worker.batch[1..]);
      queued := queued - 1;
      Record(TakeJob);
    }

    method SpawnOne()
      requires Valid() && worker.Launching? && outbox == Vacant
      modifies this`worker, this`lanes, this`outbox, this`trace, this`requests, this`untroubled
      ensures Valid() && old(trace) <= trace && worker == Spawning(old(worker).batch)
      ensures untroubled ==> outbox == Vacant && lanes == old(lanes) + [Running(old(worker).job)]
    {
      var job := worker.job;
      worker := Spawning(worker.batch);
      var spawned := Ask();
      if spawned {
        lanes := lanes + [Running(job)];
      } else {
        outbox := InHand(Reply(job, NotSpawned), Deactivate);
      }
      Record(Spawn(spawned));
    }

    /** Joining every lane in order; a panicked lane is answered by the join. */
    method JoinLanes(turns: nat)
      requires Valid() && worker == Joining(0) && outbox == Vacant
      modifies this
      ensures Valid() && old(trace) <= trace && worker == Head && active == 0 && lanes == [] && outbox == Vacant
    {
      var k := 0;
      while k < |lanes|
        invariant Valid() && old(trace) <= trace && worker == Joining(k) && outbox == Vacant
        decreases |lanes| - k
      {
        JoinNext(k, turns);
        k := k + 1;
      }
      worker, lanes := Head, [];
      Record(Join);
      CountersAreExact(maximum, trace, |trace| - 1);
    }

    method JoinNext(k: nat, turns: nat)
      requires Valid() && worker == Joining(k) && k < |lanes| && outbox == Vacant
      modifies this
      ensures Valid() && old(trace) <= trace && outbox == Vacant
      ensures worker == Joining(k + 1) && |lanes| == |old(lanes)|
    {
      AwaitLane(k);
      JoinOne(k);
      DeliverAll(turns);
    }

    method JoinOne(k: nat)
      requires Valid() && worker == Joining(k) && k < |lanes| && (lanes[k].Finished? || lanes[k].Panicked?)
      requires outbox == Vacant
      modifies this`worker, this`lanes, this`outbox, this`trace
      ensures Valid() && old(trace) <= trace && worker == Joining(k + 1)
      ensures lanes == old(lanes)[k := Finished(old(lanes)[k].job)]
    {
      var lane := lanes[k];
      worker := Joining(k + 1);
      if lane.Panicked? {
        outbox := InHand(Reply(lane.job, LanePanicked), CountFailure);
        lanes := lanes[k := Finished(lane.job)];
      }
      Record(Join);
    }

    /** join blocks until the lane is over; the other threads keep going. */
    method AwaitLane(k: nat)
      requires Valid() && worker == Joining(k) && k < |lanes|
      modifies this`queued, this`submitting, this`accepted, this`channel, this`lanes, this`active,
               this`replies, this`failures, this`trace
      ensures Valid() && old(trace) <= trace && |lanes| == |old(lanes)|
      ensures lanes[k].Finished? || lanes[k].Panicked?
    {
      while !lanes[k].Finished? && !lanes[k].Panicked?
        invariant Valid() && old(trace) <= trace && |lanes| == |old(lanes)|
        decreases LaneRank()(lanes[k])
      {
        var arrivals: nat := *;
        Others(arrivals);
        if !lanes[k].Finished? && !lanes[k].Panicked? {
          StepLane(k);
        }
      }
    }

    /** The shutdown command: every route still deferred or queued is rejected and counted, and the worker ends. */
    method Drain()
      requires Valid() && worker == Draining(0) && outbox == Vacant
      modifies this
      ensures Valid() && old(trace) <= trace && worker == Exited && outbox == Vacant
      ensures channel == [] && deferred == [] && queued == 0 && active == 0
      ensures stop == Reported(Tally(replies, WasDrained()))
      ensures forall job :: job in accepted ==> Replied(View(), Only(job)) == 1
    {
      var rejected := 0;
      while deferred != [] || channel != []
        invariant Valid() && old(trace) <= trace && worker == Draining(rejected) && outbox == Vacant
        decreases |deferred| + |channel|
      {
        rejected := DrainOne(rejected);
        DeliverQuietly();
      }
      worker, stop := Exited, Reported(rejected);
      Record(FinishDrain);
      ExitIsFinal(maximum, trace);
    }

    /** While the worker drains, no submitter is left and no lane is alive, so only the worker steps. */
    method DeliverQuietly()
      requires Valid()
      modifies this`outbox, this`queued, this`active, this`failures, this`replies, this`trace
      ensures Valid() && old(trace) <= trace && outbox == Vacant
    {
      while outbox.InHand?
        invariant Valid() && old(trace) <= trace
        decreases OutboxRank(outbox)
      {
        DeliverOne();
      }
    }

    method DrainOne(before: nat) returns (rejected: nat)
      requires Valid() && worker == Draining(before) && outbox == Vacant && (deferred != [] || channel != [])
      modifies this`worker, this`deferred, this`channel, this`outbox, this`trace
      ensures Valid() && old(trace) <= trace && worker == Draining(rejected)
      ensures |deferred| + |channel| < |old(deferred)| + |old(channel)|
    {
      rejected := before;
      var command := Take();
      if command.Route? {
        outbox := InHand(Reply(command.job, Drained), Dequeue);
        rejected := rejected + 1;
        worker := Draining(rejected);
      }
      Record(DrainNext);
    }

    /** Serving a collected batch, or rejecting it when the lane-join queue cannot be allocated. */
    method ServeBatch(turns: nat)
      requires Valid() && worker.Dispatching? && outbox == Vacant
      modifies this
      ensures Valid() && old(trace) <= trace && worker == Head && outbox == Vacant
    {
      var ok := Ask();
      if ok {
        active := |worker.batch|;
        worker := Spawning(worker.batch);
        Record(Dispatch(true));
        SpawnLanes();
        JoinLanes(turns);
      } else {
        worker := Rejecting(worker.batch);
        Record(Dispatch(false));
        RejectBatch(turns);
      }
    }

    /** One turn of worker_loop: it comes back to its head between batches, or ends with everything answered. */
    method Turn(delay: nat, turns: nat)
      requires Valid() && worker == Head && outbox == Vacant && (deferred != [] || channel != [])
      modifies this
      ensures Valid() && old(trace) <= trace && outbox == Vacant
      ensures worker == Head || worker == Exited
      ensures active == 0
      ensures untroubled ==> NobodyDenied(View())
    {
      BeginTurn(turns);
      if worker.Draining? {
        Drain();
      } else if worker.Collecting? {
        CollectBatch(delay);
        ServeBatch(turns);
      }
      TurnIsOver(maximum, trace, untroubled);
    }

    /** shutdown: admission stops, then the command is sent; a second call changes nothing. */
    method RequestShutdown()
      requires Valid() && submitting == 0
      modifies this`stop, this`channel, this`trace
      ensures Valid() && old(trace) <= trace && stop != Open
      ensures if old(stop) == Open then stop == Posted && channel == old(channel) + [Shutdown]
              else old(stop) != Requested ==> View() == old(View())
    {
      if stop == Open {
        stop := Requested;
        Record(RequestStop);
      }
      if stop == Requested {
        stop, channel := Posted, channel + [Shutdown];
        Record(PostStop);
      }
    }
  }
}
