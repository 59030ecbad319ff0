/**
  The CUDA worker: submitters and a shutdown request on one channel, a worker loop with a
  deferred queue, batches dispatched to lane threads, and a reply channel per job.
  Every access another thread can observe is one action: a change of a counter and the
  send of the reply it belongs to are separate.
 */
module Scheduler {

  datatype Job = Job(id: nat, image: nat, algorithm: nat)

  datatype Command = Route(job: Job) | Shutdown

  /** A lane thread: routing, with a counted result, replied with its guard still alive, unwound, or over. */
  datatype Lane =
    | Running(job: Job)
    | HasResult(job: Job, ok: bool)
    | Sent(job: Job)
    | Panicked(job: Job)
    | Finished(job: Job)

  datatype Outcome =
    | Routed(ok: bool)
    | ShuttingDown
    | NotAllocated
    | NotSpawned
    | LanePanicked
    | Drained

  datatype Reply = Reply(job: Job, outcome: Outcome)

  /** What the worker has yet to do for a reply it has in hand: take it off queued or active, count a failure, send. */
  datatype Todo = Dequeue | Deactivate | CountFailure | Send

  datatype Outbox = Vacant | InHand(reply: Reply, todo: Todo)

  /** Where the worker loop stands. */
  datatype Worker =
    | Head
    | Collecting(batch: seq<Job>)
    | Dispatching(batch: seq<Job>)
    | Rejecting(batch: seq<Job>)
    | Spawning(batch: seq<Job>)
    | Launching(job: Job, batch: seq<Job>)
    | Joining(next: nat)
    | Draining(rejected: nat)
    | Exited

  datatype Stop = Open | Requested | Posted | Reported(rejected: nat)

  datatype System = System(
    channel: seq<Command>,
    deferred: seq<Command>,
    worker: Worker,
    outbox: Outbox,
    lanes: seq<Lane>,
    queued: int,
    active: int,
    failures: nat,
    stop: Stop,
    submitting: nat,
    accepted: seq<Job>,
    replies: seq<Reply>,
    heads: nat)

  const Initial: System := System([], [], Head, Vacant, [], 0, 0, 0, Open, 0, [], [], 0)

  datatype Action =
    | BeginSubmit
    | SendJob(image: nat, algorithm: nat)
    | RequestStop
    | PostStop
    | TakeHead(granted: bool)
    | Collect(granted: bool)
    | EndCollection
    | Dispatch(granted: bool)
    | RejectNext
    | TakeJob
    | Spawn(spawned: bool)
    | StartJoin
    | Deliver
    | LaneResult(lane: nat, ok: bool)
    | LaneReply(lane: nat)
    | LaneDrop(lane: nat)
    | LanePanic(lane: nat)
    | Join
    | DrainNext
    | FinishDrain

  /** The step comes from a submitter or the owner, not from the worker or its lanes. */
  predicate External(a: Action) {
    a.BeginSubmit? || a.SendJob? || a.RequestStop? || a.PostStop?
  }

  predicate Stopping(s: System) {
    s.stop != Open
  }

  /** Replies the worker also counts as failures. */
  predicate Failure(outcome: Outcome) {
    outcome.NotAllocated? || outcome.NotSpawned? || outcome.LanePanicked? || outcome == Routed(false)
  }

  function Answer(s: System, job: Job, outcome: Outcome): System {
    s.(replies := s.replies + [Reply(job, outcome)])
  }

  /** reject_queued and reject_queued_with_error, begun: the worker has the job and its error in hand. */
  function Reject(s: System, job: Job, outcome: Outcome): System {
    s.(outbox := InHand(Reply(job, outcome), Dequeue))
  }

  /** The next access for the reply in hand. */
  function Delivered(s: System): System
    requires s.outbox.InHand?
  {
    var r := s.outbox.reply;
    var next := if Failure(r.outcome) then CountFailure else Send;
    match s.outbox.todo
    case Dequeue => s.(queued := s.queued - 1, outbox := InHand(r, next))
    case Deactivate => s.(active := s.active - 1, outbox := InHand(r, next))
    case CountFailure => s.(failures := s.failures + 1, outbox := InHand(r, Send))
    case Send => Answer(s, r.job, r.outcome).(outbox := Vacant)
  }

  predicate Compatible(a: Job, b: Job) {
    a.image == b.image && a.algorithm == b.algorithm
  }

  /**
    Whether the step can happen. A shutdown holds the worker exclusively, so no submitter is between
    its admission and its send while stopping is set.
   */
  predicate Enabled(maximum: nat, s: System, a: Action) {
    (OfWorker(a) ==> s.outbox == Vacant)
    && match a
       case BeginSubmit => !Stopping(s)
       case SendJob(_, _) => s.submitting > 0
       case RequestStop => s.stop == Open && s.submitting == 0
       case PostStop => s.stop == Requested
       case TakeHead(_) => s.worker == Head && (s.deferred != [] || s.channel != [])
       case Collect(_) => s.worker.Collecting? && 0 < |s.worker.batch| < maximum && s.channel != []
       case EndCollection => s.worker.Collecting?
       case Dispatch(_) => s.worker.Dispatching?
       case RejectNext => s.worker.Rejecting?
       case TakeJob => s.worker.Spawning? && s.worker.batch != []
       case Spawn(_) => s.worker.Launching?
       case StartJoin => s.worker.Spawning? && s.worker.batch == []
       case Deliver => s.outbox.InHand?
       case LaneResult(i, _) => i < |s.lanes| && s.lanes[i].Running?
       case LaneReply(i) => i < |s.lanes| && s.lanes[i].HasResult?
       case LaneDrop(i) => i < |s.lanes| && s.lanes[i].Sent?
       case LanePanic(i) => i < |s.lanes| && s.lanes[i].Running?
       case Join =>
         s.worker.Joining?
         && (s.worker.next < |s.lanes| ==> s.lanes[s.worker.next].Finished? || s.lanes[s.worker.next].Panicked?)
       case DrainNext => s.worker.Draining? && (s.deferred != [] || s.channel != [])
       case FinishDrain => s.worker.Draining? && s.deferred == [] && s.channel == []
  }

  /** The worker thread does one thing at a time: these steps wait until the reply in hand is sent. */
  predicate OfWorker(a: Action) {
    !External(a) && !a.Deliver? && !OfLane(a)
  }

  predicate OfLane(a: Action) {
    a.LaneResult? || a.LaneReply? || a.LaneDrop? || a.LanePanic?
  }

  /** The next command of the loop: the deferred queue goes before the channel. */
  function Next(s: System): Command
    requires s.deferred != [] || s.channel != []
  {
    if s.deferred != [] then s.deferred[0] else s.channel[0]
  }

  function PopNext(s: System): System
    requires s.deferred != [] || s.channel != []
  {
    if s.deferred != [] then s.(deferred := s.deferred[1..]) else s.(channel := s.channel[1..])
  }

  function AfterHead(s: System, granted: bool): System
    requires s.deferred != [] || s.channel != []
  {
    var t := PopNext(s).(heads := s.heads + 1);
    match Next(s)
    case Shutdown => t.(worker := Draining(0))
    case Route(job) =>
      if Stopping(s) then Reject(t, job, ShuttingDown)
      else if !granted then Reject(t, job, NotAllocated)
      else t.(worker := Collecting([job]))
  }

  function AfterCollect(s: System, granted: bool): System
    requires s.worker.Collecting? && s.worker.batch != [] && s.channel != []
  {
    var t := s.(channel := s.channel[1..]);
    var command := s.channel[0];
    if command.Route? && Stopping(s) then
      Reject(t, command.job, ShuttingDown)
    else if command.Route? && Compatible(command.job, s.worker.batch[0]) then
      if granted then t.(worker := Collecting(s.worker.batch + [command.job]))
      else Reject(t, command.job, NotAllocated).(worker := Dispatching(s.worker.batch))
    else
      t.(deferred := s.deferred + [command])
  }

  function AfterSpawn(s: System, spawned: bool): System
    requires s.worker.Launching?
  {
    var job := s.worker.job;
    var t := s.(worker := Spawning(s.worker.batch));
    if spawned then t.(lanes := s.lanes + [Running(job)])
    else t.(outbox := InHand(Reply(job, NotSpawned), Deactivate))
  }

  function AfterJoin(s: System): System
    requires s.worker.Joining?
  {
    var k := s.worker.next;
    if k >= |s.lanes| then s.(worker := Head, lanes := [])
    else
      var t := s.(worker := Joining(k + 1));
      if s.lanes[k].Panicked?
      then t.(lanes := s.lanes[k := Finished(s.lanes[k].job)],
              outbox := InHand(Reply(s.lanes[k].job, LanePanicked), CountFailure))
      else t
  }

  function AfterDrain(s: System): System
    requires s.worker.Draining? && (s.deferred != [] || s.channel != [])
  {
    match Next(s)
    case Shutdown => PopNext(s)
    case Route(job) => Reject(PopNext(s), job, Drained).(worker := Draining(s.worker.rejected + 1))
  }

  function Apply(maximum: nat, s: System, a: Action): System
    requires Enabled(maximum, s, a)
  {
    match a
    case BeginSubmit => s.(submitting := s.submitting + 1, queued := s.queued + 1)
    case SendJob(image, algorithm) =>
      if s.worker == Exited then
        s.(submitting := s.submitting - 1, queued := s.queued - 1)
      else
        var job := Job(|s.accepted|, image, algorithm);
        s.(submitting := s.submitting - 1, accepted := s.accepted + [job], channel := s.channel + [Route(job)])
    case RequestStop => s.(stop := Requested)
    case PostStop => s.(stop := Posted, channel := s.channel + [Shutdown])
    case TakeHead(granted) => AfterHead(s, granted)
    case Collect(granted) => AfterCollect(s, granted)
    case EndCollection => s.(worker := Dispatching(s.worker.batch))
    case Dispatch(granted) =>
      if granted then s.(worker := Spawning(s.worker.batch), active := |s.worker.batch|)
      else s.(worker := Rejecting(s.worker.batch))
    case RejectNext =>
      if s.worker.batch == [] then s.(worker := Head)
      else Reject(s.(worker := Rejecting(s.worker.batch[1..])), s.worker.batch[0], NotAllocated)
    case TakeJob => s.(worker := Launching(s.worker.batch[0], s.worker.batch[1..]), queued := s.queued - 1)
    case Spawn(spawned) => AfterSpawn(s, spawned)
    case StartJoin => s.(worker := Joining(0))
    case Deliver => Delivered(s)
    case LaneResult(i, ok) =>
      s.(lanes := s.lanes[i := HasResult(s.lanes[i].job, ok)], failures := s.failures + if ok then 0 else 1)
    case LaneReply(i) =>
      Answer(s, s.lanes[i].job, Routed(s.lanes[i].ok)).(lanes := s.lanes[i := Sent(s.lanes[i].job)])
    case LaneDrop(i) => s.(lanes := s.lanes[i := Finished(s.lanes[i].job)], active := s.active - 1)
    case LanePanic(i) => s.(lanes := s.lanes[i := Panicked(s.lanes[i].job)], active := s.active - 1)
    case Join => AfterJoin(s)
    case DrainNext => AfterDrain(s)
    case FinishDrain => s.(worker := Exited, stop := Reported(s.worker.rejected))
  }

  // Weighing the jobs held in a sequence of places.

  function Tally<T>(s: seq<T>, f: T -> nat): nat {
    if s == [] then 0 else f(s[0]) + Tally(s[1..], f)
  }

  lemma {:induction false} TallyPush<T>(s: seq<T>, x: T, f: T -> nat)
    ensures Tally(s + [x], f) == Tally(s, f) + f(x)
  {
    if s == [] {
      assert s + [x] == [x];
    } else {
      assert (s + [x])[1..] == s[1..] + [x];
      TallyPush(s[1..], x, f);
    }
  }

  lemma {:induction false} TallyUpdate<T>(s: seq<T>, i: nat, x: T, f: T -> nat)
    requires i < |s|
    ensures Tally(s[i := x], f) + f(s[i]) == Tally(s, f) + f(x)
  {
    if i > 0 {
      assert s[i := x][1..] == s[1..][i - 1 := x];
      TallyUpdate(s[1..], i - 1, x, f);
    } else {
      assert s[i := x][1..] == s[1..];
    }
  }

  lemma {:induction false} TallyNothing<T>(s: seq<T>, f: T -> nat)
    requires forall x :: x in s ==> f(x) == 0
    ensures Tally(s, f) == 0
  {
    if s != [] {
      TallyNothing(s[1..], f);
    }
  }

  type Weight = Job -> nat

  /** Weighing one job only, or every job alike. */
  function Only(job: Job): Weight {
    (other: Job) => if other == job then 1 else 0
  }

  function Each(): Weight {
    (_: Job) => 1
  }

  function InCommand(w: Weight): Command -> nat {
    (c: Command) => if c.Route? then w(c.job) else 0
  }

  /** A lane's job while nobody has replied to it. */
  function Unreplied(w: Weight): Lane -> nat {
    (lane: Lane) => if lane.Running? || lane.HasResult? || lane.Panicked? then w(lane.job) else 0
  }

  /** A lane while its guard is alive. */
  function Guarded(): Lane -> nat {
    (lane: Lane) => if lane.Running? || lane.HasResult? || lane.Sent? then 1 else 0
  }

  /** A lane that has counted its failure and not sent it yet. */
  function FailedLane(): Lane -> nat {
    (lane: Lane) => if lane.HasResult? && !lane.ok then 1 else 0
  }

  function InReply(w: Weight): Reply -> nat {
    (r: Reply) => w(r.job)
  }

  /** A reply other than a route's own success or a rejection by a stopping worker. */
  function Failed(): Reply -> nat {
    (r: Reply) => if r.outcome == Routed(true) || r.outcome.ShuttingDown? || r.outcome.Drained? then 0 else 1
  }

  function WasDrained(): Reply -> nat {
    (r: Reply) => if r.outcome == Drained then 1 else 0
  }

  /** The jobs of a batch that still count as queued. */
  function BatchOf(w: Worker): seq<Job> {
    match w
    case Collecting(batch) => batch
    case Dispatching(batch) => batch
    case Rejecting(batch) => batch
    case Spawning(batch) => batch
    case Launching(_, batch) => batch
    case _ => []
  }

  /** The batch with the job that is about to get its lane. */
  function Members(w: Worker): seq<Job> {
    if w.Launching? then [w.job] + w.batch else BatchOf(w)
  }

  /** The reply in hand, while its job still counts as queued, and after. */
  function OutQueued(o: Outbox, w: Weight): nat {
    if o.InHand? && o.todo == Dequeue then w(o.reply.job) else 0
  }

  function OutTaken(o: Outbox, w: Weight): nat {
    if o.InHand? && o.todo != Dequeue then w(o.reply.job) else 0
  }

  /** Accepted jobs that wait for dispatch: in the channel, deferred, in a batch, or about to be rejected. */
  function Waiting(s: System, w: Weight): nat {
    Tally(s.channel, InCommand(w)) + Tally(s.deferred, InCommand(w)) + Tally(BatchOf(s.worker), w)
    + OutQueued(s.outbox, w)
  }

  /** Accepted jobs that nobody has replied to. */
  function Pending(s: System, w: Weight): nat {
    Waiting(s, w) + Tally(s.lanes, Unreplied(w)) + OutTaken(s.outbox, w)
    + (if s.worker.Launching? then w(s.worker.job) else 0)
  }

  function Replied(s: System, w: Weight): nat {
    Tally(s.replies, InReply(w))
  }

  /** Lanes that active has to count: those alive, those about to be spawned, and one that could not be. */
  function Guards(s: System): nat {
    Tally(s.lanes, Guarded())
    + (if s.worker.Spawning? then |s.worker.batch| else if s.worker.Launching? then |s.worker.batch| + 1 else 0)
    + (if s.outbox.InHand? && s.outbox.todo == Deactivate then 1 else 0)
  }

  /** Failures counted whose reply is not sent yet. */
  function FailuresInHand(s: System): nat {
    Tally(s.lanes, FailedLane())
    + if s.outbox.InHand? && s.outbox.todo == Send && Failure(s.outbox.reply.outcome) then 1 else 0
  }

  function DrainCount(s: System): nat {
    if s.worker.Draining? then s.worker.rejected else if s.stop.Reported? then s.stop.rejected else 0
  }

  function DrainInHand(s: System): nat {
    if s.outbox.InHand? && s.outbox.reply.outcome == Drained then 1 else 0
  }

  // The invariant.

  /** Accepted jobs are pending or replied, weight for weight. */
  ghost predicate Balanced(s: System, w: Weight) {
    Pending(s, w) + Replied(s, w) == Tally(s.accepted, w)
  }

  /** Every accepted job is in exactly one place, or has exactly one reply; no other job has any. */
  ghost predicate Conserved(s: System) {
    && (forall job :: Balanced(s, Only(job)))
    && Balanced(s, Each())
    && Numbered(s.accepted)
  }

  ghost predicate Numbered(jobs: seq<Job>) {
    forall i :: 0 <= i < |jobs| ==> jobs[i].id == i
  }

  ghost predicate QueueCounts(s: System) {
    s.queued == s.submitting + Waiting(s, Each())
  }

  ghost predicate ActiveCounts(s: System) {
    s.active == Guards(s)
  }

  ghost predicate FailuresCount(s: System) {
    s.failures == Tally(s.replies, Failed()) + FailuresInHand(s)
  }

  ghost predicate DrainsCount(s: System) {
    DrainCount(s) == Tally(s.replies, WasDrained()) + DrainInHand(s)
  }

  /** The counters mean what they say. */
  ghost predicate Counted(s: System) {
    QueueCounts(s) && ActiveCounts(s) && FailuresCount(s) && DrainsCount(s)
  }

  ghost predicate Alike(jobs: seq<Job>, lanes: seq<Lane>) {
    && (forall i, j :: 0 <= i < |jobs| && 0 <= j < |jobs| ==> Compatible(jobs[i], jobs[j]))
    && (forall i, j :: 0 <= i < |lanes| && 0 <= j < |lanes| ==> Compatible(lanes[i].job, lanes[j].job))
    && (forall i, j :: 0 <= i < |jobs| && 0 <= j < |lanes| ==> Compatible(jobs[i], lanes[j].job))
  }

  /** Batches are alike and bounded, and lanes exist only while a batch is being served. */
  ghost predicate Shaped(maximum: nat, s: System) {
    && |Members(s.worker)| + |s.lanes| + (if s.outbox.InHand? && s.outbox.todo == Deactivate then 1 else 0) <= maximum
    && Alike(Members(s.worker), s.lanes)
    && (s.lanes != [] ==> s.worker.Spawning? || s.worker.Launching? || s.worker.Joining?)
    && (s.worker.Collecting? ==> s.worker.batch != [])
    && (s.worker.Joining? ==> s.worker.next <= |s.lanes|
                              && forall i :: 0 <= i < s.worker.next ==> s.lanes[i].Finished?)
    && InHandIsPlaced(s)
  }

  /** What kind of reply can be in hand where. */
  ghost predicate InHandIsPlaced(s: System) {
    s.outbox.InHand? ==>
      && (s.outbox.todo == Deactivate ==> s.worker.Spawning? && s.outbox.reply.outcome == NotSpawned)
      && (s.outbox.todo == CountFailure ==> Failure(s.outbox.reply.outcome))
      && s.worker != Exited
      && (s.outbox.reply.outcome == Drained ==> s.worker.Draining?)
  }

  /** The shutdown is sent once, after all sends, and is in a queue until the worker takes it. */
  ghost predicate Ordered(s: System) {
    && (Stopping(s) ==> s.submitting == 0)
    && (Shutdown in s.channel || Shutdown in s.deferred || s.worker.Draining? ==> s.stop == Posted)
    && (s.stop == Posted ==> Shutdown in s.channel || Shutdown in s.deferred || s.worker.Draining?)
    && (s.worker == Exited <==> s.stop.Reported?)
    && (s.worker == Exited ==> s.channel == [] && s.deferred == [])
  }

  ghost predicate Invariant(maximum: nat, s: System) {
    Conserved(s) && Counted(s) && Shaped(maximum, s) && Ordered(s)
  }

  // Jobs move from place to place; only a send answers one.

  lemma PopNextTally(s: System, w: Weight)
    requires s.deferred != [] || s.channel != []
    ensures var t := PopNext(s);
            Tally(t.channel, InCommand(w)) + Tally(t.deferred, InCommand(w)) + InCommand(w)(Next(s))
            == Tally(s.channel, InCommand(w)) + Tally(s.deferred, InCommand(w))
  {
  }

  lemma TallyOne(job: Job, w: Weight)
    ensures Tally([job], w) == w(job)
  {
    assert Tally<Job>([], w) == 0;
  }

  lemma HeadMoves(s: System, granted: bool, w: Weight)
    requires Enabled(1, s, TakeHead(granted))
    ensures Waiting(AfterHead(s, granted), w) == Waiting(s, w)
    ensures Pending(AfterHead(s, granted), w) == Pending(s, w)
  {
    PopNextTally(s, w);
    if Next(s).Route? {
      TallyOne(Next(s).job, w);
    }
  }

  lemma CollectMoves(maximum: nat, s: System, granted: bool, w: Weight)
    requires Enabled(maximum, s, Collect(granted))
    ensures Waiting(AfterCollect(s, granted), w) == Waiting(s, w)
    ensures Pending(AfterCollect(s, granted), w) == Pending(s, w)
  {
    TallyPush(s.deferred, s.channel[0], InCommand(w));
    if s.channel[0].Route? {
      TallyPush(s.worker.batch, s.channel[0].job, w);
    }
  }

  lemma DrainMoves(s: System, w: Weight)
    requires Enabled(1, s, DrainNext)
    ensures Waiting(AfterDrain(s), w) == Waiting(s, w) && Pending(AfterDrain(s), w) == Pending(s, w)
  {
    PopNextTally(s, w);
  }

  /** The steps that serve a batch: rejecting its next job, or taking it off the queue and giving it a lane. */
  lemma BatchMoves(s: System, a: Action, w: Weight)
    requires Enabled(1, s, a) && (a.RejectNext? || a.TakeJob? || a.Spawn?)
    ensures Waiting(s, w) == Waiting(Apply(1, s, a), w) + (if a.TakeJob? then w(s.worker.batch[0]) else 0)
    ensures Pending(Apply(1, s, a), w) == Pending(s, w)
  {
    if a.Spawn? {
      TallyPush(s.lanes, Running(s.worker.job), Unreplied(w));
    }
  }

  lemma JoinMoves(maximum: nat, s: System, w: Weight)
    requires Shaped(maximum, s) && Enabled(maximum, s, Join)
    ensures Waiting(AfterJoin(s), w) == Waiting(s, w) && Pending(AfterJoin(s), w) == Pending(s, w)
  {
    var k := s.worker.next;
    if k == |s.lanes| {
      TallyNothing(s.lanes, Unreplied(w));
    } else if s.lanes[k].Panicked? {
      TallyUpdate(s.lanes, k, Finished(s.lanes[k].job), Unreplied(w));
    }
  }

  lemma SendMoves(s: System, a: Action, w: Weight)
    requires Enabled(1, s, a) && (a.SendJob? || a.PostStop?)
    ensures var t := Apply(1, s, a);
            var added := Tally(t.accepted, w) - Tally(s.accepted, w);
            && Waiting(t, w) == Waiting(s, w) + added && Pending(t, w) == Pending(s, w) + added
            && (a.SendJob? && s.worker != Exited ==> added == w(Job(|s.accepted|, a.image, a.algorithm)))
            && (a.PostStop? || s.worker == Exited ==> added == 0)
  {
    if a.PostStop? {
      TallyPush(s.channel, Shutdown, InCommand(w));
    } else if s.worker != Exited {
      var job := Job(|s.accepted|, a.image, a.algorithm);
      TallyPush(s.channel, Route(job), InCommand(w));
      TallyPush(s.accepted, job, w);
    }
  }

  lemma DeliverBalanced(s: System, w: Weight)
    requires s.outbox.InHand? && Balanced(s, w)
    ensures Balanced(Delivered(s), w)
  {
    if s.outbox.todo == Send {
      TallyPush(s.replies, s.outbox.reply, InReply(w));
    }
  }

  lemma LaneBalanced(s: System, a: Action, w: Weight)
    requires Enabled(1, s, a) && OfLane(a) && Balanced(s, w)
    ensures Balanced(Apply(1, s, a), w)
  {
    var t := Apply(1, s, a);
    TallyUpdate(s.lanes, a.lane, t.lanes[a.lane], Unreplied(w));
    if a.LaneReply? {
      TallyPush(s.replies, Reply(s.lanes[a.lane].job, Routed(s.lanes[a.lane].ok)), InReply(w));
    }
  }

  lemma MoveBalances(s: System, t: System, w: Weight)
    requires Balanced(s, w) && Pending(t, w) == Pending(s, w) && t.replies == s.replies && t.accepted == s.accepted
    ensures Balanced(t, w)
  {
  }

  lemma LoopMoves(maximum: nat, s: System, a: Action, w: Weight)
    requires Shaped(maximum, s) && Enabled(maximum, s, a) && OfWorker(a)
    ensures Pending(Apply(maximum, s, a), w) == Pending(s, w)
  {
    match a {
      case TakeHead(granted) => HeadMoves(s, granted, w);
      case Collect(granted) => CollectMoves(maximum, s, granted, w);
      case RejectNext => BatchMoves(s, a, w);
      case TakeJob => BatchMoves(s, a, w);
      case Spawn(_) => BatchMoves(s, a, w);
      case Join => JoinMoves(maximum, s, w);
      case DrainNext => DrainMoves(s, w);
      case _ =>
    }
  }

  /** The worker itself answers nobody except by delivering what it has in hand. */
  lemma LoopIsSilent(maximum: nat, s: System, a: Action)
    requires Enabled(maximum, s, a) && OfWorker(a)
    ensures Apply(maximum, s, a).replies == s.replies && Apply(maximum, s, a).accepted == s.accepted
  {
  }

  lemma LoopBalanced(maximum: nat, s: System, a: Action, w: Weight)
    requires Shaped(maximum, s) && Enabled(maximum, s, a) && OfWorker(a) && Balanced(s, w)
    ensures Balanced(Apply(maximum, s, a), w)
  {
    LoopMoves(maximum, s, a, w);
    LoopIsSilent(maximum, s, a);
    MoveBalances(s, Apply(maximum, s, a), w);
  }

  lemma StepBalanced(maximum: nat, s: System, a: Action, w: Weight)
    requires Shaped(maximum, s) && Enabled(maximum, s, a) && Balanced(s, w)
    ensures Balanced(Apply(maximum, s, a), w)
  {
    if OfWorker(a) {
      LoopBalanced(maximum, s, a, w);
    } else if OfLane(a) {
      LaneBalanced(s, a, w);
    } else if a.Deliver? {
      DeliverBalanced(s, w);
    } else if a.SendJob? || a.PostStop? {
      SendMoves(s, a, w);
    }
  }

  lemma NumberedKeeps(maximum: nat, s: System, a: Action)
    requires Numbered(s.accepted) && Enabled(maximum, s, a)
    ensures Numbered(Apply(maximum, s, a).accepted)
  {
  }

  lemma ConservedKeeps(maximum: nat, s: System, a: Action)
    requires Conserved(s) && Shaped(maximum, s) && Enabled(maximum, s, a)
    ensures Conserved(Apply(maximum, s, a))
  {
    forall job: Job
      ensures Balanced(Apply(maximum, s, a), Only(job))
    {
      StepBalanced(maximum, s, a, Only(job));
    }
    StepBalanced(maximum, s, a, Each());
    NumberedKeeps(maximum, s, a);
  }

  // The counters.

  lemma LoopQueued(maximum: nat, s: System, a: Action)
    requires QueueCounts(s) && Enabled(maximum, s, a) && (a.TakeHead? || a.Collect? || a.DrainNext?)
    ensures QueueCounts(Apply(maximum, s, a))
  {
    match a {
      case TakeHead(granted) => HeadMoves(s, granted, Each());
      case Collect(granted) => CollectMoves(maximum, s, granted, Each());
      case DrainNext => DrainMoves(s, Each());
    }
  }

  lemma BatchQueued(s: System, a: Action)
    requires QueueCounts(s) && Enabled(1, s, a) && (a.RejectNext? || a.TakeJob? || a.Spawn?)
    ensures QueueCounts(Apply(1, s, a))
  {
    BatchMoves(s, a, Each());
  }

  lemma QueuedKeeps(maximum: nat, s: System, a: Action)
    requires QueueCounts(s) && Enabled(maximum, s, a)
    ensures QueueCounts(Apply(maximum, s, a))
  {
    match a {
      case SendJob(_, _) => SendMoves(s, a, Each());
      case PostStop => SendMoves(s, a, Each());
      case TakeHead(_) => LoopQueued(maximum, s, a);
      case Collect(_) => LoopQueued(maximum, s, a);
      case DrainNext => LoopQueued(maximum, s, a);
      case RejectNext => BatchQueued(s, a);
      case TakeJob => BatchQueued(s, a);
      case Spawn(_) => BatchQueued(s, a);
      case _ =>
    }
  }

  lemma LaneActive(s: System, a: Action)
    requires ActiveCounts(s) && Enabled(1, s, a) && OfLane(a)
    ensures ActiveCounts(Apply(1, s, a))
  {
    TallyUpdate(s.lanes, a.lane, Apply(1, s, a).lanes[a.lane], Guarded());
  }

  lemma JoinActive(maximum: nat, s: System)
    requires ActiveCounts(s) && Shaped(maximum, s) && Enabled(maximum, s, Join)
    ensures ActiveCounts(AfterJoin(s))
  {
    var k := s.worker.next;
    if k == |s.lanes| {
      TallyNothing(s.lanes, Guarded());
    } else if s.lanes[k].Panicked? {
      TallyUpdate(s.lanes, k, Finished(s.lanes[k].job), Guarded());
    }
  }

  lemma SpawnActive(s: System, spawned: bool)
    requires ActiveCounts(s) && Enabled(1, s, Spawn(spawned))
    ensures ActiveCounts(AfterSpawn(s, spawned))
  {
    TallyPush(s.lanes, Running(s.worker.job), Guarded());
  }

  lemma LoopActive(maximum: nat, s: System, a: Action)
    requires Shaped(maximum, s) && Enabled(maximum, s, a) && ActiveCounts(s)
    requires OfWorker(a) && !a.Join? && !a.Spawn?
    ensures ActiveCounts(Apply(maximum, s, a))
  {
  }

  lemma ActiveKeeps(maximum: nat, s: System, a: Action)
    requires Shaped(maximum, s) && Enabled(maximum, s, a) && ActiveCounts(s)
    ensures ActiveCounts(Apply(maximum, s, a))
  {
    if OfLane(a) {
      LaneActive(s, a);
    } else if a.Join? {
      JoinActive(maximum, s);
    } else if a.Spawn? {
      SpawnActive(s, a.spawned);
    } else if OfWorker(a) {
      LoopActive(maximum, s, a);
    }
  }

  lemma LaneFailures(s: System, a: Action)
    requires FailuresCount(s) && Enabled(1, s, a) && OfLane(a)
    ensures FailuresCount(Apply(1, s, a))
  {
    var t := Apply(1, s, a);
    TallyUpdate(s.lanes, a.lane, t.lanes[a.lane], FailedLane());
    if a.LaneReply? {
      TallyPush(s.replies, Reply(s.lanes[a.lane].job, Routed(s.lanes[a.lane].ok)), Failed());
    }
  }

  lemma JoinFailures(maximum: nat, s: System)
    requires FailuresCount(s) && Shaped(maximum, s) && Enabled(maximum, s, Join)
    ensures FailuresCount(AfterJoin(s))
  {
    var k := s.worker.next;
    if k == |s.lanes| {
      TallyNothing(s.lanes, FailedLane());
    } else if s.lanes[k].Panicked? {
      TallyUpdate(s.lanes, k, Finished(s.lanes[k].job), FailedLane());
    }
  }

  lemma DeliverFailures(maximum: nat, s: System)
    requires FailuresCount(s) && Shaped(maximum, s) && s.outbox.InHand?
    ensures FailuresCount(Delivered(s))
  {
    TallyPush(s.replies, s.outbox.reply, Failed());
  }

  lemma SpawnFailures(s: System, spawned: bool)
    requires FailuresCount(s) && Enabled(1, s, Spawn(spawned))
    ensures FailuresCount(AfterSpawn(s, spawned))
  {
    TallyPush(s.lanes, Running(s.worker.job), FailedLane());
  }

  lemma LoopFailures(maximum: nat, s: System, a: Action)
    requires FailuresCount(s) && Enabled(maximum, s, a) && OfWorker(a) && !a.Join? && !a.Spawn?
    ensures FailuresCount(Apply(maximum, s, a))
  {
  }

  lemma FailuresKeep(maximum: nat, s: System, a: Action)
    requires Shaped(maximum, s) && Enabled(maximum, s, a) && FailuresCount(s)
    ensures FailuresCount(Apply(maximum, s, a))
  {
    if OfLane(a) {
      LaneFailures(s, a);
    } else if a.Join? {
      JoinFailures(maximum, s);
    } else if a.Spawn? {
      SpawnFailures(s, a.spawned);
    } else if a.Deliver? {
      DeliverFailures(maximum, s);
    } else if OfWorker(a) {
      LoopFailures(maximum, s, a);
    }
  }

  lemma ReplyDrains(s: System, a: Action)
    requires DrainsCount(s) && Enabled(1, s, a) && (a.Deliver? || a.LaneReply?)
    ensures DrainsCount(Apply(1, s, a))
  {
    if a.Deliver? {
      TallyPush(s.replies, s.outbox.reply, WasDrained());
    } else {
      TallyPush(s.replies, Reply(s.lanes[a.lane].job, Routed(s.lanes[a.lane].ok)), WasDrained());
    }
  }

  lemma LoopDrains(maximum: nat, s: System, a: Action)
    requires DrainsCount(s) && Ordered(s) && Enabled(maximum, s, a) && OfWorker(a)
    ensures DrainsCount(Apply(maximum, s, a))
  {
  }

  lemma DrainsKeep(maximum: nat, s: System, a: Action)
    requires Ordered(s) && Enabled(maximum, s, a) && DrainsCount(s)
    ensures DrainsCount(Apply(maximum, s, a))
  {
    if a.Deliver? || a.LaneReply? {
      ReplyDrains(s, a);
    } else if OfWorker(a) {
      LoopDrains(maximum, s, a);
    }
  }

  lemma CountedKeeps(maximum: nat, s: System, a: Action)
    requires Counted(s) && Shaped(maximum, s) && Ordered(s) && Enabled(maximum, s, a)
    ensures Counted(Apply(maximum, s, a))
  {
    QueuedKeeps(maximum, s, a);
    ActiveKeeps(maximum, s, a);
    FailuresKeep(maximum, s, a);
    DrainsKeep(maximum, s, a);
  }

  // Order and shape.

  lemma LoopOrdered(maximum: nat, s: System, a: Action)
    requires Ordered(s) && Enabled(maximum, s, a) && (a.TakeHead? || a.Collect? || a.DrainNext?)
    ensures Ordered(Apply(maximum, s, a))
  {
  }

  lemma OrderedKeeps(maximum: nat, s: System, a: Action)
    requires Ordered(s) && Enabled(maximum, s, a)
    ensures Ordered(Apply(maximum, s, a))
  {
    if a.TakeHead? || a.Collect? || a.DrainNext? {
      LoopOrdered(maximum, s, a);
    }
  }

  lemma LanesShaped(maximum: nat, s: System, a: Action)
    requires Shaped(maximum, s) && Enabled(maximum, s, a) && (OfLane(a) || a.Join?)
    ensures Shaped(maximum, Apply(maximum, s, a))
  {
  }

  lemma SpawnShaped(maximum: nat, s: System, a: Action)
    requires Shaped(maximum, s) && Enabled(maximum, s, a) && (a.Spawn? || a.TakeJob?)
    ensures Shaped(maximum, Apply(maximum, s, a))
  {
    if a.TakeJob? {
      assert [s.worker.batch[0]] + s.worker.batch[1..] == s.worker.batch;
    } else {
      AlikeMoves(s.worker.job, s.worker.batch, s.lanes);
    }
  }

  /** A job of the batch may become a lane beside the others, or be dropped from the batch. */
  lemma AlikeMoves(job: Job, batch: seq<Job>, lanes: seq<Lane>)
    requires Alike([job] + batch, lanes)
    ensures Alike(batch, lanes) && Alike(batch, lanes + [Running(job)])
  {
    var all := [job] + batch;
    assert all[0] == job;
    assert forall i :: 0 <= i < |batch| ==> batch[i] == all[i + 1];
  }

  lemma LoopShaped(maximum: nat, s: System, a: Action)
    requires maximum > 0 && Shaped(maximum, s) && Enabled(maximum, s, a) && (a.TakeHead? || a.Collect?)
    ensures Shaped(maximum, Apply(maximum, s, a))
  {
  }

  lemma ShapedKeeps(maximum: nat, s: System, a: Action)
    requires maximum > 0 && Shaped(maximum, s) && Enabled(maximum, s, a)
    ensures Shaped(maximum, Apply(maximum, s, a))
  {
    if OfLane(a) || a.Join? {
      LanesShaped(maximum, s, a);
    } else if a.Spawn? || a.TakeJob? {
      SpawnShaped(maximum, s, a);
    } else if a.TakeHead? || a.Collect? {
      LoopShaped(maximum, s, a);
    }
  }

  /** Every step of every thread keeps the invariant. */
  lemma ApplyKeeps(maximum: nat, s: System, a: Action)
    requires maximum > 0 && Invariant(maximum, s) && Enabled(maximum, s, a)
    ensures Invariant(maximum, Apply(maximum, s, a))
  {
    ConservedKeeps(maximum, s, a);
    CountedKeeps(maximum, s, a);
    ShapedKeeps(maximum, s, a);
    OrderedKeeps(maximum, s, a);
  }

  lemma InitialConserved(s: System)
    requires s.channel == [] && s.deferred == [] && s.worker == Head && s.outbox == Vacant && s.lanes == []
    requires s.replies == [] && s.accepted == []
    ensures Conserved(s)
  {
  }

  lemma InitialCounted(s: System)
    requires s.channel == [] && s.deferred == [] && s.worker == Head && s.outbox == Vacant && s.lanes == []
    requires s.replies == [] && s.queued == s.submitting == s.active == s.failures == 0 && s.stop == Open
    ensures Counted(s)
  {
  }

  lemma InitialHolds(maximum: nat, s: System)
    requires s.channel == [] && s.deferred == [] && s.worker == Head && s.outbox == Vacant && s.lanes == []
    requires s.replies == [] && s.accepted == [] && s.stop == Open
    requires s.queued == s.submitting == s.active == s.failures == 0
    ensures Invariant(maximum, s)
  {
    InitialConserved(s);
    InitialCounted(s);
  }
}
