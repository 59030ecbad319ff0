/**
  Why a job was answered the way it was, and in which order jobs are served: every reply
  goes back to a step of the run that had cause for it, an open worker serves what it is
  sent, and the channel hands jobs out in the order in which they were accepted.
 */
module ReplyCauses {
  import opened Basics
  import opened Scheduler
  import opened SchedulerRuns

  /** The step a takes s into something that earns the job this reply. */
  predicate Cause(s: System, a: Action, r: Reply) {
    match r.outcome
    case Routed(ok) => a.LaneResult? && a.ok == ok && a.lane < |s.lanes| && s.lanes[a.lane] == Running(r.job)
    case LanePanicked => a.LanePanic? && a.lane < |s.lanes| && s.lanes[a.lane] == Running(r.job)
    case NotSpawned => a == Spawn(false) && s.worker.Launching? && s.worker.job == r.job
    case ShuttingDown => Stopping(s) && (a.TakeHead? || a.Collect?) && Taken(s, a) == Some(Route(r.job))
    case Drained => s.stop == Posted && a.DrainNext? && Taken(s, a) == Some(Route(r.job))
    case NotAllocated =>
      || (!Stopping(s) && (a == TakeHead(false) || a == Collect(false)) && Taken(s, a) == Some(Route(r.job)))
      || (a == Dispatch(false) && s.worker.Dispatching? && r.job in s.worker.batch)
  }

  /** The command a step takes from a queue: heads and drains look at the deferred queue first. */
  function Taken(s: System, a: Action): Option<Command> {
    if (a.TakeHead? || a.DrainNext?) && s.deferred != [] then Some(s.deferred[0])
    else if (a.TakeHead? || a.DrainNext? || a.Collect?) && s.channel != [] then Some(s.channel[0])
    else None
  }

  /** The reply has been sent, or what is left to do for the job can only end in it. */
  ghost predicate Owed(s: System, r: Reply) {
    || r in s.replies
    || (s.outbox.InHand? && s.outbox.reply == r)
    || (r.outcome == NotAllocated && s.worker.Rejecting? && r.job in s.worker.batch)
    || (r.outcome == LanePanicked && Panicked(r.job) in s.lanes)
    || (r.outcome.Routed? && HasResult(r.job, r.outcome.ok) in s.lanes)
  }

  /** A reply is owed only from a step on that had cause for it: steps of the loop, ... */
  lemma LoopOwes(maximum: nat, s: System, a: Action, r: Reply)
    requires Enabled(maximum, s, a) && (s.worker.Draining? ==> s.stop == Posted)
    requires a.TakeHead? || a.Collect? || a.DrainNext? || a.Dispatch? || a.RejectNext?
    requires s.worker.Collecting? ==> s.worker.batch != []
    ensures Owed(Apply(maximum, s, a), r) ==> Owed(s, r) || Cause(s, a, r)
  {
  }

  /** ... of the lanes, ... */
  lemma LaneOwes(maximum: nat, s: System, a: Action, r: Reply)
    requires Enabled(maximum, s, a) && (OfLane(a) || a.Join? || a.Spawn?)
    ensures Owed(Apply(maximum, s, a), r) ==> Owed(s, r) || Cause(s, a, r)
  {
    var t := Apply(maximum, s, a);
    if Owed(t, r) && OfLane(a) {
      var lane := s.lanes[a.lane];
      assert forall x :: x in t.lanes && x != t.lanes[a.lane] ==> x in s.lanes;
      assert lane in s.lanes;
    } else if Owed(t, r) && a.Join? && s.worker.next < |s.lanes| {
      assert s.lanes[s.worker.next] in s.lanes;
      assert forall x :: x in t.lanes && !x.Finished? ==> x in s.lanes;
    }
  }

  /** ... and all others. */
  lemma StepOwes(maximum: nat, s: System, a: Action, r: Reply)
    requires Enabled(maximum, s, a) && (s.worker.Draining? ==> s.stop == Posted)
    requires s.worker.Collecting? ==> s.worker.batch != []
    ensures Owed(Apply(maximum, s, a), r) ==> Owed(s, r) || Cause(s, a, r)
  {
    if a.TakeHead? || a.Collect? || a.DrainNext? || a.Dispatch? || a.RejectNext? {
      LoopOwes(maximum, s, a, r);
    } else if OfLane(a) || a.Join? || a.Spawn? {
      LaneOwes(maximum, s, a, r);
    }
  }

  /** The step out of state j had cause for the reply. */
  ghost predicate CausedAt(maximum: nat, states: seq<System>, j: nat, r: Reply) {
    j + 1 < |states|
    && exists a :: Enabled(maximum, states[j], a) && states[j + 1] == Apply(maximum, states[j], a)
                   && Cause(states[j], a, r)
  }

  lemma StepAtOwes(maximum: nat, states: seq<System>, i: nat, r: Reply)
    requires maximum > 0 && Run(maximum, states) && i + 1 < |states| && Owed(states[i + 1], r)
    ensures Owed(states[i], r) || CausedAt(maximum, states, i, r)
  {
    RunIsShaped(maximum, states, i);
    assert StepAt(maximum, states, i);
    var a :| Enabled(maximum, states[i], a) && states[i + 1] == Apply(maximum, states[i], a);
    StepOwes(maximum, states[i], a, r);
  }

  /** Every reply, sent or owed, goes back to a step of the run that had cause for it. */
  lemma {:induction false} RepliesHaveCauses(maximum: nat, states: seq<System>, i: nat, r: Reply) returns (j: nat)
    requires maximum > 0 && Run(maximum, states) && i < |states| && Owed(states[i], r)
    ensures j < i && CausedAt(maximum, states, j, r)
  {
    assert i > 0;
    StepAtOwes(maximum, states, i - 1, r);
    if Owed(states[i - 1], r) {
      j := RepliesHaveCauses(maximum, states, i - 1, r);
    } else {
      j := i - 1;
    }
  }

  lemma {:induction false} StopStays(maximum: nat, states: seq<System>, i: nat, j: nat)
    requires Run(maximum, states) && i <= j < |states|
    ensures Stopping(states[i]) ==> Stopping(states[j])
    decreases j - i
  {
    if i < j {
      StopStays(maximum, states, i, j - 1);
      assert StepAt(maximum, states, j - 1);
    }
  }

  /** While the worker has not been asked to stop, nobody has been told that it is shutting down or drained. */
  lemma OpenWorkerRejectsNobody(maximum: nat, states: seq<System>, i: nat, r: Reply)
    requires maximum > 0 && Run(maximum, states) && i < |states| && r in states[i].replies && states[i].stop == Open
    ensures r.outcome != ShuttingDown && r.outcome != Drained
  {
    var j := RepliesHaveCauses(maximum, states, i, r);
    StopStays(maximum, states, j, i);
  }

  /** A step that reports a refused allocation or spawn. */
  predicate Denial(a: Action) {
    ((a.TakeHead? || a.Collect? || a.Dispatch?) && !a.granted) || (a.Spawn? && !a.spawned)
  }

  /** Nobody is told, or about to be told, that something could not be allocated or spawned. */
  ghost predicate NobodyDenied(s: System) {
    forall r :: Owed(s, r) ==> !r.outcome.NotAllocated? && !r.outcome.NotSpawned?
  }

  lemma DeniedNeedsDenial(maximum: nat, s: System, a: Action)
    requires Enabled(maximum, s, a) && NobodyDenied(s) && !Denial(a)
    requires s.worker.Draining? ==> s.stop == Posted
    requires s.worker.Collecting? ==> s.worker.batch != []
    ensures NobodyDenied(Apply(maximum, s, a))
  {
    forall r | Owed(Apply(maximum, s, a), r)
      ensures !r.outcome.NotAllocated? && !r.outcome.NotSpawned?
    {
      StepOwes(maximum, s, a, r);
    }
  }

  ghost predicate QuietStepAt(maximum: nat, states: seq<System>, i: nat) {
    i + 1 < |states| ==>
      exists a :: Enabled(maximum, states[i], a) && !Denial(a) && states[i + 1] == Apply(maximum, states[i], a)
  }

  /** No step reports a refusal. */
  ghost predicate Quiet(maximum: nat, states: seq<System>) {
    forall i: nat :: QuietStepAt(maximum, states, i)
  }

  lemma NobodyDeniedYet(s: System)
    requires s == Initial
    ensures NobodyDenied(s)
  {
  }

  /** Without a refusal nobody is told that something could not be allocated or spawned. */
  lemma {:induction false} QuietRunDeniesNobody(maximum: nat, states: seq<System>, i: nat)
    requires maximum > 0 && Run(maximum, states) && Quiet(maximum, states) && i < |states|
    ensures NobodyDenied(states[i])
  {
    if i == 0 {
      NobodyDeniedYet(states[0]);
    } else {
      QuietRunDeniesNobody(maximum, states, i - 1);
      RunIsShaped(maximum, states, i - 1);
      assert QuietStepAt(maximum, states, i - 1);
      var a :| Enabled(maximum, states[i - 1], a) && !Denial(a) && states[i] == Apply(maximum, states[i - 1], a);
      DeniedNeedsDenial(maximum, states[i - 1], a);
    }
  }

  lemma ExtendQuiet(maximum: nat, states: seq<System>, a: Action)
    requires states != [] && Quiet(maximum, states) && Enabled(maximum, states[|states| - 1], a) && !Denial(a)
    ensures Quiet(maximum, states + [Apply(maximum, states[|states| - 1], a)])
  {
    var longer := states + [Apply(maximum, states[|states| - 1], a)];
    forall i: nat
      ensures QuietStepAt(maximum, longer, i)
    {
      assert QuietStepAt(maximum, states, i);
      if i + 1 < |states| {
        assert longer[i] == states[i] && longer[i + 1] == states[i + 1];
      } else if i + 1 < |longer| {
        assert longer[i] == states[i];
        assert Enabled(maximum, longer[i], a);
        assert longer[i + 1] == Apply(maximum, longer[i], a);
      }
    }
  }

  // Serving.

  /** An open worker with memory makes a batch of the next job, ... */
  lemma HeadIsServed(maximum: nat, s: System, job: Job)
    requires Enabled(maximum, s, TakeHead(true)) && s.stop == Open && Taken(s, TakeHead(true)) == Some(Route(job))
    ensures Apply(maximum, s, TakeHead(true)).worker == Collecting([job])
  {
  }

  /** ... and a job that arrives during collection joins the batch if it is like it, and is deferred if not. */
  lemma ArrivalIsKept(maximum: nat, s: System, job: Job, granted: bool)
    requires Enabled(maximum, s, Collect(granted)) && s.stop == Open && s.channel[0] == Route(job)
    ensures var t := Apply(maximum, s, Collect(granted));
            if !Compatible(job, s.worker.batch[0]) then
              t.deferred == s.deferred + [Route(job)] && t.worker == s.worker && t.outbox == Vacant
            else if granted then
              t.worker == Collecting(s.worker.batch + [job]) && t.deferred == s.deferred && t.outbox == Vacant
            else
              t.worker == Dispatching(s.worker.batch) && t.outbox.InHand? && t.outbox.reply == Reply(job, NotAllocated)
  {
  }

  /** The jobs among the commands, in order. */
  function JobsOf(commands: seq<Command>): seq<Job> {
    if commands == [] then [] else JobOf(commands[0]) + JobsOf(commands[1..])
  }

  function JobOf(c: Command): seq<Job> {
    if c.Route? then [c.job] else []
  }

  lemma {:induction false} JobsOfPush(commands: seq<Command>, c: Command)
    ensures JobsOf(commands + [c]) == JobsOf(commands) + JobOf(c)
  {
    if commands == [] {
      assert commands + [c] == [c] && [c][1..] == [];
    } else {
      JobsOfPush(commands[1..], c);
      assert (commands + [c])[1..] == commands[1..] + [c];
      assert JobOf(commands[0]) + (JobsOf(commands[1..]) + JobOf(c))
             == JobOf(commands[0]) + JobsOf(commands[1..]) + JobOf(c);
    }
  }

  /** The channel holds the jobs accepted last, in the order of their acceptance. */
  ghost predicate InOrder(s: System) {
    var waiting := JobsOf(s.channel);
    |waiting| <= |s.accepted| && s.accepted[|s.accepted| - |waiting|..] == waiting
  }

  lemma SuffixGrows(jobs: seq<Job>, waiting: seq<Job>, job: Job)
    requires |waiting| <= |jobs| && jobs[|jobs| - |waiting|..] == waiting
    ensures (jobs + [job])[|jobs| - |waiting|..] == waiting + [job]
  {
  }

  lemma SendKeepsOrder(maximum: nat, s: System, a: Action)
    requires Enabled(maximum, s, a) && InOrder(s) && a.SendJob?
    ensures InOrder(Apply(maximum, s, a))
  {
    if s.worker != Exited {
      var job := Job(|s.accepted|, a.image, a.algorithm);
      JobsOfPush(s.channel, Route(job));
      SuffixGrows(s.accepted, JobsOf(s.channel), job);
    }
  }

  lemma StopKeepsOrder(maximum: nat, s: System)
    requires Enabled(maximum, s, PostStop) && InOrder(s)
    ensures InOrder(Apply(maximum, s, PostStop))
  {
    JobsOfPush(s.channel, Shutdown);
  }

  lemma StepKeepsOrder(maximum: nat, s: System, a: Action)
    requires Enabled(maximum, s, a) && InOrder(s)
    ensures InOrder(Apply(maximum, s, a))
  {
    if a.SendJob? {
      SendKeepsOrder(maximum, s, a);
    } else if a.PostStop? {
      StopKeepsOrder(maximum, s);
    } else {
      OthersOnlyTake(maximum, s, a);
      if s.channel != [] {
        TakingKeepsOrder(s);
      }
    }
  }

  lemma OthersOnlyTake(maximum: nat, s: System, a: Action)
    requires Enabled(maximum, s, a) && !a.SendJob? && !a.PostStop?
    ensures var t := Apply(maximum, s, a);
            t.accepted == s.accepted && (t.channel == s.channel || (s.channel != [] && t.channel == s.channel[1..]))
  {
  }

  lemma TakingKeepsOrder(s: System)
    requires InOrder(s) && s.channel != []
    ensures InOrder(s.(channel := s.channel[1..]))
  {
  }

  /** First come, first served: in every state of every run the jobs not yet taken are the last accepted, in order. */
  lemma {:induction false} ChannelIsInOrder(maximum: nat, states: seq<System>, i: nat)
    requires Run(maximum, states) && i < |states|
    ensures InOrder(states[i])
  {
    if i > 0 {
      ChannelIsInOrder(maximum, states, i - 1);
      assert StepAt(maximum, states, i - 1);
      var a :| Enabled(maximum, states[i - 1], a) && states[i] == Apply(maximum, states[i - 1], a);
      StepKeepsOrder(maximum, states[i - 1], a);
    }
  }
}
