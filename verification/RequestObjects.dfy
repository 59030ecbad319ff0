/**
  The facade's request objects and the engine's registry, as code: the allocator of
  identifiers, one execution of a handle, the cancellation of a request and of all of
  them. The object records the run of the protocol it takes part in, and other threads
  step between any two accesses, so what is proved of runs holds of every call.
 */
module RequestObjects {
  import opened Basics
  import opened Requests
  import opened RequestRuns

  datatype Outcome = Signalled | AlreadySignalled | AlreadyCompleted | ShuttingDown

  lemma ExtendRun(states: seq<System>, a: Action)
    requires Run(states) && Enabled(states[|states| - 1], a)
    ensures Run(states + [Apply(states[|states| - 1], a)])
  {
    var longer := states + [Apply(states[|states| - 1], a)];
    forall i: nat
      ensures StepAt(longer, i)
    {
      assert StepAt(states, i);
      if i + 1 < |states| {
        assert longer[i] == states[i] && longer[i + 1] == states[i + 1];
      } else if i + 1 < |longer| {
        assert longer[i] == states[i];
        assert Enabled(longer[i], a);
        assert longer[i + 1] == Apply(longer[i], a);
      }
    }
  }

  lemma RunStarts(s: System)
    requires s == Initial
    ensures Run([s])
  {
  }

  /** In the last state of a run, the request a thread works on is there, alive and not told about twice. */
  lemma RequestIsThere(run: seq<System>, id: nat)
    requires Run(run) && (Held(run[|run| - 1], id) || id in run[|run| - 1].alive)
    ensures id in run[|run| - 1].requests && id in run[|run| - 1].alive && run[|run| - 1].requests[id].told <= 1
  {
    RunKeeps(run, |run| - 1);
    SignalledAtMostOnce(run, |run| - 1, id);
  }

  class RequestFacade {
    var highWater: Option<nat>
    var requests: map<nat, Request>
    var table: set<nat>
    var alive: set<nat>
    var registry: set<nat>
    var shuttingDown: bool
    var cancellers: map<nat, Canceller>
    var routers: map<nat, Router>
    var sweep: Option<set<nat>>
    var issued: seq<nat>
    ghost var run: seq<System>

    ghost function View(): System
      reads this
    {
      System(issued, requests, table, alive, registry, shuttingDown, cancellers, routers, sweep)
    }

    /** The recorded run ends in the state as it is now. */
    ghost predicate Valid()
      reads this
    {
      Run(run) && run[|run| - 1] == View() && highWater == HighWater(issued)
    }

    constructor ()
      ensures Valid() && run == [Initial]
    {
      highWater, requests, table, alive, registry := None, map[], {}, {}, {};
      shuttingDown, cancellers, routers, sweep := false, map[], map[], None;
      issued, run := [], [Initial];
      RunStarts(Initial);
    }

    /** Appends the access just made to the recorded run. */
    ghost method Record(a: Action)
      requires Run(run) && Enabled(run[|run| - 1], a) && View() == Apply(run[|run| - 1], a)
      modifies this`run
      ensures Run(run) && run == old(run) + [View()]
    {
      ExtendRun(run, a);
      run := run + [View()];
    }

    /**
      allocate: the new identifier is above every identifier ever issued. It is refused only when there is no
      larger one, or when the supplied one is not above them all.
     */
    method Allocate(allocation: Allocation) returns (id: Option<nat>)
      requires Valid() && (allocation.Supplied? ==> allocation.id <= U64_MAX)
      modifies this
      ensures Valid() && old(run) <= run
      ensures id.Some? ==> issued == old(issued) + [id.value] && forall i :: i in old(issued) ==> i < id.value
      ensures id.Some? ==> id.value in alive && id.value in requests
                           && requests[id.value].phase == Created && !requests[id.value].flag
      ensures id == None ==> issued == old(issued)
      ensures id.Some? ==> match allocation
                           case Supplied(value) => id.value == value
                           case Automatic =>
                             id.value == if old(issued) == [] then 1 else old(issued)[|old(issued)| - 1] + 1
      ensures id == None <==> exists i :: i in old(issued) && Blocks(i, allocation)
    {
      LastIsLargest(run);
      table := table * alive;
      match allocation {
        case Automatic =>
          id := if highWater == None then Some(1)
                else if highWater.value >= U64_MAX then None
                else Some(highWater.value + 1);
        case Supplied(value) =>
          id := if highWater.Some? && value <= highWater.value then None else Some(value);
      }
      if id.Some? {
        highWater, issued := id, issued + [id.value];
        requests := requests[id.value := Request(Created, false, 0, 0, 0)];
        table, alive := table + {id.value}, alive + {id.value};
      }
      Record(Action.Allocate(allocation));
    }

    /** request: a request is found exactly while a handle to it is alive. */
    method Find(thread: nat, id: nat) returns (found: bool)
      requires Valid() && thread !in cancellers
      modifies this`table, this`cancellers, this`run
      ensures Valid() && old(run) <= run
      ensures found <==> id in alive
      ensures found ==> thread in cancellers && cancellers[thread] == Started(id)
      ensures !found ==> cancellers == old(cancellers)
    {
      AliveIsTabled(run);
      found := id in table && id in alive;
      if found {
        cancellers := cancellers[thread := Started(id)];
      } else {
        table := table - {id};
      }
      Record(CancelById(thread, id));
    }

    // One execution.

    /** begin: of all exchanges ever made on a handle, one at most succeeds, and the call knows whether it was its own. */
    method Begin(thread: nat, id: nat) returns (ok: bool)
      requires Valid() && thread in routers && routers[thread] == Admitted(id)
      modifies this`requests, this`routers, this`run
      ensures Valid() && old(run) <= run && id in requests
      ensures ok <==> id in old(requests) && old(requests)[id].begins == 0
      ensures ok ==> requests[id].begins == 1 && thread in routers && routers[thread] == Begun(id)
      ensures !ok ==> thread !in routers && requests == old(requests)
    {
      RequestIsThere(run, id);
      ExecutesAtMostOnce(run, |run| - 1, id);
      var r := requests[id];
      ok := r.phase == Created;
      if ok {
        requests := requests[id := r.(phase := Executing, begins := r.begins + 1)];
        routers := routers[thread := Begun(id)];
      } else {
        routers := routers - {thread};
      }
      Record(StepRoute(thread, true));
    }

    /** register_flag: the engine never finds the identifier of a begun request already active. */
    method Register(thread: nat, id: nat) returns (ok: bool)
      requires Valid() && thread in routers && routers[thread] == Begun(id) && sweep == None
      modifies this`registry, this`routers, this`run
      ensures Valid() && old(run) <= run && ok
      ensures id !in old(registry) && registry == old(registry) + {id}
      ensures thread in routers && routers[thread] == Registered(id)
    {
      RequestIsThere(run, id);
      RegistrationSucceeds(run, |run| - 1, thread);
      ok := id !in registry;
      if ok {
        registry, routers := registry + {id}, routers[thread := Registered(id)];
      }
      Record(StepRoute(thread, true));
    }

    /** Dropping a registration: it is still there, and afterwards the engine no longer knows the request. */
    method Unregister(thread: nat, id: nat)
      requires Valid() && thread in routers && routers[thread] == Registered(id) && sweep == None
      modifies this`registry, this`routers, this`run
      ensures Valid() && old(run) <= run
      ensures id in old(registry) && registry == old(registry) - {id}
      ensures thread in routers && routers[thread] == Returned(id)
    {
      RequestIsThere(run, id);
      RegisteredIsActive(run, thread);
      registry, routers := registry - {id}, routers[thread := Returned(id)];
      Record(StepRoute(thread, true));
    }

    /** The completion guard: a completed request never begins again. */
    method MarkComplete(thread: nat, id: nat)
      requires Valid() && thread in routers && routers[thread] == Returned(id)
      modifies this`requests, this`routers, this`run
      ensures Valid() && old(run) <= run
      ensures id in requests && requests[id].phase == Complete && requests[id].begins == 1 && thread !in routers
    {
      RequestIsThere(run, id);
      WorkingHasBegun(run, thread);
      requests := requests[id := requests[id].(phase := Complete)];
      routers := routers - {thread};
      Record(StepRoute(thread, true));
    }

    // Other threads.

    /** Any access of any thread. */
    method Do(a: Action)
      requires Valid() && Enabled(View(), a)
      modifies this
      ensures Valid() && run == old(run) + [View()] && View() == Apply(old(View()), a)
    {
      Become(Apply(System(issued, requests, table, alive, registry, shuttingDown, cancellers, routers, sweep), a));
      Record(a);
    }

    method Become(t: System)
      modifies this
      ensures View() == t && highWater == HighWater(issued) && run == old(run)
    {
      issued, requests, table, alive, registry := t.issued, t.requests, t.table, t.alive, t.registry;
      shuttingDown, cancellers, routers, sweep := t.shuttingDown, t.cancellers, t.routers, t.sweep;
      highWater := HighWater(issued);
    }

    /** What other threads do between two accesses of this one; under the registry lock nobody else sweeps. */
    method Others(turns: nat, thread: nat, locked: bool)
      requires Valid() && (locked ==> sweep.Some?)
      modifies this
      ensures Valid() && old(run) <= run
      ensures SameThread(thread, old(View()), View())
      ensures locked ==> sweep == old(sweep) && registry == old(registry)
    {
      for k := 0 to turns
        invariant Valid() && old(run) <= run && SameThread(thread, old(View()), View())
        invariant locked ==> sweep.Some? && sweep == old(sweep) && registry == old(registry)
      {
        var a: Action := *;
        var s := System(issued, requests, table, alive, registry, shuttingDown, cancellers, routers, sweep);
        if Enabled(s, a) && !Concerns(a, thread) && !(locked && (a.SweepOne? || a.EndSweep?)) {
          OthersLeaveAlone(s, a, thread);
          Do(a);
        }
      }
    }

    /** Waiting for the registry lock: whoever sweeps comes to an end. */
    method AwaitRegistry(thread: nat)
      requires Valid()
      modifies this
      ensures Valid() && old(run) <= run && sweep == None
      ensures SameThread(thread, old(View()), View())
    {
      while sweep.Some?
        invariant Valid() && old(run) <= run && SameThread(thread, old(View()), View())
        decreases if sweep.Some? then 1 + |sweep.value| else 0
      {
        if sweep.value == {} {
          Do(EndSweep);
        } else {
          var id :| id in sweep.value;
          SweptIsThere(run, id);
          Do(SweepOne(id));
        }
      }
    }

    /** route: a handle that was begun before is refused; otherwise it runs once, registered while the engine works. */
    method Route(thread: nat, id: nat, limits: bool, turns: nat) returns (started: bool)
      requires Valid() && thread in routers && routers[thread] == Admitted(id)
      modifies this
      ensures Valid() && old(run) <= run && thread !in routers
      ensures started <==> id in old(requests) && old(requests)[id].begins == 0
      ensures started ==> id in requests && requests[id].phase == Complete && requests[id].begins == 1
      ensures started && limits ==> RegisteredSince(run, |old(run)|, id)
    {
      started := Begin(thread, id);
      if !started {
        return;
      }
      Others(turns, thread, false);
      ghost var since := run;
      if limits {
        CallEngine(thread, id, turns);
      } else {
        Refuse(thread, id);
      }
      ghost var called := run;
      Others(turns, thread, false);
      MarkComplete(thread, id);
      if limits {
        RegisteredStays(called, run, |since|, |old(run)|, id);
      }
    }

    /** The engine's part: registered while it works, and not afterwards. */
    method CallEngine(thread: nat, id: nat, turns: nat)
      requires Valid() && thread in routers && routers[thread] == Begun(id)
      modifies this
      ensures Valid() && old(run) <= run && thread in routers && routers[thread] == Returned(id)
      ensures RegisteredSince(run, |old(run)|, id)
    {
      AwaitRegistry(thread);
      var registered := Register(thread, id);
      ghost var at := run;
      Others(turns, thread, false);
      AwaitRegistry(thread);
      Unregister(thread, id);
      assert run[|at| - 1] == at[|at| - 1] && id in run[|at| - 1].registry;
    }

    /** A request that its own limits stop never reaches the engine. */
    method Refuse(thread: nat, id: nat)
      requires Valid() && thread in routers && routers[thread] == Begun(id)
      modifies this`routers, this`run
      ensures Valid() && old(run) <= run && thread in routers && routers[thread] == Returned(id)
    {
      RequestIsThere(run, id);
      routers := routers[thread := Returned(id)];
      Record(StepRoute(thread, false));
    }

    // Cancellation.

    /** One access of cancel_state that only reads, and moves on or leaves. */
    method Look(thread: nat, id: nat) returns (outcome: Option<Outcome>)
      requires Valid() && thread in cancellers && cancellers[thread].id == id
      requires !cancellers[thread].AskingEngine? && !cancellers[thread].Swapping? && !cancellers[thread].Swapped?
      modifies this`cancellers, this`run
      ensures Valid() && old(run) <= run && id in requests
      ensures outcome == None ==> thread in cancellers && cancellers[thread].id == id
                                  && !cancellers[thread].Swapped?
                                  && Stage(cancellers[thread]) > Stage(old(cancellers)[thread])
      ensures outcome.Some? ==> thread !in cancellers
      ensures outcome.Some? ==> (outcome.value == AlreadyCompleted && requests[id].phase == Complete)
                                || (outcome.value == ShuttingDown && shuttingDown)
      ensures old(cancellers)[thread].Started? && requests[id].phase == Complete ==> outcome == Some(AlreadyCompleted)
      ensures old(cancellers)[thread].CheckingShutdown? && shuttingDown ==> outcome == Some(ShuttingDown)
      ensures old(cancellers)[thread].Incomplete? && requests[id].phase == Created ==>
                outcome == None && cancellers[thread] == CheckingShutdown(id)
      ensures outcome == None && old(cancellers)[thread].Started? ==> cancellers[thread] == Incomplete(id)
    {
      RequestIsThere(run, id);
      outcome := None;
      match cancellers[thread] {
        case Started(_) =>
          if requests[id].phase == Complete {
            cancellers, outcome := cancellers - {thread}, Some(AlreadyCompleted);
          } else {
            cancellers := cancellers[thread := Incomplete(id)];
          }
        case Incomplete(_) =>
          var created := requests[id].phase == Created;
          cancellers := cancellers[thread := if created then CheckingShutdown(id) else PastShutdown(id)];
        case CheckingShutdown(_) =>
          if shuttingDown {
            cancellers, outcome := cancellers - {thread}, Some(ShuttingDown);
          } else {
            cancellers := cancellers[thread := PastShutdown(id)];
          }
        case PastShutdown(_) =>
          var executing := requests[id].phase == Executing;
          cancellers := cancellers[thread := if executing then AskingEngine(id) else Swapping(id)];
      }
      Record(StepCancel(thread));
    }

    /** The engine's cancel: told Signalled means that no other caller ever was or will be. */
    method AskEngine(thread: nat, id: nat) returns (outcome: Option<Outcome>)
      requires Valid() && thread in cancellers && cancellers[thread] == AskingEngine(id) && sweep == None
      modifies this`requests, this`cancellers, this`run
      ensures Valid() && old(run) <= run && id in requests
      ensures outcome == None <==> id !in registry
      ensures outcome == None ==> thread in cancellers && cancellers[thread] == Swapping(id)
      ensures outcome.Some? ==> thread !in cancellers && requests[id].flag
      ensures outcome == Some(Signalled) ==> requests[id].told == 1
      ensures outcome.Some? ==> outcome.value == Signalled || outcome.value == AlreadySignalled
      ensures outcome.Some? ==> Raises(old(View()), View(), thread, id, outcome.value == Signalled)
      ensures run == old(run) + [View()]
    {
      RequestIsThere(run, id);
      if id !in registry {
        cancellers, outcome := cancellers[thread := Swapping(id)], None;
        Record(StepCancel(thread));
        return;
      }
      var r := requests[id];
      outcome := Some(if r.flag then AlreadySignalled else Signalled);
      requests := requests[id := r.(flag := true, told := if r.flag then r.told else r.told + 1)];
      cancellers := cancellers - {thread};
      Record(StepCancel(thread));
      ToldIsOne(run, id);
    }

    /** The facade's own swap of the flag. */
    method Swap(thread: nat, id: nat) returns (newly: bool)
      requires Valid() && thread in cancellers && cancellers[thread] == Swapping(id)
      modifies this`requests, this`cancellers, this`run
      ensures Valid() && old(run) <= run && id in requests && requests[id].flag
      ensures thread in cancellers && cancellers[thread] == Swapped(id, newly)
      ensures run == old(run) + [View()] && Raises(old(View()), View(), thread, id, newly)
    {
      RequestIsThere(run, id);
      newly := !requests[id].flag;
      requests := requests[id := requests[id].(flag := true)];
      cancellers := cancellers[thread := Swapped(id, newly)];
      Record(StepCancel(thread));
    }

    /** The look at the phase after the swap: the one winner of the flag is told Signalled, or that it came too late. */
    method Report(thread: nat, id: nat, newly: bool) returns (outcome: Outcome)
      requires Valid() && thread in cancellers && cancellers[thread] == Swapped(id, newly)
      modifies this`requests, this`cancellers, this`run
      ensures Valid() && old(run) <= run && thread !in cancellers && id in requests && id in old(requests)
      ensures requests[id].flag == old(requests)[id].flag
      ensures outcome == Signalled ==> requests[id].told == 1
      ensures outcome == AlreadyCompleted <==> requests[id].phase == Complete
      ensures outcome != ShuttingDown && (outcome != AlreadyCompleted ==> (outcome == Signalled <==> newly))
    {
      RequestIsThere(run, id);
      var r := requests[id];
      outcome := if r.phase == Complete then AlreadyCompleted else if newly then Signalled else AlreadySignalled;
      if newly {
        requests := requests[id := if r.phase == Complete then r.(late := r.late + 1) else r.(told := r.told + 1)];
      }
      cancellers := cancellers - {thread};
      Record(StepCancel(thread));
      ToldIsOne(run, id);
    }

    /** The swap and the report, with other threads in between. */
    method SwapAndReport(thread: nat, id: nat, turns: nat) returns (outcome: Outcome)
      requires Valid() && thread in cancellers && cancellers[thread] == Swapping(id)
      modifies this
      ensures Valid() && old(run) <= run && thread !in cancellers && id in requests && requests[id].flag
      ensures outcome == Signalled ==> requests[id].told == 1
      ensures outcome == AlreadyCompleted <==> requests[id].phase == Complete
      ensures Judged(run, |old(run)| - 1, thread, id, outcome) && outcome != ShuttingDown
    {
      var newly := Swap(thread, id);
      ghost var mark := |run| - 1;
      Others(turns, thread, false);
      FlagStays(run, mark, id);
      outcome := Report(thread, id, newly);
      JudgedBy(run, |old(run)| - 1, mark - 1, thread, id, newly, outcome);
    }

    /** The looks that come before any swap. */
    method LookAround(thread: nat, id: nat, turns: nat) returns (outcome: Option<Outcome>)
      requires Valid() && thread in cancellers && cancellers[thread] == Started(id)
      modifies this
      ensures Valid() && old(run) <= run && id in old(requests)
      ensures outcome == None ==> thread in cancellers
                                  && (cancellers[thread] == AskingEngine(id) || cancellers[thread] == Swapping(id))
      ensures outcome.Some? ==> thread !in cancellers && id in requests
      ensures outcome.Some? ==> (outcome.value == AlreadyCompleted && requests[id].phase == Complete)
                                || (outcome.value == ShuttingDown && shuttingDown)
      ensures old(requests)[id].phase == Complete ==> outcome == Some(AlreadyCompleted)
      ensures outcome == None && old(shuttingDown) ==> id in requests && requests[id].phase != Created
    {
      RequestIsThere(run, id);
      outcome := None;
      while !cancellers[thread].AskingEngine? && !cancellers[thread].Swapping?
        invariant Valid() && old(run) <= run && thread in cancellers && cancellers[thread].id == id
        invariant !cancellers[thread].Swapped? && outcome == None && id in requests
        invariant old(shuttingDown) ==> shuttingDown
        invariant old(requests)[id].phase == Complete ==> cancellers[thread].Started? && requests[id].phase == Complete
        invariant old(shuttingDown) && Past(cancellers[thread]) ==> requests[id].phase != Created
        decreases 5 - Stage(cancellers[thread])
      {
        LookAgain(thread, id, turns);
        outcome := Look(thread, id);
        if outcome.Some? {
          return;
        }
      }
    }

    /** What other threads do before the next look: phases and the shutdown only go on. */
    method LookAgain(thread: nat, id: nat, turns: nat)
      requires Valid() && thread in cancellers && id in requests
      modifies this
      ensures Valid() && old(run) <= run && SameThread(thread, old(View()), View())
      ensures id in requests && id in old(requests) && Rank(old(requests)[id].phase) <= Rank(requests[id].phase)
      ensures old(shuttingDown) ==> shuttingDown
    {
      ghost var mark := |run| - 1;
      Others(turns, thread, false);
      RunGoesOnward(run, mark, |run| - 1);
      assert RequestOnward(run[mark].requests[id], run[|run| - 1].requests[id]);
    }

    /** The engine is asked where the request was seen executing. */
    method AskIfExecuting(thread: nat, id: nat, turns: nat) returns (outcome: Option<Outcome>)
      requires Valid() && thread in cancellers
      requires cancellers[thread] == AskingEngine(id) || cancellers[thread] == Swapping(id)
      modifies this
      ensures Valid() && old(run) <= run
      ensures outcome == None ==> thread in cancellers && cancellers[thread] == Swapping(id)
      ensures outcome.Some? ==> thread !in cancellers && id in requests && requests[id].flag
      ensures outcome.Some? ==> outcome.value == Signalled || outcome.value == AlreadySignalled
      ensures outcome == Some(Signalled) ==> requests[id].told == 1
      ensures outcome.Some? ==> Judged(run, |old(run)| - 1, thread, id, outcome.value)
    {
      Others(turns, thread, false);
      if cancellers[thread].Swapping? {
        return None;
      }
      AwaitRegistry(thread);
      ghost var asked := |run| - 1;
      outcome := AskEngine(thread, id);
      if outcome.Some? {
        JudgedBy(run, |old(run)| - 1, asked, thread, id, outcome.value == Signalled, outcome.value);
      }
    }

    /** The engine first where it may know the request, and otherwise the flag itself. */
    method AskThenSwap(thread: nat, id: nat, turns: nat) returns (outcome: Outcome)
      requires Valid() && thread in cancellers
      requires cancellers[thread] == AskingEngine(id) || cancellers[thread] == Swapping(id)
      modifies this
      ensures Valid() && old(run) <= run && Answered(run, |old(run)| - 1, thread, id, outcome)
    {
      var told := AskIfExecuting(thread, id, turns);
      if told.Some? {
        return told.value;
      }
      Others(turns, thread, false);
      ghost var asked := |run| - 1;
      outcome := SwapAndReport(thread, id, turns);
      JudgedSince(run, |old(run)| - 1, asked, thread, id, outcome);
    }

    /**
      cancel_state, whole, with other threads between any two of its accesses: Signalled is told once per
      request, and every answer is true when it is given.
     */
    method CancelState(thread: nat, id: nat, turns: nat) returns (outcome: Outcome)
      requires Valid() && thread in cancellers && cancellers[thread] == Started(id)
      modifies this
      ensures Valid() && old(run) <= run && Answered(run, |old(run)| - 1, thread, id, outcome)
      ensures id in old(requests) && (old(requests)[id].phase == Complete ==> outcome == AlreadyCompleted)
      ensures old(shuttingDown) && requests[id].phase == Created ==> outcome == ShuttingDown
    {
      var seen := LookAround(thread, id, turns);
      if seen.Some? {
        return seen.value;
      }
      ghost var looked := |run| - 1;
      outcome := AskThenSwap(thread, id, turns);
      AnsweredAfterLooks(run, |old(run)| - 1, looked, thread, id, outcome);
    }

    /** One swap of cancel_all under the registry lock. */
    method SweepTurn(id: nat) returns (mine: bool)
      requires Valid() && sweep.Some? && id in sweep.value
      modifies this`requests, this`sweep, this`run
      ensures Valid() && old(run) <= run && sweep == Some(old(sweep).value - {id})
      ensures id in requests && requests[id].flag && (mine ==> requests[id].told == 1)
      ensures run == old(run) + [View()] && Sweeps(old(View()), View(), id, mine)
    {
      SweptIsThere(run, id);
      var r := requests[id];
      mine := !r.flag;
      requests := requests[id := if r.flag then r else r.(flag := true, told := r.told + 1)];
      sweep := Some(sweep.value - {id});
      Record(SweepOne(id));
      ToldIsOne(run, id);
    }

    /** One turn of cancel_all's loop: other threads, and then the swap of one more flag. */
    method SweepNext(thread: nat, turns: nat, id: nat, ghost start: nat, ghost won: set<nat>)
      returns (mine: bool, ghost wins: set<nat>)
      requires Valid() && sweep.Some? && id in sweep.value && id !in won
      requires start < |run| && SweptSince(run, start, registry - sweep.value, won)
      modifies this
      ensures Valid() && old(run) <= run && registry == old(registry) && sweep == Some(old(sweep).value - {id})
      ensures wins == (if mine then won + {id} else won)
      ensures SweptSince(run, start, registry - sweep.value, wins)
    {
      Others(turns, thread, true);
      ghost var mark := |run| - 1;
      mine := SweepTurn(id);
      wins := if mine then won + {id} else won;
      SweptGrows(old(run), run, mark, start, registry - old(sweep).value, won, id, mine);
      assert SweptSince(run, start, registry - old(sweep).value + {id}, wins);
    }

    /** The loop of cancel_all, under the registry lock. */
    method SweepAll(thread: nat, turns: nat) returns (newly: nat, ghost won: set<nat>)
      requires Valid() && sweep == Some(registry)
      modifies this
      ensures Valid() && old(run) <= run && registry == old(registry) && sweep == Some({})
      ensures newly == |won| && won <= registry && SweptSince(run, |old(run)| - 1, registry, won)
    {
      newly, won := 0, {};
      var rest := registry;
      ghost var start := |run| - 1;
      while rest != {}
        invariant Valid() && old(run) <= run && registry == old(registry) && sweep == Some(rest)
        invariant newly == |won| && won <= registry && won !! rest && rest <= registry
        invariant SweptSince(run, start, registry - rest, won)
        decreases rest
      {
        var id :| id in rest;
        var mine;
        mine, won := SweepNext(thread, turns, id, start, won);
        newly := if mine then newly + 1 else newly;
        rest := rest - {id};
      }
      assert registry - rest == registry;
    }

    /**
      cancel_all: with other threads swapping flags in between, every registered flag ends raised, and the
      requests counted as newly signalled are exactly those whose flag this call's own swap raised; they are
      told so by this call alone.
     */
    method CancelAll(thread: nat, turns: nat) returns (count: nat, newly: nat, ghost won: set<nat>)
      requires Valid() && sweep == None
      modifies this
      ensures Valid() && old(run) <= run && sweep == None
      ensures count == |old(registry)| && newly == |won| && won <= old(registry)
      ensures Raised(old(registry), requests) && ToldOnce(View(), won)
      ensures SweptSince(run, |old(run)|, old(registry), won)
    {
      count := |registry|;
      Do(BeginSweep);
      newly, won := SweepAll(thread, turns);
      ghost var swept := run;
      Do(EndSweep);
      SweepIsOver(swept, run, |old(run)|, won);
    }
  }

  /** An identifier already issued that leaves no room for the one asked for. */
  predicate Blocks(i: nat, allocation: Allocation) {
    if allocation.Automatic? then i >= U64_MAX else allocation.id <= i
  }

  /** In some state since the given one the request was registered with the engine. */
  ghost predicate RegisteredSince(run: seq<System>, start: nat, id: nat) {
    exists i :: start <= i < |run| && id in run[i].registry
  }

  lemma RegisteredStays(earlier: seq<System>, run: seq<System>, later: nat, start: nat, id: nat)
    requires earlier <= run && start <= later && RegisteredSince(earlier, later, id)
    ensures RegisteredSince(run, start, id)
  {
    var i :| later <= i < |earlier| && id in earlier[i].registry;
    assert id in run[i].registry;
  }

  /** The canceller is past the look for a shutdown. */
  predicate Past(c: Canceller) {
    !c.Started? && !c.Incomplete? && !c.CheckingShutdown?
  }

  /** How far a canceller has come. */
  function Stage(c: Canceller): nat {
    match c
    case Started(_) => 0
    case Incomplete(_) => 1
    case CheckingShutdown(_) => 2
    case PastShutdown(_) => 3
    case AskingEngine(_) => 4
    case Swapping(_) => 5
    case Swapped(_, _) => 6
  }

  /** The action is a step of this thread. */
  predicate Concerns(a: Action, thread: nat) {
    (a.CancelHandle? || a.CancelById? || a.StepCancel? || a.Route? || a.StepRoute?) && a.thread == thread
  }

  /** The thread stands where it stood. */
  ghost predicate SameThread(thread: nat, s: System, t: System) {
    && (thread in s.cancellers <==> thread in t.cancellers)
    && (thread in s.cancellers ==> t.cancellers[thread] == s.cancellers[thread])
    && (thread in s.routers <==> thread in t.routers)
    && (thread in s.routers ==> t.routers[thread] == s.routers[thread])
  }

  lemma OthersLeaveAlone(s: System, a: Action, thread: nat)
    requires Enabled(s, a) && !Concerns(a, thread)
    ensures SameThread(thread, s, Apply(s, a))
    ensures s.sweep.Some? && !a.SweepOne? && !a.EndSweep? ==>
              Apply(s, a).sweep == s.sweep && Apply(s, a).registry == s.registry
  {
    if a.StepCancel? {
      CancelTouches(s, a.thread);
    }
  }

  lemma LastIsLargest(run: seq<System>)
    requires Run(run)
    ensures var ids := run[|run| - 1].issued;
            && (HighWater(ids) == None <==> ids == [])
            && (forall i :: i in ids ==> HighWater(ids).Some? && i <= HighWater(ids).value)
            && (HighWater(ids).Some? ==> HighWater(ids).value in ids)
  {
    IdentifiersAreNeverReused(run, |run| - 1);
    var ids := run[|run| - 1].issued;
    forall i | i in ids
      ensures HighWater(ids).Some? && i <= HighWater(ids).value
    {
      var k :| 0 <= k < |ids| && ids[k] == i;
    }
  }

  lemma AliveIsTabled(run: seq<System>)
    requires Run(run)
    ensures run[|run| - 1].alive <= run[|run| - 1].table
  {
    RunKeeps(run, |run| - 1);
  }

  lemma RegisteredIsActive(run: seq<System>, thread: nat)
    requires Run(run) && thread in run[|run| - 1].routers && run[|run| - 1].routers[thread].Registered?
    ensures run[|run| - 1].routers[thread].id in run[|run| - 1].registry
  {
    RunKeeps(run, |run| - 1);
  }

  lemma WorkingHasBegun(run: seq<System>, thread: nat)
    requires Run(run) && thread in run[|run| - 1].routers && Working(run[|run| - 1].routers[thread])
    ensures var id := run[|run| - 1].routers[thread].id;
            id in run[|run| - 1].requests && run[|run| - 1].requests[id].begins == 1
  {
    RunKeeps(run, |run| - 1);
  }

  lemma ToldIsOne(run: seq<System>, id: nat)
    requires Run(run) && id in run[|run| - 1].requests
    ensures run[|run| - 1].requests[id].told <= 1
  {
    SignalledAtMostOnce(run, |run| - 1, id);
  }

  lemma PhaseStays(run: seq<System>, mark: nat, id: nat)
    requires Run(run) && mark < |run| && id in run[mark].requests
    ensures id in run[|run| - 1].requests
    ensures Rank(run[mark].requests[id].phase) <= Rank(run[|run| - 1].requests[id].phase)
  {
    RunGoesOnward(run, mark, |run| - 1);
    assert RequestOnward(run[mark].requests[id], run[|run| - 1].requests[id]);
  }

  lemma AnsweredAfterLooks(run: seq<System>, start: nat, looked: nat, thread: nat, id: nat, outcome: Outcome)
    requires Run(run) && start <= looked < |run| && Answered(run, looked, thread, id, outcome)
    ensures Answered(run, start, thread, id, outcome)
    ensures id in run[looked].requests && run[looked].requests[id].phase != Created ==>
              run[|run| - 1].requests[id].phase != Created
  {
    AnsweredSince(run, start, looked, thread, id, outcome);
    if id in run[looked].requests {
      PhaseStays(run, looked, id);
    }
  }

  lemma FlagStays(run: seq<System>, mark: nat, id: nat)
    requires Run(run) && mark < |run| && id in run[mark].requests && run[mark].requests[id].flag
    ensures id in run[|run| - 1].requests && run[|run| - 1].requests[id].flag
  {
    RunGoesOnward(run, mark, |run| - 1);
    assert RequestOnward(run[mark].requests[id], run[|run| - 1].requests[id]);
  }

  ghost predicate ToldOnce(s: System, ids: set<nat>) {
    forall id :: id in ids ==> id in s.requests && s.requests[id].told == 1
  }

  /** From s to t, the canceller swaps the flag of id; it was down exactly when it is the first. */
  ghost predicate Raises(s: System, t: System, thread: nat, id: nat, first: bool) {
    && Enabled(s, StepCancel(thread)) && t == Apply(s, StepCancel(thread))
    && s.cancellers[thread].id == id && id in s.requests && s.requests[id].flag == !first
    && (s.cancellers[thread].Swapping? || (s.cancellers[thread].AskingEngine? && id in s.registry))
  }

  /** Told Signalled, the caller itself raised the flag since the given state; told AlreadySignalled, it found it up. */
  ghost predicate Judged(run: seq<System>, start: nat, thread: nat, id: nat, outcome: Outcome) {
    outcome == Signalled || outcome == AlreadySignalled ==>
      exists i: nat :: start <= i < |run| - 1 && Raises(run[i], run[i + 1], thread, id, outcome == Signalled)
  }

  lemma JudgedBy(run: seq<System>, start: nat, i: nat, thread: nat, id: nat, first: bool, outcome: Outcome)
    requires start <= i < |run| - 1 && Raises(run[i], run[i + 1], thread, id, first)
    requires outcome == Signalled || outcome == AlreadySignalled ==> (outcome == Signalled <==> first)
    ensures Judged(run, start, thread, id, outcome)
  {
  }

  lemma JudgedSince(run: seq<System>, start: nat, later: nat, thread: nat, id: nat, outcome: Outcome)
    requires start <= later && Judged(run, later, thread, id, outcome)
    ensures Judged(run, start, thread, id, outcome)
  {
  }

  /** The call is over and its answer is true now; a flag it was told about is up, told of once and by its own swap. */
  ghost predicate Answered(run: seq<System>, start: nat, thread: nat, id: nat, outcome: Outcome)
    requires run != []
  {
    var s := run[|run| - 1];
    && thread !in s.cancellers && id in s.requests
    && (outcome == Signalled ==> s.requests[id].flag && s.requests[id].told == 1)
    && (outcome == AlreadySignalled ==> s.requests[id].flag)
    && (outcome == AlreadyCompleted ==> s.requests[id].phase == Complete)
    && (outcome == ShuttingDown ==> s.shuttingDown)
    && Judged(run, start, thread, id, outcome)
  }

  lemma AnsweredSince(run: seq<System>, start: nat, later: nat, thread: nat, id: nat, outcome: Outcome)
    requires run != [] && start <= later && Answered(run, later, thread, id, outcome)
    ensures Answered(run, start, thread, id, outcome)
  {
    JudgedSince(run, start, later, thread, id, outcome);
  }

  /** From s to t, cancel_all swaps the flag of id; it was down exactly when the call counts it. */
  ghost predicate Sweeps(s: System, t: System, id: nat, mine: bool) {
    Enabled(s, SweepOne(id)) && t == Apply(s, SweepOne(id)) && id in s.requests && s.requests[id].flag == !mine
  }

  ghost predicate SweptOnce(run: seq<System>, start: nat, id: nat, mine: bool) {
    exists i: nat :: start <= i < |run| - 1 && Sweeps(run[i], run[i + 1], id, mine)
  }

  /** Since the given state the call has swapped all these flags, and raised exactly those it has won. */
  ghost predicate SweptSince(run: seq<System>, start: nat, done: set<nat>, won: set<nat>) {
    forall id :: id in done ==> SweptOnce(run, start, id, id in won)
  }

  lemma SweptOnceStays(earlier: seq<System>, run: seq<System>, start: nat, id: nat, mine: bool)
    requires earlier <= run && SweptOnce(earlier, start, id, mine)
    ensures SweptOnce(run, start, id, mine)
  {
    var i: nat :| start <= i < |earlier| - 1 && Sweeps(earlier[i], earlier[i + 1], id, mine);
    assert Sweeps(run[i], run[i + 1], id, mine);
  }

  lemma SweptStays(earlier: seq<System>, run: seq<System>, start: nat, done: set<nat>, won: set<nat>)
    requires earlier <= run && SweptSince(earlier, start, done, won)
    ensures SweptSince(run, start, done, won)
  {
    forall id | id in done
      ensures SweptOnce(run, start, id, id in won)
    {
      SweptOnceStays(earlier, run, start, id, id in won);
    }
  }

  lemma SweptGrows(earlier: seq<System>, run: seq<System>, mark: nat, start: nat, done: set<nat>, won: set<nat>,
                   id: nat, mine: bool)
    requires earlier <= run && SweptSince(earlier, start, done, won) && id !in done + won
    requires start <= mark && mark + 1 < |run| && Sweeps(run[mark], run[mark + 1], id, mine)
    ensures SweptSince(run, start, done + {id}, if mine then won + {id} else won)
  {
    SweptStays(earlier, run, start, done, won);
    assert SweptOnce(run, start, id, mine);
  }

  /** A request whose flag the call raised has been told about by then, and stays so. */
  lemma WonIsTold(run: seq<System>, start: nat, done: set<nat>, won: set<nat>)
    requires Run(run) && SweptSince(run, start, done, won) && won <= done
    ensures ToldOnce(run[|run| - 1], won)
  {
    forall id | id in won
      ensures id in run[|run| - 1].requests && run[|run| - 1].requests[id].told == 1
    {
      var i: nat :| start <= i < |run| - 1 && Sweeps(run[i], run[i + 1], id, true);
      RunGoesOnward(run, i + 1, |run| - 1);
      assert RequestOnward(run[i + 1].requests[id], run[|run| - 1].requests[id]);
      ToldIsOne(run, id);
    }
  }

  lemma SweptIsThere(run: seq<System>, id: nat)
    requires Run(run) && run[|run| - 1].sweep.Some? && id in run[|run| - 1].sweep.value
    ensures id in run[|run| - 1].requests
  {
    RunKeeps(run, |run| - 1);
    var s := run[|run| - 1];
    var t :| t in s.routers && s.routers[t] == Registered(id);
  }

  ghost predicate Raised(ids: set<nat>, requests: map<nat, Request>) {
    forall id :: id in ids ==> id in requests && requests[id].flag
  }

  lemma SweepRaises(run: seq<System>)
    requires Run(run) && run[|run| - 1].sweep == Some({})
    ensures Raised(run[|run| - 1].registry, run[|run| - 1].requests)
  {
    var s := run[|run| - 1];
    forall id | id in s.registry
      ensures id in s.requests && s.requests[id].flag
    {
      SweepRaisesEverything(run, |run| - 1, id);
    }
  }

  /** What the sweep has achieved is still so when the lock is let go. */
  lemma SweepIsOver(swept: seq<System>, run: seq<System>, start: nat, won: set<nat>)
    requires Run(swept) && swept[|swept| - 1].sweep == Some({}) && won <= swept[|swept| - 1].registry
    requires run == swept + [Apply(swept[|swept| - 1], EndSweep)]
    requires SweptSince(swept, start, swept[|swept| - 1].registry, won)
    ensures Raised(swept[|swept| - 1].registry, run[|run| - 1].requests) && ToldOnce(run[|run| - 1], won)
    ensures SweptSince(run, start, swept[|swept| - 1].registry, won)
  {
    SweepRaises(swept);
    WonIsTold(swept, start, swept[|swept| - 1].registry, won);
    SweptStays(swept, run, start, swept[|swept| - 1].registry, won);
  }
}
