/**
  The request protocol of the facade: identifiers, one execution per handle, and
  cancellation by handle, by identifier and of everything at once, over two layers that
  share one flag per request. Every atomic access is one step of one thread.
 */
module Requests {
  import opened Basics

  const U64_MAX: nat := 0xFFFF_FFFF_FFFF_FFFF

  datatype Phase = Created | Executing | Complete

  /**
    One request: its phase and shared flag, and three counts of what has happened to it:
    executions begun, callers told Signalled, and winners of the flag told AlreadyCompleted.
   */
  datatype Request = Request(phase: Phase, flag: bool, begins: nat, told: nat, late: nat)

  /** Where a cancelling thread stands in cancel_state. */
  datatype Canceller =
    | Started(id: nat)
    | Incomplete(id: nat)
    | CheckingShutdown(id: nat)
    | PastShutdown(id: nat)
    | AskingEngine(id: nat)
    | Swapping(id: nat)
    | Swapped(id: nat, newly: bool)

  /** Where a routing thread stands in route. */
  datatype Router = Admitted(id: nat) | Begun(id: nat) | Registered(id: nat) | Returned(id: nat)

  datatype System = System(
    issued: seq<nat>,
    requests: map<nat, Request>,
    table: set<nat>,
    alive: set<nat>,
    registry: set<nat>,
    shuttingDown: bool,
    cancellers: map<nat, Canceller>,
    routers: map<nat, Router>,
    sweep: Option<set<nat>>)

  datatype Allocation = Automatic | Supplied(id: nat)

  datatype Action =
    | Allocate(allocation: Allocation)
    | DropHandle(id: nat)
    | BeginShutdown
    | BeginSweep
    | SweepOne(id: nat)
    | EndSweep
    | CancelHandle(thread: nat, id: nat)
    | CancelById(thread: nat, id: nat)
    | StepCancel(thread: nat)
    | Route(thread: nat, id: nat)
    | StepRoute(thread: nat, proceed: bool)

  const Initial: System := System([], map[], {}, {}, {}, false, map[], map[], None)

  function HighWater(issued: seq<nat>): Option<nat> {
    if issued == [] then None else Some(issued[|issued| - 1])
  }

  /** The identifier allocate hands out; None for an exhausted space or a supplied value not above the high water. */
  function Assign(high: Option<nat>, allocation: Allocation): (r: Option<nat>)
    ensures r.Some? && high.Some? ==> high.value < r.value
    ensures r == None <==>
            high.Some? && if allocation.Automatic? then high.value >= U64_MAX else allocation.id <= high.value
  {
    match allocation
    case Automatic =>
      if high == None then Some(1) else if high.value >= U64_MAX then None else Some(high.value + 1)
    case Supplied(id) => if high.Some? && id <= high.value then None else Some(id)
  }

  /** Some thread still holds the request. */
  predicate Held(s: System, id: nat) {
    || (exists t :: t in s.cancellers && s.cancellers[t].id == id)
    || (exists t :: t in s.routers && s.routers[t].id == id)
  }

  predicate Enabled(s: System, a: Action) {
    match a
    case Allocate(allocation) => allocation.Supplied? ==> allocation.id <= U64_MAX
    case DropHandle(id) => id in s.alive && !Held(s, id)
    case BeginShutdown => true
    case BeginSweep => s.sweep == None
    case SweepOne(id) => s.sweep.Some? && id in s.sweep.value && id in s.requests
    case EndSweep => s.sweep == Some({})
    case CancelHandle(thread, id) => thread !in s.cancellers && id in s.alive
    case CancelById(thread, _) => thread !in s.cancellers
    case StepCancel(thread) =>
      thread in s.cancellers && s.cancellers[thread].id in s.requests
      && (s.cancellers[thread].AskingEngine? ==> s.sweep == None)
    case Route(thread, id) => thread !in s.routers && id in s.alive
    case StepRoute(thread, proceed) =>
      thread in s.routers && s.routers[thread].id in s.requests
      && (s.routers[thread].Registered? || (s.routers[thread].Begun? && proceed) ==> s.sweep == None)
  }

  function Allocated(s: System, allocation: Allocation): System {
    match Assign(HighWater(s.issued), allocation)
    case None => s.(table := s.table * s.alive)
    case Some(id) =>
      s.(issued := s.issued + [id], requests := s.requests[id := Request(Created, false, 0, 0, 0)],
         table := s.table * s.alive + {id}, alive := s.alive + {id})
  }

  /** A swap under the registry lock; one that found the flag clear is reported as newly signalled. */
  function Signal(r: Request): Request {
    if r.flag then r else r.(flag := true, told := r.told + 1)
  }

  function Put(s: System, id: nat, r: Request): System {
    s.(requests := s.requests[id := r])
  }

  function LeaveCancel(s: System, thread: nat): System {
    s.(cancellers := s.cancellers - {thread})
  }

  function GoCancel(s: System, thread: nat, c: Canceller): System {
    s.(cancellers := s.cancellers[thread := c])
  }

  /** One atomic access of cancel_state. */
  function CancelStep(s: System, thread: nat): System
    requires thread in s.cancellers && s.cancellers[thread].id in s.requests
  {
    var c := s.cancellers[thread];
    var id := c.id;
    var r := s.requests[id];
    match c
    case Started(_) => if r.phase == Complete then LeaveCancel(s, thread) else GoCancel(s, thread, Incomplete(id))
    case Incomplete(_) =>
      GoCancel(s, thread, if r.phase == Created then CheckingShutdown(id) else PastShutdown(id))
    case CheckingShutdown(_) =>
      if s.shuttingDown then LeaveCancel(s, thread) else GoCancel(s, thread, PastShutdown(id))
    case PastShutdown(_) =>
      GoCancel(s, thread, if r.phase == Executing then AskingEngine(id) else Swapping(id))
    case AskingEngine(_) =>
      if id !in s.registry then GoCancel(s, thread, Swapping(id))
      else LeaveCancel(Put(s, id, Signal(r)), thread)
    case Swapping(_) => GoCancel(Put(s, id, r.(flag := true)), thread, Swapped(id, !r.flag))
    case Swapped(_, newly) =>
      LeaveCancel(if !newly then s
                  else if r.phase == Complete then Put(s, id, r.(late := r.late + 1))
                  else Put(s, id, r.(told := r.told + 1)),
                  thread)
  }

  function LeaveRoute(s: System, thread: nat): System {
    s.(routers := s.routers - {thread})
  }

  function GoRoute(s: System, thread: nat, r: Router): System {
    s.(routers := s.routers[thread := r])
  }

  /** One atomic access of route; proceed is false when a limit or the engine stops the request early. */
  function RouteStep(s: System, thread: nat, proceed: bool): System
    requires thread in s.routers && s.routers[thread].id in s.requests
  {
    var id := s.routers[thread].id;
    var r := s.requests[id];
    match s.routers[thread]
    case Admitted(_) =>
      if r.phase != Created then LeaveRoute(s, thread)
      else GoRoute(Put(s, id, r.(phase := Executing, begins := r.begins + 1)), thread, Begun(id))
    case Begun(_) =>
      if !proceed || id in s.registry then GoRoute(s, thread, Returned(id))
      else GoRoute(s.(registry := s.registry + {id}), thread, Registered(id))
    case Registered(_) => GoRoute(s.(registry := s.registry - {id}), thread, Returned(id))
    case Returned(_) => LeaveRoute(Put(s, id, r.(phase := Complete)), thread)
  }

  function Apply(s: System, a: Action): System
    requires Enabled(s, a)
  {
    match a
    case Allocate(allocation) => Allocated(s, allocation)
    case DropHandle(id) => s.(alive := s.alive - {id})
    case BeginShutdown => s.(shuttingDown := true)
    case BeginSweep => s.(sweep := Some(s.registry))
    case SweepOne(id) => Put(s, id, Signal(s.requests[id])).(sweep := Some(s.sweep.value - {id}))
    case EndSweep => s.(sweep := None)
    case CancelHandle(thread, id) => GoCancel(s, thread, Started(id))
    case CancelById(thread, id) =>
      if id in s.table && id in s.alive then GoCancel(s, thread, Started(id)) else s.(table := s.table - {id})
    case StepCancel(thread) => CancelStep(s, thread)
    case Route(thread, id) => if s.shuttingDown then s else GoRoute(s, thread, Admitted(id))
    case StepRoute(thread, proceed) => RouteStep(s, thread, proceed)
  }

  ghost predicate Ascending(ids: seq<nat>) {
    forall i, j :: 0 <= i < j < |ids| ==> ids[i] < ids[j]
  }

  /** Identifiers ascend, and they are exactly the requests there are. */
  ghost predicate Identified(s: System) {
    && Ascending(s.issued)
    && (forall i :: 0 <= i < |s.issued| ==> s.issued[i] <= U64_MAX && s.issued[i] in s.requests)
    && s.alive <= s.requests.Keys && s.alive <= s.table
    && (forall id :: id in s.requests ==> id in s.issued)
    && (forall t :: t in s.cancellers ==> s.cancellers[t].id in s.alive)
    && (forall t :: t in s.routers ==> s.routers[t].id in s.alive)
  }

  /** The thread that executes the request, from its successful exchange to its completion. */
  predicate Working(r: Router) {
    r.Begun? || r.Registered? || r.Returned?
  }

  /** A request executes once: its phase, its begin count, its one working thread and its registration agree. */
  ghost predicate Single(s: System) {
    && (forall id :: id in s.requests ==> s.requests[id].begins == if s.requests[id].phase == Created then 0 else 1)
    && (forall t :: t in s.routers && Working(s.routers[t]) ==>
          s.routers[t].id in s.requests && s.requests[s.routers[t].id].phase == Executing)
    && (forall t, u ::
          (t in s.routers && u in s.routers && Working(s.routers[t]) && Working(s.routers[u])
           && s.routers[t].id == s.routers[u].id)
          ==> t == u)
    && (forall id :: id in s.registry ==> exists t :: t in s.routers && s.routers[t] == Registered(id))
    && (forall t :: t in s.routers && s.routers[t].Registered? ==> s.routers[t].id in s.registry)
  }

  /** The threads that won the flag and have not reported yet. */
  ghost function Winners(cancellers: map<nat, Canceller>, id: nat): set<nat> {
    set t | t in cancellers && cancellers[t] == Swapped(id, true)
  }

  /** The flag is won once: by a caller told so, by one told the request had completed, or by one about to report. */
  ghost predicate WonOnce(s: System, id: nat)
    requires id in s.requests
  {
    s.requests[id].told + s.requests[id].late + |Winners(s.cancellers, id)| == if s.requests[id].flag then 1 else 0
  }

  /** cancel_all holds the registry lock: what remains to be swept is registered, and what has been swept is raised. */
  ghost predicate Sweeping(s: System) {
    s.sweep.Some? ==>
      && s.sweep.value <= s.registry
      && (forall id :: id in s.registry && id !in s.sweep.value ==> id in s.requests && s.requests[id].flag)
  }

  ghost predicate Invariant(s: System) {
    Identified(s) && Single(s) && Sweeping(s) && forall id :: id in s.requests ==> WonOnce(s, id)
  }

  // Winning the flag.

  lemma WinnersSame(a: map<nat, Canceller>, thread: nat, id: nat)
    requires thread in a && a[thread] != Swapped(id, true)
    ensures Winners(a - {thread}, id) == Winners(a, id)
  {
  }

  lemma WinnersGo(a: map<nat, Canceller>, thread: nat, c: Canceller, id: nat)
    requires thread in a ==> a[thread] != Swapped(id, true)
    requires c != Swapped(id, true)
    ensures Winners(a[thread := c], id) == Winners(a, id)
  {
  }

  lemma WinnersGain(a: map<nat, Canceller>, thread: nat, id: nat)
    requires thread in a && a[thread] != Swapped(id, true)
    ensures |Winners(a[thread := Swapped(id, true)], id)| == |Winners(a, id)| + 1
  {
    assert Winners(a[thread := Swapped(id, true)], id) == Winners(a, id) + {thread};
  }

  lemma WinnersLose(a: map<nat, Canceller>, thread: nat, id: nat)
    requires thread in a && a[thread] == Swapped(id, true)
    ensures |Winners(a - {thread}, id)| == |Winners(a, id)| - 1
  {
    assert Winners(a, id) == Winners(a - {thread}, id) + {thread};
  }

  lemma CancelWinsOnce(s: System, thread: nat, id: nat)
    requires Enabled(s, StepCancel(thread)) && id in s.requests && WonOnce(s, id)
    ensures WonOnce(CancelStep(s, thread), id)
  {
    var c := s.cancellers[thread];
    var t := CancelStep(s, thread);
    if c == Swapped(id, true) {
      WinnersLose(s.cancellers, thread, id);
    } else if thread !in t.cancellers {
      WinnersSame(s.cancellers, thread, id);
    } else if t.cancellers[thread] == Swapped(id, true) {
      WinnersGain(s.cancellers, thread, id);
    } else {
      WinnersGo(s.cancellers, thread, t.cancellers[thread], id);
    }
  }

  /** A new identifier is not that of any request or thread. */
  lemma FreshIsUnwon(s: System, allocation: Allocation, id: nat)
    requires Identified(s) && id in Allocated(s, allocation).requests
    requires id in s.requests ==> WonOnce(s, id)
    ensures WonOnce(Allocated(s, allocation), id)
  {
    var given := Assign(HighWater(s.issued), allocation);
    if given == Some(id) {
      assert id !in s.issued;
      assert Winners(s.cancellers, id) == {};
    }
  }

  lemma RouteWinsOnce(s: System, thread: nat, proceed: bool, id: nat)
    requires Enabled(s, StepRoute(thread, proceed)) && id in s.requests && WonOnce(s, id)
    ensures WonOnce(RouteStep(s, thread, proceed), id)
  {
  }

  lemma SweepWinsOnce(s: System, swept: nat, id: nat)
    requires Enabled(s, SweepOne(swept)) && id in s.requests && WonOnce(s, id)
    ensures WonOnce(Apply(s, SweepOne(swept)), id)
  {
  }

  lemma StartWinsOnce(s: System, thread: nat, i: nat, id: nat)
    requires thread !in s.cancellers && id in s.requests && WonOnce(s, id)
    ensures WonOnce(GoCancel(s, thread, Started(i)), id)
  {
    WinnersGo(s.cancellers, thread, Started(i), id);
  }

  lemma UntouchedWinsOnce(s: System, t: System, id: nat)
    requires id in s.requests && WonOnce(s, id) && t.requests == s.requests && t.cancellers == s.cancellers
    ensures WonOnce(t, id)
  {
  }

  lemma ApplyWinsOnce(s: System, a: Action, id: nat)
    requires Enabled(s, a) && !a.Allocate? && id in s.requests && WonOnce(s, id)
    ensures id in Apply(s, a).requests && WonOnce(Apply(s, a), id)
  {
    match a {
      case SweepOne(swept) => SweepWinsOnce(s, swept, id);
      case CancelHandle(thread, i) => StartWinsOnce(s, thread, i, id);
      case CancelById(thread, i) =>
        if i in s.table && i in s.alive {
          StartWinsOnce(s, thread, i, id);
        } else {
          UntouchedWinsOnce(s, Apply(s, a), id);
        }
      case StepCancel(thread) => CancelWinsOnce(s, thread, id);
      case StepRoute(thread, proceed) => RouteWinsOnce(s, thread, proceed, id);
      case DropHandle(_) => UntouchedWinsOnce(s, Apply(s, a), id);
      case BeginShutdown => UntouchedWinsOnce(s, Apply(s, a), id);
      case BeginSweep => UntouchedWinsOnce(s, Apply(s, a), id);
      case EndSweep => UntouchedWinsOnce(s, Apply(s, a), id);
      case Route(_, _) => UntouchedWinsOnce(s, Apply(s, a), id);
    }
  }

  // Identifiers.

  lemma IssuedAscends(issued: seq<nat>, id: nat)
    requires Ascending(issued) && (issued != [] ==> issued[|issued| - 1] < id)
    ensures Ascending(issued + [id])
  {
    var longer := issued + [id];
    forall i, j | 0 <= i < j < |longer|
      ensures longer[i] < longer[j]
    {
      assert j == |issued| ==> issued[i] <= issued[|issued| - 1];
    }
  }

  lemma IssueIdentifies(s: System, t: System, id: nat)
    requires Identified(s) && id <= U64_MAX && (s.issued != [] ==> s.issued[|s.issued| - 1] < id)
    requires t.issued == s.issued + [id] && t.alive == s.alive + {id} && t.alive <= t.table && id in t.requests
    requires t.requests.Keys == s.requests.Keys + {id} && t.cancellers == s.cancellers && t.routers == s.routers
    ensures Identified(t)
  {
    IssuedAscends(s.issued, id);
  }

  lemma AllocateIdentifies(s: System, allocation: Allocation)
    requires Identified(s) && (allocation.Supplied? ==> allocation.id <= U64_MAX)
    ensures Identified(Allocated(s, allocation))
  {
    match Assign(HighWater(s.issued), allocation) {
      case None =>
      case Some(id) => IssueIdentifies(s, Allocated(s, allocation), id);
    }
  }

  /** What a step of a thread leaves of the identifiers. */
  ghost predicate SameNames(s: System, t: System) {
    && t.issued == s.issued && t.requests.Keys == s.requests.Keys && t.alive == s.alive && s.alive <= t.table
    && (forall u :: u in t.cancellers ==> t.cancellers[u].id in s.alive)
    && (forall u :: u in t.routers ==> t.routers[u].id in s.alive)
  }

  lemma SameNamesIdentify(s: System, t: System)
    requires Identified(s) && SameNames(s, t)
    ensures Identified(t)
  {
  }

  /** A step of cancel_state touches one canceller and one request, and not the execution of that request. */
  lemma CancelTouches(s: System, thread: nat)
    requires Enabled(s, StepCancel(thread))
    ensures var t := CancelStep(s, thread);
            var id := s.cancellers[thread].id;
            && t == s.(requests := t.requests, cancellers := t.cancellers)
            && (t.cancellers == s.cancellers - {thread}
                || (thread in t.cancellers && t.cancellers[thread].id == id
                    && t.cancellers == s.cancellers[thread := t.cancellers[thread]]))
            && id in t.requests && t.requests == s.requests[id := t.requests[id]]
            && t.requests[id].phase == s.requests[id].phase && t.requests[id].begins == s.requests[id].begins
            && (s.requests[id].flag ==> t.requests[id].flag) && s.requests[id].told <= t.requests[id].told
  {
    var t := CancelStep(s, thread);
    var id := s.cancellers[thread].id;
    assert s.requests == s.requests[id := s.requests[id]];
  }

  lemma CancelNames(s: System, thread: nat)
    requires Enabled(s, StepCancel(thread)) && Identified(s)
    ensures SameNames(s, CancelStep(s, thread))
  {
    CancelTouches(s, thread);
  }

  lemma RouteNames(s: System, thread: nat, proceed: bool)
    requires Enabled(s, StepRoute(thread, proceed)) && Identified(s)
    ensures SameNames(s, RouteStep(s, thread, proceed))
  {
  }

  lemma StartNames(s: System, a: Action)
    requires Enabled(s, a) && Identified(s)
    requires a.CancelHandle? || a.CancelById? || a.Route? || a.BeginShutdown? || a.BeginSweep? || a.EndSweep?
    ensures SameNames(s, Apply(s, a))
  {
  }

  lemma SweepNames(s: System, id: nat)
    requires Identified(s) && Enabled(s, SweepOne(id))
    ensures SameNames(s, Apply(s, SweepOne(id)))
  {
  }

  lemma DropIdentifies(s: System, id: nat)
    requires Identified(s) && Enabled(s, DropHandle(id))
    ensures Identified(s.(alive := s.alive - {id}))
  {
  }

  lemma ApplyIdentifies(s: System, a: Action)
    requires Enabled(s, a) && Identified(s)
    ensures Identified(Apply(s, a))
  {
    match a {
      case Allocate(allocation) => AllocateIdentifies(s, allocation);
      case DropHandle(id) => DropIdentifies(s, id);
      case StepCancel(thread) =>
        CancelNames(s, thread);
        SameNamesIdentify(s, CancelStep(s, thread));
      case StepRoute(thread, proceed) =>
        RouteNames(s, thread, proceed);
        SameNamesIdentify(s, RouteStep(s, thread, proceed));
      case SweepOne(id) =>
        SweepNames(s, id);
        SameNamesIdentify(s, Apply(s, a));
      case _ =>
        StartNames(s, a);
        SameNamesIdentify(s, Apply(s, a));
    }
  }

  // One execution.

  /** Steps that leave phases, begin counts, routers and the registry alone. */
  ghost predicate SameExecution(s: System, t: System) {
    && t.routers == s.routers && t.registry == s.registry
    && (forall id :: id in s.requests ==> id in t.requests && t.requests[id].phase == s.requests[id].phase
                                          && t.requests[id].begins == s.requests[id].begins)
    && (forall id :: id in t.requests && id !in s.requests ==>
          t.requests[id].phase == Created && t.requests[id].begins == 0)
  }

  lemma SameExecutionSingle(s: System, t: System)
    requires Single(s) && SameExecution(s, t)
    ensures Single(t)
  {
  }

  lemma AllocateExecution(s: System, allocation: Allocation)
    requires Identified(s)
    ensures SameExecution(s, Allocated(s, allocation))
  {
    if Assign(HighWater(s.issued), allocation).Some? {
      assert Assign(HighWater(s.issued), allocation).value !in s.issued;
    }
  }

  lemma CancelExecution(s: System, thread: nat)
    requires Enabled(s, StepCancel(thread))
    ensures SameExecution(s, CancelStep(s, thread))
  {
    CancelTouches(s, thread);
  }

  lemma SweepExecution(s: System, id: nat)
    requires Enabled(s, SweepOne(id))
    ensures SameExecution(s, Apply(s, SweepOne(id)))
  {
  }

  lemma RegistrySame(s: System, t: System, thread: nat)
    requires Single(s) && t.registry == s.registry
    requires thread in s.routers ==> !s.routers[thread].Registered?
    requires forall u :: u in s.routers && u != thread ==> u in t.routers && t.routers[u] == s.routers[u]
    ensures forall id :: id in t.registry ==> exists u :: u in t.routers && t.routers[u] == Registered(id)
  {
    forall id | id in t.registry
      ensures exists u :: u in t.routers && t.routers[u] == Registered(id)
    {
      var u :| u in s.routers && s.routers[u] == Registered(id);
      assert t.routers[u] == Registered(id);
    }
  }

  lemma RefusedSingle(s: System, thread: nat)
    requires Single(s) && thread in s.routers && s.routers[thread].Admitted?
    ensures Single(LeaveRoute(s, thread))
  {
    RegistrySame(s, LeaveRoute(s, thread), thread);
  }

  /** The exchange succeeds only while nobody works on the request. */
  lemma BeginSingle(s: System, thread: nat, id: nat, r: Request)
    requires Single(s) && thread in s.routers && s.routers[thread] == Admitted(id)
    requires id in s.requests && s.requests[id].phase == Created && r.phase == Executing && r.begins == 1
    ensures Single(GoRoute(Put(s, id, r), thread, Begun(id)))
  {
    var t := GoRoute(Put(s, id, r), thread, Begun(id));
    RegistrySame(s, t, thread);
    forall u | u in t.routers && Working(t.routers[u])
      ensures t.routers[u].id in t.requests && t.requests[t.routers[u].id].phase == Executing
      ensures u != thread ==> t.routers[u].id != id
    {
      if u != thread {
        assert Working(s.routers[u]);
      }
    }
  }

  lemma AdmittedSingle(s: System, thread: nat, proceed: bool)
    requires Single(s) && Enabled(s, StepRoute(thread, proceed)) && s.routers[thread].Admitted?
    ensures Single(RouteStep(s, thread, proceed))
  {
    var id := s.routers[thread].id;
    var r := s.requests[id];
    if r.phase == Created {
      BeginSingle(s, thread, id, r.(phase := Executing, begins := r.begins + 1));
    } else {
      RefusedSingle(s, thread);
    }
  }

  lemma BegunSingle(s: System, thread: nat, proceed: bool)
    requires Single(s) && Enabled(s, StepRoute(thread, proceed)) && s.routers[thread].Begun?
    ensures Single(RouteStep(s, thread, proceed))
  {
    var t := RouteStep(s, thread, proceed);
    forall id | id in t.registry
      ensures exists u :: u in t.routers && t.routers[u] == Registered(id)
    {
      if id in s.registry {
        var u :| u in s.routers && s.routers[u] == Registered(id);
        assert t.routers[u] == Registered(id);
      } else {
        assert t.routers[thread] == Registered(id);
      }
    }
  }

  lemma RegisteredSingle(s: System, thread: nat, proceed: bool)
    requires Single(s) && Enabled(s, StepRoute(thread, proceed)) && s.routers[thread].Registered?
    ensures Single(RouteStep(s, thread, proceed))
  {
    var t := RouteStep(s, thread, proceed);
    forall id | id in t.registry
      ensures exists u :: u in t.routers && t.routers[u] == Registered(id)
    {
      var u :| u in s.routers && s.routers[u] == Registered(id);
      assert t.routers[u] == Registered(id);
    }
  }

  lemma ReturnedSingle(s: System, thread: nat, proceed: bool)
    requires Single(s) && Enabled(s, StepRoute(thread, proceed)) && s.routers[thread].Returned?
    ensures Single(RouteStep(s, thread, proceed))
  {
    RegistrySame(s, RouteStep(s, thread, proceed), thread);
  }

  lemma StartRouteSingle(s: System, thread: nat, id: nat)
    requires Single(s) && thread !in s.routers
    ensures Single(GoRoute(s, thread, Admitted(id)))
  {
    RegistrySame(s, GoRoute(s, thread, Admitted(id)), thread);
  }

  lemma RouteSingle(s: System, thread: nat, proceed: bool)
    requires Enabled(s, StepRoute(thread, proceed)) && Identified(s) && Single(s)
    ensures Single(RouteStep(s, thread, proceed))
  {
    match s.routers[thread] {
      case Admitted(_) => AdmittedSingle(s, thread, proceed);
      case Begun(_) => BegunSingle(s, thread, proceed);
      case Registered(_) => RegisteredSingle(s, thread, proceed);
      case Returned(_) => ReturnedSingle(s, thread, proceed);
    }
  }

  lemma ApplySingle(s: System, a: Action)
    requires Enabled(s, a) && Identified(s) && Single(s)
    ensures Single(Apply(s, a))
  {
    match a {
      case Allocate(allocation) =>
        AllocateExecution(s, allocation);
        SameExecutionSingle(s, Apply(s, a));
      case Route(thread, id) =>
        if !s.shuttingDown {
          StartRouteSingle(s, thread, id);
        }
      case StepRoute(thread, proceed) => RouteSingle(s, thread, proceed);
      case StepCancel(thread) =>
        CancelExecution(s, thread);
        SameExecutionSingle(s, Apply(s, a));
      case SweepOne(id) =>
        SweepExecution(s, id);
        SameExecutionSingle(s, Apply(s, a));
      case _ =>
        SameExecutionSingle(s, Apply(s, a));
    }
  }

  // Sweeping.

  lemma CancelSweeps(s: System, thread: nat)
    requires Enabled(s, StepCancel(thread)) && Sweeping(s)
    ensures Sweeping(CancelStep(s, thread))
  {
    CancelTouches(s, thread);
  }

  lemma RouteSweeps(s: System, thread: nat, proceed: bool)
    requires Enabled(s, StepRoute(thread, proceed)) && Sweeping(s)
    ensures Sweeping(RouteStep(s, thread, proceed))
  {
  }

  lemma AllocateSweeps(s: System, allocation: Allocation)
    requires Sweeping(s) && Identified(s)
    ensures Sweeping(Allocated(s, allocation))
  {
    if Assign(HighWater(s.issued), allocation).Some? {
      assert Assign(HighWater(s.issued), allocation).value !in s.issued;
    }
  }

  lemma ApplySweeps(s: System, a: Action)
    requires Enabled(s, a) && Identified(s) && Sweeping(s)
    ensures Sweeping(Apply(s, a))
  {
    match a {
      case Allocate(allocation) => AllocateSweeps(s, allocation);
      case StepCancel(thread) => CancelSweeps(s, thread);
      case StepRoute(thread, proceed) => RouteSweeps(s, thread, proceed);
      case _ =>
    }
  }

  lemma OnlyAllocateIssues(s: System, a: Action)
    requires Enabled(s, a) && !a.Allocate?
    ensures Apply(s, a).issued == s.issued
  {
  }

  /** Every atomic access of every thread keeps the protocol's invariant. */
  lemma ApplyKeeps(s: System, a: Action)
    requires Enabled(s, a) && Invariant(s)
    ensures Invariant(Apply(s, a))
  {
    ApplyIdentifies(s, a);
    ApplySingle(s, a);
    ApplySweeps(s, a);
    forall id | id in Apply(s, a).requests
      ensures WonOnce(Apply(s, a), id)
    {
      if a.Allocate? {
        FreshIsUnwon(s, a.allocation, id);
      } else {
        OnlyAllocateIssues(s, a);
        assert id in s.issued;
        ApplyWinsOnce(s, a, id);
      }
    }
  }

  lemma InitialHolds(s: System)
    requires s.issued == [] && s.requests == map[] && s.alive == {} && s.registry == {}
    requires s.cancellers == map[] && s.routers == map[] && s.sweep == None
    ensures Invariant(s)
  {
  }
}
