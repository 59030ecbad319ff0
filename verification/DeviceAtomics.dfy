/**
  The compare-and-swap retry loops on shared device words, as any number of concurrent
  calls stepped in any order with spurious failures: the distance minimum and the
  checked counter addition.
 */
module DeviceAtomics {

  /** A call: not yet loaded, retrying against an observed value, or returned. */
  datatype Call = Fresh(operand: nat) | Trying(operand: nat, current: nat) | Returned(operand: nat, success: bool)

  /** One scheduled step of a call; a weak exchange may also fail spuriously. */
  datatype Event = Event(call: nat, spurious: bool)

  datatype Slot = Slot(word: nat, calls: seq<Call>, drops: nat)

  /** The next step of a distance_min call: load, give up, or attempt the exchange. */
  function MinStep(s: Slot, e: Event): Slot
    requires e.call < |s.calls|
  {
    match s.calls[e.call]
    case Fresh(x) => s.(calls := s.calls[e.call := Trying(x, s.word)])
    case Returned(_, _) => s
    case Trying(x, current) =>
      if x >= current then
        s.(calls := s.calls[e.call := Returned(x, false)])
      else if s.word == current && !e.spurious then
        Slot(x, s.calls[e.call := Returned(x, true)], s.drops + 1)
      else
        s.(calls := s.calls[e.call := Trying(x, s.word)])
  }

  ghost predicate ValidEvents(calls: nat, events: seq<Event>) {
    forall i :: 0 <= i < |events| ==> events[i].call < calls
  }

  function FreshCalls(operands: seq<nat>): (r: seq<Call>)
    ensures |r| == |operands| && forall i :: 0 <= i < |r| ==> r[i] == Fresh(operands[i])
  {
    seq(|operands|, i requires 0 <= i < |operands| => Fresh(operands[i]))
  }

  ghost function MinRun(start: nat, operands: seq<nat>, events: seq<Event>): (s: Slot)
    requires ValidEvents(|operands|, events)
    ensures |s.calls| == |operands|
  {
    if events == [] then Slot(start, FreshCalls(operands), 0)
    else MinStep(MinRun(start, operands, events[..|events| - 1]), events[|events| - 1])
  }

  function Successes(calls: seq<Call>): nat {
    if calls == [] then 0
    else Successes(calls[..|calls| - 1])
         + (if calls[|calls| - 1].Returned? && calls[|calls| - 1].success then 1 else 0)
  }

  ghost predicate CallInvariant(word: nat, operand: nat, call: Call) {
    && call.operand == operand
    && (call.Trying? ==> word <= call.current)
    && (call.Returned? ==> word <= operand)
  }

  /** x is the operand of a call that has reported success. */
  ghost predicate Installed(s: Slot, operands: seq<nat>)
    requires |s.calls| == |operands|
  {
    exists i :: 0 <= i < |operands| && s.calls[i] == Returned(operands[i], true) && s.word == operands[i]
  }

  ghost predicate MinInvariant(start: nat, operands: seq<nat>, s: Slot) {
    && |s.calls| == |operands|
    && s.word <= start
    && (forall i :: 0 <= i < |operands| ==> CallInvariant(s.word, operands[i], s.calls[i]))
    && (s.word == start || Installed(s, operands))
    && Successes(s.calls) == s.drops
  }

  lemma {:induction false} SuccessesAfter(calls: seq<Call>, t: nat, call: Call)
    requires t < |calls| && !(calls[t].Returned? && calls[t].success)
    ensures Successes(calls[t := call]) == Successes(calls) + if call.Returned? && call.success then 1 else 0
  {
    var n := |calls| - 1;
    if t < n {
      SuccessesAfter(calls[..n], t, call);
      assert calls[t := call][..n] == calls[..n][t := call];
    } else {
      assert calls[t := call][..n] == calls[..n];
    }
  }

  lemma {:induction false} NoSuccessesYet(operands: seq<nat>)
    ensures Successes(FreshCalls(operands)) == 0
  {
    if operands != [] {
      var n := |operands| - 1;
      NoSuccessesYet(operands[..n]);
      assert FreshCalls(operands)[..n] == FreshCalls(operands[..n]);
    }
  }

  lemma MinStepKeeps(start: nat, operands: seq<nat>, s: Slot, e: Event)
    requires MinInvariant(start, operands, s) && e.call < |operands|
    ensures MinInvariant(start, operands, MinStep(s, e))
  {
    var s' := MinStep(s, e);
    assert CallInvariant(s.word, operands[e.call], s.calls[e.call]);
    if !s.calls[e.call].Returned? {
      SuccessesAfter(s.calls, e.call, s'.calls[e.call]);
    }
    forall i | 0 <= i < |operands|
      ensures CallInvariant(s'.word, operands[i], s'.calls[i])
    {
      assert CallInvariant(s.word, operands[i], s.calls[i]);
    }
    if s'.word != s.word {
      assert s'.calls[e.call] == Returned(operands[e.call], true);
    } else if s.word != start {
      var i :| 0 <= i < |operands| && s.calls[i] == Returned(operands[i], true) && s.word == operands[i];
      assert s'.calls[i] == Returned(operands[i], true);
    }
  }

  lemma {:induction false} MinRunKeeps(start: nat, operands: seq<nat>, events: seq<Event>)
    requires ValidEvents(|operands|, events)
    ensures MinInvariant(start, operands, MinRun(start, operands, events))
  {
    if events == [] {
      NoSuccessesYet(operands);
    } else {
      MinRunKeeps(start, operands, events[..|events| - 1]);
      MinStepKeeps(start, operands, MinRun(start, operands, events[..|events| - 1]), events[|events| - 1]);
    }
  }

  /**
    When every call has returned, the word is the minimum of its start value and all operands,
    and as many calls report success as there were strict decreases, for every interleaving
    and every pattern of spurious failures.
   */
  lemma ConcurrentMinimum(start: nat, operands: seq<nat>, events: seq<Event>)
    requires ValidEvents(|operands|, events)
    requires forall i :: 0 <= i < |operands| ==> MinRun(start, operands, events).calls[i].Returned?
    ensures var s := MinRun(start, operands, events);
            && s.word <= start && (forall i :: 0 <= i < |operands| ==> s.word <= operands[i])
            && (s.word == start || s.word in operands)
            && Successes(s.calls) == s.drops
  {
    MinRunKeeps(start, operands, events);
    var s := MinRun(start, operands, events);
    forall i | 0 <= i < |operands|
      ensures s.word <= operands[i]
    {
      assert CallInvariant(s.word, operands[i], s.calls[i]);
    }
  }

  /**
    Refinement: a step that returns acts as one atomic minimum and reports whether it lowered the
    word; every other step leaves the word alone; and a step that lowers the word is counted.
   */
  lemma StepRefinesAtomicMinimum(start: nat, operands: seq<nat>, events: seq<Event>, e: Event)
    requires ValidEvents(|operands|, events) && e.call < |operands|
    requires !MinRun(start, operands, events).calls[e.call].Returned?
    ensures var s := MinRun(start, operands, events);
            var s' := MinStep(s, e);
            var x := operands[e.call];
            && (s'.calls[e.call].Returned? ==>
                  && s'.word == (if x < s.word then x else s.word)
                  && (s'.calls[e.call].success <==> x < s.word))
            && (!s'.calls[e.call].Returned? ==> s'.word == s.word)
            && s'.drops == s.drops + (if s'.word < s.word then 1 else 0)
  {
    MinRunKeeps(start, operands, events);
    var s := MinRun(start, operands, events);
    assert CallInvariant(s.word, operands[e.call], s.calls[e.call]);
  }

  const WORD_LIMIT: nat := 0x1_0000_0000_0000_0000

  datatype Counter = Counter(word: nat, calls: seq<Call>, overflowed: bool)

  /** The next step of a checked counter addition. */
  function AddStep(s: Counter, e: Event): Counter
    requires e.call < |s.calls|
  {
    match s.calls[e.call]
    case Fresh(x) =>
      if x == 0 then s.(calls := s.calls[e.call := Returned(x, true)])
      else s.(calls := s.calls[e.call := Trying(x, s.word)])
    case Returned(_, _) => s
    case Trying(x, current) =>
      if current + x >= WORD_LIMIT then
        s.(calls := s.calls[e.call := Returned(x, false)], overflowed := true)
      else if s.word == current && !e.spurious then
        s.(word := current + x, calls := s.calls[e.call := Returned(x, true)])
      else
        s.(calls := s.calls[e.call := Trying(x, s.word)])
  }

  ghost function AddRun(start: nat, operands: seq<nat>, events: seq<Event>): (s: Counter)
    requires ValidEvents(|operands|, events)
    ensures |s.calls| == |operands|
  {
    if events == [] then Counter(start, FreshCalls(operands), false)
    else AddStep(AddRun(start, operands, events[..|events| - 1]), events[|events| - 1])
  }

  /** The sum of the operands of the calls that reported success. */
  function Added(calls: seq<Call>): nat {
    if calls == [] then 0
    else Added(calls[..|calls| - 1])
         + (if calls[|calls| - 1].Returned? && calls[|calls| - 1].success then calls[|calls| - 1].operand else 0)
  }

  function Total(operands: seq<nat>): nat {
    if operands == [] then 0 else Total(operands[..|operands| - 1]) + operands[|operands| - 1]
  }

  lemma {:induction false} AddedAfter(calls: seq<Call>, t: nat, call: Call)
    requires t < |calls| && !calls[t].Returned?
    ensures Added(calls[t := call]) == Added(calls) + if call.Returned? && call.success then call.operand else 0
  {
    var n := |calls| - 1;
    if t < n {
      AddedAfter(calls[..n], t, call);
      assert calls[t := call][..n] == calls[..n][t := call];
    } else {
      assert calls[t := call][..n] == calls[..n];
    }
  }

  lemma {:induction false} NothingAddedYet(operands: seq<nat>)
    ensures Added(FreshCalls(operands)) == 0
  {
    if operands != [] {
      var n := |operands| - 1;
      NothingAddedYet(operands[..n]);
      assert FreshCalls(operands)[..n] == FreshCalls(operands[..n]);
    }
  }

  ghost predicate AddInvariant(start: nat, operands: seq<nat>, s: Counter) {
    && |s.calls| == |operands|
    && s.word == start + Added(s.calls) < WORD_LIMIT
    && (forall i :: 0 <= i < |operands| ==> s.calls[i].operand == operands[i])
    && (forall i :: 0 <= i < |operands| && s.calls[i].Returned? && !s.calls[i].success ==> s.overflowed)
  }

  lemma AddStepKeeps(start: nat, operands: seq<nat>, s: Counter, e: Event)
    requires AddInvariant(start, operands, s) && e.call < |operands|
    ensures AddInvariant(start, operands, AddStep(s, e))
  {
    if !s.calls[e.call].Returned? {
      AddedAfter(s.calls, e.call, AddStep(s, e).calls[e.call]);
    }
  }

  lemma {:induction false} AddRunKeeps(start: nat, operands: seq<nat>, events: seq<Event>)
    requires start < WORD_LIMIT && ValidEvents(|operands|, events)
    ensures AddInvariant(start, operands, AddRun(start, operands, events))
  {
    if events == [] {
      NothingAddedYet(operands);
    } else {
      AddRunKeeps(start, operands, events[..|events| - 1]);
      AddStepKeeps(start, operands, AddRun(start, operands, events[..|events| - 1]), events[|events| - 1]);
    }
  }

  lemma {:induction false} AllAdded(calls: seq<Call>, operands: seq<nat>)
    requires |calls| == |operands|
    requires forall i :: 0 <= i < |calls| ==> calls[i] == Returned(operands[i], true)
    ensures Added(calls) == Total(operands)
  {
    if calls != [] {
      AllAdded(calls[..|calls| - 1], operands[..|operands| - 1]);
    }
  }

  /** When every addition has returned, the counter holds the whole sum or the overflow status is set. */
  lemma ConcurrentSum(start: nat, operands: seq<nat>, events: seq<Event>)
    requires start < WORD_LIMIT && ValidEvents(|operands|, events)
    requires forall i :: 0 <= i < |operands| ==> AddRun(start, operands, events).calls[i].Returned?
    ensures var s := AddRun(start, operands, events);
            s.overflowed || s.word == start + Total(operands) < WORD_LIMIT
  {
    AddRunKeeps(start, operands, events);
    var s := AddRun(start, operands, events);
    if !s.overflowed {
      AllAdded(s.calls, operands);
    }
  }
}
