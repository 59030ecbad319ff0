/**
  Runs of the device topology cache: any threads, in any order, from the empty cache, and
  what holds in every state of every run.
 */
module CacheRuns {
  import opened TopologyCache

  ghost predicate StepAt(cfg: Config, states: seq<System>, i: nat) {
    i + 1 < |states| ==> exists a :: Enabled(cfg, states[i], a) && states[i + 1] == Apply(cfg, states[i], a)
  }

  /** A run: the empty cache followed by locked sections of any threads in any order. */
  ghost predicate Run(cfg: Config, states: seq<System>) {
    states != [] && states[0] == Empty && forall i: nat :: StepAt(cfg, states, i)
  }

  lemma EmptyHolds(cfg: Config, s: System)
    requires s.cache.entries == map[] && s.cache.bytes == 0 && s.cache.high == 0
    requires s.loaders == map[] && s.evictors == map[] && s.leases == map[]
    ensures Invariant(cfg, s)
  {
  }

  lemma RunStart(cfg: Config, states: seq<System>)
    requires Run(cfg, states)
    ensures Invariant(cfg, states[0])
  {
    EmptyHolds(cfg, states[0]);
  }

  lemma RunStep(cfg: Config, states: seq<System>, i: nat)
    requires cfg.Valid() && Run(cfg, states) && i + 1 < |states| && Invariant(cfg, states[i])
    ensures Invariant(cfg, states[i + 1])
  {
    assert StepAt(cfg, states, i);
    var a :| Enabled(cfg, states[i], a) && states[i + 1] == Apply(cfg, states[i], a);
    ApplyKeeps(cfg, states[i], a);
  }

  /** The induction, with the invariant kept under a quantifier. */
  lemma {:induction false} HoldsAt(cfg: Config, states: seq<System>, i: nat)
    requires cfg.Valid() && Run(cfg, states) && i < |states|
    ensures forall k: nat :: k == i ==> Invariant(cfg, states[k])
  {
    if i == 0 {
      RunStart(cfg, states);
    } else {
      HoldsAt(cfg, states, i - 1);
      RunStep(cfg, states, i - 1);
    }
  }

  /** Accounting, ownership and leases hold in every state of every run. */
  lemma RunKeeps(cfg: Config, states: seq<System>, i: nat)
    requires cfg.Valid() && Run(cfg, states) && i < |states|
    ensures Invariant(cfg, states[i])
  {
    HoldsAt(cfg, states, i);
  }

  /** Byte and slot accounting over all runs. */
  lemma AccountingHolds(cfg: Config, states: seq<System>, i: nat)
    requires cfg.Valid() && Run(cfg, states) && i < |states|
    ensures states[i].cache.bytes == TrackedBytes(states[i].cache.entries) <= cfg.maximumBytes
    ensures |states[i].cache.entries| <= cfg.maximumSlots
  {
    RunKeeps(cfg, states, i);
  }

  /** Lease safety: a live lease can always record its completion, and the user count is the number of live leases. */
  lemma LeaseIsSafe(cfg: Config, states: seq<System>, i: nat, lease: nat, event: nat)
    requires cfg.Valid() && Run(cfg, states) && i < |states| && lease in states[i].leases
    ensures Recorded(states[i].cache, states[i].leases[lease], event).0
    ensures LeaseHolds(states[i].cache, states[i].leases[lease])
    ensures states[i].cache.entries[states[i].leases[lease].id].users
            == |LeasesOf(states[i].leases, states[i].leases[lease].id)|
  {
    RunKeeps(cfg, states, i);
    assert LeaseHolds(states[i].cache, states[i].leases[lease]);
  }

  /** An entry under a live lease or a pending event is never chosen for eviction. */
  lemma NoEvictionInUse(cfg: Config, states: seq<System>, i: nat, a: Action)
    requires cfg.Valid() && Run(cfg, states) && i < |states| && a.Evict? && Enabled(cfg, states[i], a)
    ensures forall l :: l in states[i].leases ==> states[i].leases[l].id != a.victim
    ensures states[i].cache.entries[a.victim].events <= a.done
  {
    RunKeeps(cfg, states, i);
    var s := states[i];
    assert s.cache.entries[a.victim].events - a.done == {};
    assert forall e :: e in s.cache.entries[a.victim].events && e !in a.done ==>
        e in s.cache.entries[a.victim].events - a.done;
    forall l | l in s.leases
      ensures s.leases[l].id != a.victim
    {
      assert l in LeasesOf(s.leases, s.leases[l].id);
    }
  }

  /** Until poison, a loader finds its own reservation again at both of its later sections. */
  lemma ReservationIsKept(cfg: Config, states: seq<System>, i: nat, thread: nat, partition: Loaded)
    requires cfg.Valid() && Run(cfg, states) && i < |states| && thread in states[i].loaders
    requires !states[i].cache.poisoned
    ensures !states[i].loaders[thread].copying ==> CopyBegun(states[i].cache, states[i].loaders[thread]).0
    ensures states[i].loaders[thread].copying ==> CopyFinished(states[i].cache, states[i].loaders[thread], partition).0
  {
    RunKeeps(cfg, states, i);
  }

  lemma PoisonStep(cfg: Config, s: System, a: Action)
    requires Enabled(cfg, s, a) && s.cache.poisoned
    ensures Apply(cfg, s, a).cache.poisoned
    ensures forall l :: l in Apply(cfg, s, a).leases ==> l in s.leases && Apply(cfg, s, a).leases[l] == s.leases[l]
  {
  }

  /** Once poisoned, the cache stays poisoned, holds no reservation, and grants no lease. */
  lemma {:induction false} PoisonIsFinal(cfg: Config, states: seq<System>, i: nat, j: nat)
    requires cfg.Valid() && Run(cfg, states) && i <= j < |states| && states[i].cache.poisoned
    ensures states[j].cache.poisoned
    ensures forall id :: id in states[j].cache.entries ==> !Loading(states[j].cache.entries[id])
    ensures forall l :: l in states[j].leases ==> l in states[i].leases && states[j].leases[l] == states[i].leases[l]
    decreases j - i
  {
    RunKeeps(cfg, states, j);
    if i < j {
      PoisonIsFinal(cfg, states, i, j - 1);
      assert StepAt(cfg, states, j - 1);
      var a :| Enabled(cfg, states[j - 1], a) && states[j] == Apply(cfg, states[j - 1], a);
      PoisonStep(cfg, states[j - 1], a);
    }
  }

  // Pending events.

  /** The events a section is told have completed. */
  function DoneIn(a: Action): set<nat> {
    match a
    case Hit(_, _, done) => done
    case Reserve(_, _, _, done) => done
    case Evict(_, _, _, done, _) => done
    case Defer(_, _, done) => done
    case Observe(done) => done
    case _ => {}
  }

  /** The step out of state k may have been told that the event has completed. */
  ghost predicate Completes(cfg: Config, states: seq<System>, k: nat, event: nat) {
    k + 1 < |states|
    && exists a :: Enabled(cfg, states[k], a) && states[k + 1] == Apply(cfg, states[k], a) && event in DoneIn(a)
  }

  predicate Awaits(c: Cache, id: nat, event: nat) {
    id in c.entries && c.entries[id].Ready? && event in c.entries[id].events
  }

  lemma PendingStep(cfg: Config, s: System, a: Action, id: nat, event: nat)
    requires Enabled(cfg, s, a) && Awaits(s.cache, id, event) && event !in DoneIn(a)
    ensures Awaits(Apply(cfg, s, a).cache, id, event)
  {
    assert a.Evict? ==> event in s.cache.entries[id].events - a.done;
  }

  /** An entry keeps an event, and its place in the cache, until a section is told that the event has completed. */
  lemma {:induction false} EventStaysPending(cfg: Config, states: seq<System>, i: nat, j: nat, id: nat, event: nat)
    requires Run(cfg, states) && i <= j < |states| && Awaits(states[i].cache, id, event)
    requires forall k: nat :: i <= k < j ==> !Completes(cfg, states, k, event)
    ensures Awaits(states[j].cache, id, event)
    decreases j - i
  {
    if i < j {
      EventStaysPending(cfg, states, i, j - 1, id, event);
      assert StepAt(cfg, states, j - 1) && !Completes(cfg, states, j - 1, event);
      var a :| Enabled(cfg, states[j - 1], a) && states[j] == Apply(cfg, states[j - 1], a);
      PendingStep(cfg, states[j - 1], a, id, event);
    }
  }

  // What the stamps mean: use in the run.

  /** From s to t a lease on the entry is granted, by a hit or by publishing a copy. */
  ghost predicate Grants(s: System, t: System, id: nat) {
    exists l :: l in t.leases && l !in s.leases && t.leases[l].id == id
  }

  /** The step into state j grants a lease on the entry. */
  ghost predicate GrantedAt(states: seq<System>, j: nat, id: nat) {
    0 < j < |states| && Grants(states[j - 1], states[j], id)
  }

  /** Up to state i, the last lease on the entry is the one granted in reaching state j. */
  ghost predicate LastGrant(states: seq<System>, i: nat, j: nat, id: nat) {
    && j <= i && GrantedAt(states, j, id)
    && (forall k: nat :: j < k <= i ==> !GrantedAt(states, k, id))
  }

  /** What a step does to the stamp of a ready entry. */
  ghost predicate Stamped(s: System, t: System, id: nat) {
    && s.cache.tick <= t.cache.tick
    && (id in t.cache.entries && t.cache.entries[id].Ready? ==>
          if Grants(s, t, id) then t.cache.entries[id].lastUse == t.cache.tick
          else id in s.cache.entries && s.cache.entries[id].Ready?
               && s.cache.entries[id].lastUse == t.cache.entries[id].lastUse)
  }

  lemma HitStamps(cfg: Config, s: System, a: Action, id: nat)
    requires a.Hit? && Enabled(cfg, s, a)
    ensures Stamped(s, Apply(cfg, s, a), id)
  {
    var t := Apply(cfg, s, a);
    assert t.leases[a.lease].id == a.id && a.lease !in s.leases;
  }

  lemma PublishStamps(cfg: Config, s: System, a: Action, id: nat)
    requires a.FinishCopy? && Enabled(cfg, s, a)
    ensures Stamped(s, Apply(cfg, s, a), id)
  {
    var t := Apply(cfg, s, a);
    var l := s.loaders[a.thread];
    if CopyFinished(s.cache, l, Loaded(a.identity, l.bytes)).0 {
      assert t.leases[a.lease].id == l.id && a.lease !in s.leases;
    }
  }

  /** Every other step grants nothing and leaves the stamps of the entries that stay ready. */
  lemma OtherStamps(cfg: Config, s: System, a: Action, id: nat)
    requires !a.Hit? && !a.FinishCopy? && Enabled(cfg, s, a)
    ensures Stamped(s, Apply(cfg, s, a), id)
  {
    var t := Apply(cfg, s, a);
    assert forall l :: l in t.leases ==> l in s.leases;
  }

  lemma StampStep(cfg: Config, s: System, a: Action, id: nat)
    requires Enabled(cfg, s, a)
    ensures Stamped(s, Apply(cfg, s, a), id)
  {
    if a.Hit? {
      HitStamps(cfg, s, a, id);
    } else if a.FinishCopy? {
      PublishStamps(cfg, s, a, id);
    } else {
      OtherStamps(cfg, s, a, id);
    }
  }

  lemma StampStepAt(cfg: Config, states: seq<System>, i: nat, id: nat)
    requires Run(cfg, states) && i + 1 < |states|
    ensures Stamped(states[i], states[i + 1], id)
  {
    assert StepAt(cfg, states, i);
    var a :| Enabled(cfg, states[i], a) && states[i + 1] == Apply(cfg, states[i], a);
    StampStep(cfg, states[i], a, id);
  }

  lemma {:induction false} TicksRise(cfg: Config, states: seq<System>, i: nat, j: nat)
    requires Run(cfg, states) && i <= j < |states|
    ensures states[i].cache.tick <= states[j].cache.tick
    decreases j - i
  {
    if i < j {
      TicksRise(cfg, states, i, j - 1);
      StampStepAt(cfg, states, j - 1, 0);
    }
  }

  /** In every state, the stamp of a ready entry is the tick at which its last lease so far was granted. */
  lemma {:induction false} StampIsLastGrant(cfg: Config, states: seq<System>, i: nat, id: nat) returns (j: nat)
    requires Run(cfg, states) && i < |states|
    requires id in states[i].cache.entries && states[i].cache.entries[id].Ready?
    ensures LastGrant(states, i, j, id) && states[j].cache.tick == states[i].cache.entries[id].lastUse
  {
    assert i > 0;
    StampStepAt(cfg, states, i - 1, id);
    if Grants(states[i - 1], states[i], id) {
      j := i;
    } else {
      j := StampIsLastGrant(cfg, states, i - 1, id);
      assert !GrantedAt(states, i, id);
    }
  }

  lemma LastGrantIsUnique(states: seq<System>, i: nat, j: nat, k: nat, id: nat)
    requires LastGrant(states, i, j, id) && LastGrant(states, i, k, id)
    ensures j == k
  {
  }

  /** The last lease on a precedes the last one on b; two granted at the same tick are in the order of their entries. */
  ghost predicate UsedBefore(states: seq<System>, i: nat, a: nat, b: nat) {
    forall j: nat, k: nat :: LastGrant(states, i, j, a) && LastGrant(states, i, k, b) ==>
      j < k || (states[j].cache.tick == states[k].cache.tick && a <= b)
  }

  predicate StampedBefore(c: Cache, a: nat, b: nat) {
    && a in c.entries && c.entries[a].Ready? && b in c.entries && c.entries[b].Ready?
    && (c.entries[a].lastUse < c.entries[b].lastUse || (c.entries[a].lastUse == c.entries[b].lastUse && a <= b))
  }

  /** The stamp of an entry is the tick of its last lease. */
  lemma StampOfGrant(cfg: Config, states: seq<System>, i: nat, j: nat, id: nat)
    requires Run(cfg, states) && i < |states| && LastGrant(states, i, j, id)
    requires id in states[i].cache.entries && states[i].cache.entries[id].Ready?
    ensures states[j].cache.tick == states[i].cache.entries[id].lastUse
  {
    var k := StampIsLastGrant(cfg, states, i, id);
    LastGrantIsUnique(states, i, j, k, id);
  }

  lemma GrantsInOrder(cfg: Config, states: seq<System>, i: nat, a: nat, b: nat, j: nat, k: nat)
    requires Run(cfg, states) && i < |states| && StampedBefore(states[i].cache, a, b)
    requires LastGrant(states, i, j, a) && LastGrant(states, i, k, b)
    ensures j < k || (states[j].cache.tick == states[k].cache.tick && a <= b)
  {
    StampOfGrant(cfg, states, i, j, a);
    StampOfGrant(cfg, states, i, k, b);
    if k <= j {
      TicksRise(cfg, states, k, j);
    }
  }

  /** The order of the stamps is the order of use. */
  lemma StampsOrderUse(cfg: Config, states: seq<System>, i: nat, a: nat, b: nat)
    requires Run(cfg, states) && i < |states| && StampedBefore(states[i].cache, a, b)
    ensures UsedBefore(states, i, a, b)
  {
    forall j: nat, k: nat | LastGrant(states, i, j, a) && LastGrant(states, i, k, b)
      ensures j < k || (states[j].cache.tick == states[k].cache.tick && a <= b)
    {
      GrantsInOrder(cfg, states, i, a, b, j, k);
    }
  }

  /** A cache with an entry has ticked, and every stamp is a tick. */
  ghost predicate HasTicked(c: Cache) {
    && (c.entries != map[] ==> c.tick > 0)
    && (forall id :: id in c.entries && c.entries[id].Ready? ==> c.entries[id].lastUse > 0)
  }

  lemma {:induction false} StampsArePositive(cfg: Config, states: seq<System>, i: nat)
    requires Run(cfg, states) && i < |states|
    ensures HasTicked(states[i].cache)
  {
    if i > 0 {
      StampsArePositive(cfg, states, i - 1);
      assert StepAt(cfg, states, i - 1);
      var a :| Enabled(cfg, states[i - 1], a) && states[i] == Apply(cfg, states[i - 1], a);
      EntriesNeedTicks(cfg, states[i - 1], a);
      forall id | id in states[i].cache.entries && states[i].cache.entries[id].Ready?
        ensures states[i].cache.entries[id].lastUse > 0
      {
        StampStep(cfg, states[i - 1], a, id);
      }
    }
  }

  lemma EntriesNeedTicks(cfg: Config, s: System, a: Action)
    requires Enabled(cfg, s, a) && (s.cache.entries != map[] ==> s.cache.tick > 0)
    ensures Apply(cfg, s, a).cache.entries != map[] ==> Apply(cfg, s, a).cache.tick > 0
  {
  }

  // The high-water mark.

  ghost predicate HighKept(c: Cache, d: Cache) {
    c.high <= d.high && d.bytes <= d.high && (d.high == c.high || d.high == d.bytes)
  }

  /** Only a reservation adds bytes. */
  lemma ReserveKeepsHigh(cfg: Config, s: System, a: Action)
    requires a.Reserve? && Enabled(cfg, s, a) && s.cache.bytes <= s.cache.high
    ensures HighKept(s.cache, Apply(cfg, s, a).cache)
  {
  }

  lemma OthersKeepHigh(cfg: Config, s: System, a: Action)
    requires !a.Reserve? && Enabled(cfg, s, a) && s.cache.bytes <= s.cache.high
    ensures Apply(cfg, s, a).cache.high == s.cache.high && Apply(cfg, s, a).cache.bytes <= s.cache.bytes
  {
  }

  lemma HighStep(cfg: Config, states: seq<System>, i: nat)
    requires Run(cfg, states) && i + 1 < |states| && states[i].cache.bytes <= states[i].cache.high
    ensures HighKept(states[i].cache, states[i + 1].cache)
  {
    assert StepAt(cfg, states, i);
    var a :| Enabled(cfg, states[i], a) && states[i + 1] == Apply(cfg, states[i], a);
    if a.Reserve? {
      ReserveKeepsHigh(cfg, states[i], a);
    } else {
      OthersKeepHigh(cfg, states[i], a);
    }
  }

  /** The high-water mark is the most bytes tracked in any state so far. */
  lemma {:induction false} HighIsPeak(cfg: Config, states: seq<System>, i: nat)
    requires Run(cfg, states) && i < |states|
    ensures forall j :: 0 <= j <= i ==> states[j].cache.bytes <= states[i].cache.high
    ensures exists j :: 0 <= j <= i && states[j].cache.bytes == states[i].cache.high
  {
    if i == 0 {
      assert states[0].cache.bytes == states[0].cache.high;
    } else {
      HighIsPeak(cfg, states, i - 1);
      HighStep(cfg, states, i - 1);
      var j :| 0 <= j <= i - 1 && states[j].cache.bytes == states[i - 1].cache.high;
      if states[i].cache.high == states[i - 1].cache.high {
        assert states[j].cache.bytes == states[i].cache.high;
      } else {
        assert states[i].cache.bytes == states[i].cache.high;
      }
    }
  }
}
