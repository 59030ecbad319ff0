/**
  The cache object behind its mutex: each method is one locked section, with the eviction
  search and the poison sweep as the loops they are. The object records the run of the
  protocol it takes part in, so everything proved of runs holds of it: a section that
  comes back to a reservation, an eviction or a lease finds it as it was left, whatever
  the other threads did while the lock was free.
 */
module DeviceCache {
  import opened Basics
  import opened TopologyCache
  import opened CacheRuns

  datatype Decision = Available | EvictVictim(victim: nat) | Wait

  /** How the locked section of acquire ends. */
  datatype Outcome =
    | Refused
    | Leased(partition: Loaded)
    | FailureTaken
    | Waiting
    | SlotReserved
    | EvictionStarted(victim: nat)
    | Deferred

  /** A candidate for removal, as the eviction search filters them. */
  predicate Removable(e: Entry) {
    Idle(e) || e.Failed?
  }

  /** The search key: failed entries first, then least recently used, ties by id. */
  function LastUse(e: Entry): nat {
    if e.Ready? then e.lastUse else 0
  }

  predicate NoLater(entries: map<nat, Entry>, a: nat, b: nat)
    requires a in entries && b in entries
  {
    LastUse(entries[a]) < LastUse(entries[b]) || (LastUse(entries[a]) == LastUse(entries[b]) && a <= b)
  }

  predicate NoneRemovable(entries: map<nat, Entry>) {
    forall id :: id in entries ==> !Removable(entries[id])
  }

  predicate LeastRemovable(entries: map<nat, Entry>, victim: nat) {
    && victim in entries && Removable(entries[victim])
    && (forall id :: id in entries && Removable(entries[id]) ==> NoLater(entries, victim, id))
  }

  /** The removable entry with the least key. */
  method FindVictim(entries: map<nat, Entry>) returns (victim: Option<nat>)
    ensures if victim == None then NoneRemovable(entries) else LeastRemovable(entries, victim.value)
  {
    victim := None;
    var rest := entries.Keys;
    while rest != {}
      invariant rest <= entries.Keys
      invariant victim == None <==> forall id :: id in entries && id !in rest ==> !Removable(entries[id])
      invariant victim.Some? ==> victim.value in entries && Removable(entries[victim.value])
      invariant victim.Some? ==>
                  forall id :: id in entries && id !in rest && Removable(entries[id]) ==> NoLater(entries, victim.value, id)
      decreases |rest|
    {
      var id :| id in rest;
      rest := rest - {id};
      if Removable(entries[id]) && (victim == None || !NoLater(entries, victim.value, id)) {
        victim := Some(id);
      }
    }
  }

  /** One turn of prepare_slot: the decision carried out, or one failed entry dropped before looking again. */
  method Choose(cfg: Config, entries: map<nat, Entry>, bytes: nat, required: nat)
    returns (choice: Option<Decision>, id: nat, after: map<nat, Entry>, left: nat)
    ensures choice.Some? ==> Decided(cfg, entries, bytes, required, choice.value, after, left)
    ensures choice.None? ==> id in entries && entries[id].Failed? && after == entries - {id} && left == bytes
  {
    id, after, left := 0, entries, bytes;
    if |entries| < cfg.maximumSlots && bytes + required <= cfg.maximumBytes {
      return Some(Available), id, after, left;
    }
    var victim := FindVictim(entries);
    if victim == None {
      return Some(Wait), id, after, left;
    }
    id := victim.value;
    if entries[id].Failed? {
      return None, id, entries - {id}, left;
    }
    var freed := entries[id].partition.bytes;
    after := entries[id := Evicting];
    left := SaturatingSub(bytes, freed);
    choice := Some(EvictVictim(id));
  }

  /** The entries at the head of the search loop: untouched, or swept and one failed entry fewer. */
  ghost predicate BetweenSweeps(was: map<nat, Entry>, entries: map<nat, Entry>, dropped: set<nat>, done: set<nat>) {
    (entries == was && dropped == {}) || entries == Swept(was, dropped, done)
  }

  lemma NothingDropped(entries: map<nat, Entry>, done: set<nat>)
    ensures Swept(entries, {}, done) == PruneAll(entries, done)
  {
    assert entries - {} == entries;
  }

  lemma PruneTwice(entries: map<nat, Entry>, done: set<nat>)
    ensures PruneAll(PruneAll(entries, done), done) == PruneAll(entries, done)
  {
    assert forall id :: id in entries ==> Prune(Prune(entries[id], done), done) == Prune(entries[id], done);
  }

  /** However often it is pruned, the map is the old one without the dropped entries, pruned once. */
  lemma SweepOnce(was: map<nat, Entry>, entries: map<nat, Entry>, dropped: set<nat>, done: set<nat>)
    requires BetweenSweeps(was, entries, dropped, done)
    ensures PruneAll(entries, done) == Swept(was, dropped, done)
    ensures |PruneAll(entries, done)| == |entries|
  {
    assert |PruneAll(entries, done).Keys| == |entries.Keys|;
    if entries == Swept(was, dropped, done) {
      PruneTwice(was - dropped, done);
    } else {
      NothingDropped(was, done);
    }
  }

  lemma DropFailed(was: map<nat, Entry>, dropped: set<nat>, done: set<nat>, id: nat)
    requires OnlyFailed(was, dropped)
    requires id in Swept(was, dropped, done) && Swept(was, dropped, done)[id].Failed?
    ensures OnlyFailed(was, dropped + {id})
    ensures Swept(was, dropped, done) - {id} == Swept(was, dropped + {id}, done)
    ensures |Swept(was, dropped, done) - {id}| < |Swept(was, dropped, done)|
  {
    var swept := Swept(was, dropped, done);
    assert was - (dropped + {id}) == was - dropped - {id};
    assert (swept - {id}).Keys == swept.Keys - {id};
    assert |(swept - {id}).Keys| == |swept - {id}|;
  }

  /**
    What prepare_slot decides over the swept entries: room is reported exactly when there is room,
    the victim is the least recently used idle entry, and Wait means nothing is removable.
   */
  predicate Decided(cfg: Config, swept: map<nat, Entry>, held: nat, required: nat,
                    decision: Decision, entries: map<nat, Entry>, bytes: nat)
  {
    && (decision == Available <==> HasRoom(cfg, swept, held, required))
    && match decision
       case Available => entries == swept && bytes == held
       case Wait => entries == swept && bytes == held && NoneRemovable(swept)
       case EvictVictim(victim) =>
         && LeastRemovable(swept, victim) && swept[victim].Ready?
         && entries == swept[victim := Evicting]
         && bytes == if swept[victim].partition.bytes <= held then held - swept[victim].partition.bytes else 0
  }

  lemma ExtendRun(cfg: Config, states: seq<System>, a: Action)
    requires Run(cfg, states) && Enabled(cfg, states[|states| - 1], a)
    ensures Run(cfg, states + [Apply(cfg, states[|states| - 1], a)])
  {
    var longer := states + [Apply(cfg, states[|states| - 1], a)];
    forall i: nat
      ensures StepAt(cfg, longer, i)
    {
      assert StepAt(cfg, states, i);
      if i + 1 < |states| {
        assert longer[i] == states[i] && longer[i + 1] == states[i + 1];
      } else if i + 1 < |longer| {
        assert longer[i] == states[i];
        assert Enabled(cfg, longer[i], a);
        assert longer[i + 1] == Apply(cfg, longer[i], a);
      }
    }
  }

  lemma RunStarts(cfg: Config, s: System)
    requires s == Empty
    ensures Run(cfg, [s])
  {
  }

  // The three ends of the slot search are the three actions they stand for.

  lemma EvictIsAction(cfg: Config, s: System, token: nat, id: nat, dropped: set<nat>, done: set<nat>, victim: nat,
                      c: Cache)
    requires !s.cache.poisoned && id < |cfg.required| && id !in s.cache.entries && token !in s.evictors
    requires OnlyFailed(s.cache.entries, dropped)
    requires Decided(cfg, Swept(s.cache.entries, dropped, done), s.cache.bytes, cfg.required[id], EvictVictim(victim),
                     c.entries, c.bytes)
    requires c == Ticked(s.cache).(entries := c.entries, bytes := c.bytes)
    ensures Enabled(cfg, s, Evict(token, id, dropped, done, victim))
    ensures c == Apply(cfg, s, Evict(token, id, dropped, done, victim)).cache
  {
  }

  lemma DeferIsAction(cfg: Config, s: System, id: nat, dropped: set<nat>, done: set<nat>, c: Cache)
    requires !s.cache.poisoned && id < |cfg.required| && id !in s.cache.entries && OnlyFailed(s.cache.entries, dropped)
    requires Decided(cfg, Swept(s.cache.entries, dropped, done), s.cache.bytes, cfg.required[id], Wait,
                     c.entries, c.bytes)
    requires c == Ticked(s.cache).(entries := c.entries, bytes := c.bytes)
    ensures Enabled(cfg, s, Defer(id, dropped, done)) && c == Apply(cfg, s, Defer(id, dropped, done)).cache
  {
  }

  lemma ReserveIsAction(cfg: Config, s: System, token: nat, id: nat, dropped: set<nat>, done: set<nat>, c: Cache)
    requires !s.cache.poisoned && id < |cfg.required| && id !in s.cache.entries && token !in s.loaders
    requires OnlyFailed(s.cache.entries, dropped)
    requires HasRoom(cfg, Swept(s.cache.entries, dropped, done), s.cache.bytes, cfg.required[id])
    requires c == Reserved(cfg, SweptCache(s.cache, dropped, done), id)
    ensures Enabled(cfg, s, Reserve(token, id, dropped, done))
    ensures c == Apply(cfg, s, Reserve(token, id, dropped, done)).cache
  {
  }

  lemma SweptAndTicked(was: Cache, c: Cache, dropped: set<nat>, done: set<nat>)
    requires c == Ticked(was).(entries := Swept(was.entries, dropped, done))
    ensures c == Ticked(SweptCache(was, dropped, done))
  {
  }

  /** The entries that are not failed ones. */
  function Unfailed(entries: map<nat, Entry>): (r: map<nat, Entry>)
    ensures forall id :: id in r <==> id in entries && !entries[id].Failed?
  {
    map id | id in entries && !entries[id].Failed? :: entries[id]
  }

  /** Of the entries that could go, the victim is the one whose last lease in the run is the oldest. */
  ghost predicate LeastRecentlyUsed(run: seq<System>, victim: nat, done: set<nat>)
    requires run != []
  {
    var entries := run[|run| - 1].cache.entries;
    && victim in entries && Idle(Prune(entries[victim], done))
    && (forall id :: id in entries && Idle(Prune(entries[id], done)) ==> UsedBefore(run, |run| - 1, victim, id))
  }

  lemma VictimIsLeastRecentlyUsed(cfg: Config, run: seq<System>, dropped: set<nat>, done: set<nat>, victim: nat)
    requires Run(cfg, run) && OnlyFailed(run[|run| - 1].cache.entries, dropped)
    requires LeastRemovable(Swept(run[|run| - 1].cache.entries, dropped, done), victim)
    requires Swept(run[|run| - 1].cache.entries, dropped, done)[victim].Ready?
    ensures LeastRecentlyUsed(run, victim, done)
  {
    var entries := run[|run| - 1].cache.entries;
    var swept := Swept(entries, dropped, done);
    assert Idle(swept[victim]) && swept[victim] == Prune(entries[victim], done);
    forall id | id in entries && Idle(Prune(entries[id], done))
      ensures UsedBefore(run, |run| - 1, victim, id)
    {
      assert id in swept && NoLater(swept, victim, id);
      StampsOrderUse(cfg, run, |run| - 1, victim, id);
    }
  }

  /** Failed entries have the least key, so none is left when a ready one has to go. */
  lemma FailedGoFirst(cfg: Config, run: seq<System>, dropped: set<nat>, done: set<nat>, victim: nat)
    requires Run(cfg, run) && OnlyFailed(run[|run| - 1].cache.entries, dropped)
    requires LeastRemovable(Swept(run[|run| - 1].cache.entries, dropped, done), victim)
    requires Swept(run[|run| - 1].cache.entries, dropped, done)[victim].Ready?
    ensures NoneFailed(Swept(run[|run| - 1].cache.entries, dropped, done))
  {
    StampsArePositive(cfg, run, |run| - 1);
    var swept := Swept(run[|run| - 1].cache.entries, dropped, done);
    forall id | id in swept
      ensures !swept[id].Failed?
    {
      assert Removable(swept[id]) ==> NoLater(swept, victim, id);
    }
  }

  predicate NoneFailed(entries: map<nat, Entry>) {
    forall id :: id in entries ==> !entries[id].Failed?
  }

  /** Sweeping leaves at least the entries that have not failed, and just those when no failed one is left. */
  lemma SweptCount(entries: map<nat, Entry>, dropped: set<nat>, done: set<nat>)
    requires OnlyFailed(entries, dropped)
    ensures |Unfailed(entries)| <= |Swept(entries, dropped, done)|
    ensures NoneFailed(Swept(entries, dropped, done)) ==> |Unfailed(entries)| == |Swept(entries, dropped, done)|
  {
    var kept, swept := Unfailed(entries), Swept(entries, dropped, done);
    assert |kept.Keys| == |kept| && |swept.Keys| == |swept|;
    assert kept.Keys <= swept.Keys;
    SubsetCount(kept.Keys, swept.Keys);
    if NoneFailed(swept) {
      assert forall id :: id in swept ==> swept[id] == Prune(entries[id], done);
      assert kept.Keys == swept.Keys;
    }
  }

  /** Whatever failed entries the search dropped, it found room exactly when the others leave room. */
  lemma RoomIsFound(cfg: Config, run: seq<System>, dropped: set<nat>, done: set<nat>, required: nat, decision: Decision,
                    entries: map<nat, Entry>, bytes: nat)
    requires Run(cfg, run) && OnlyFailed(run[|run| - 1].cache.entries, dropped)
    requires Decided(cfg, Swept(run[|run| - 1].cache.entries, dropped, done), run[|run| - 1].cache.bytes, required,
                     decision, entries, bytes)
    ensures decision == Available
            <==> HasRoom(cfg, Unfailed(run[|run| - 1].cache.entries), run[|run| - 1].cache.bytes, required)
  {
    SweptCount(run[|run| - 1].cache.entries, dropped, done);
    if decision.EvictVictim? {
      FailedGoFirst(cfg, run, dropped, done, decision.victim);
    }
  }

  class DeviceTopologyCache {
    const cfg: Config
    var entries: map<nat, Entry>
    var bytes: nat
    var high: nat
    var tick: nat
    var poisoned: bool
    ghost var run: seq<System>

    ghost function View(): Cache
      reads this
    {
      Cache(entries, bytes, high, tick, poisoned)
    }

    /** The recorded run ends in the cache as it is now. */
    ghost predicate Valid()
      reads this
    {
      cfg.Valid() && Run(cfg, run) && Now().cache == View()
    }

    /** The cache with the threads inside it and the live leases. */
    ghost function Now(): System
      reads this
      requires run != []
    {
      run[|run| - 1]
    }

    constructor (cfg: Config)
      requires cfg.Valid()
      ensures Valid() && this.cfg == cfg && run == [Empty]
    {
      this.cfg := cfg;
      entries, bytes, high, tick, poisoned := map[], 0, 0, 0, false;
      run := [Empty];
      RunStarts(cfg, Empty);
    }

    /** Appends the section just run to the recorded run. */
    ghost method Record(a: Action)
      requires cfg.Valid() && Run(cfg, run) && Enabled(cfg, run[|run| - 1], a)
      requires View() == Apply(cfg, run[|run| - 1], a).cache
      modifies this`run
      ensures Valid() && run == old(run) + [Apply(cfg, old(run)[|old(run)| - 1], a)]
    {
      ExtendRun(cfg, run, a);
      run := run + [Apply(cfg, run[|run| - 1], a)];
    }

    /**
      prepare_slot: drop failed entries until there is room, an idle ready entry has to go, or
      nothing can. It ends, evicts only the least recently used idle entry, and answers Wait only
      when nothing is removable.
     */
    method PrepareSlot(required: nat, done: set<nat>)
      returns (decision: Decision, ghost dropped: set<nat>)
      modifies this`entries, this`bytes
      ensures OnlyFailed(old(entries), dropped)
      ensures Decided(cfg, Swept(old(entries), dropped, done), old(bytes), required, decision, entries, bytes)
    {
      dropped := {};
      while true
        invariant OnlyFailed(old(entries), dropped)
        invariant BetweenSweeps(old(entries), entries, dropped, done)
        invariant bytes == old(bytes)
        decreases |entries|
      {
        SweepOnce(old(entries), entries, dropped, done);
        entries := PruneAll(entries, done);
        var choice, id;
        choice, id, entries, bytes := Choose(cfg, entries, bytes, required);
        if choice.Some? {
          return choice.value, dropped;
        }
        DropFailed(old(entries), dropped, done, id);
        dropped := dropped + {id};
      }
    }

    /**
      The locked section of acquire, up to the point where it leases, waits, or releases the lock to work.
      token names the lease, loader or evicting thread that may come of it.
     */
    method AcquireSection(id: nat, done: set<nat>, token: nat) returns (outcome: Outcome)
      requires Valid() && id < |cfg.required|
      requires token !in Now().leases && token !in Now().loaders && token !in Now().evictors
      modifies this
      ensures Valid() && old(run) <= run
      ensures old(poisoned) <==> outcome == Refused
      ensures outcome.Leased? ==> token in Now().leases && Now().leases[token] == Lease(id, outcome.partition)
      ensures outcome == FailureTaken ==> id !in entries
      ensures outcome == Waiting ==> id in entries && Busy(entries[id])
      ensures outcome == SlotReserved ==>
                token in Now().loaders && Now().loaders[token] == Loader(id, cfg.required[id], false)
                && id in entries && entries[id] == HostLoading(cfg.required[id])
      ensures outcome.EvictionStarted? ==>
                token in Now().evictors && Now().evictors[token] == outcome.victim
                && outcome.victim in entries && entries[outcome.victim].Evicting?
      ensures outcome == Deferred ==> exists i :: i in entries && Busy(entries[i])
      ensures !old(poisoned) && id in old(entries) ==>
                match old(entries)[id]
                case Ready(partition, _, _, _) => outcome == Leased(partition)
                case Failed => outcome == FailureTaken
                case _ => outcome == Waiting
      ensures !old(poisoned) && id !in old(entries) ==>
                (outcome == SlotReserved
                 <==> |Unfailed(old(entries))| < cfg.maximumSlots
                      && old(bytes) + cfg.required[id] <= cfg.maximumBytes)
      ensures outcome == Deferred ==> id !in old(entries) && forall i :: i in entries ==> Busy(entries[i])
      ensures outcome.EvictionStarted? ==> id !in old(entries) && LeastRecentlyUsed(old(run), outcome.victim, done)
    {
      if poisoned {
        return Refused;
      }
      tick := tick + 1;
      if id in entries {
        outcome := AcquirePresent(id, done, token);
      } else {
        outcome := AcquireAbsent(id, done, token);
      }
    }

    /** acquire on an entry that is there. */
    method AcquirePresent(id: nat, done: set<nat>, token: nat) returns (outcome: Outcome)
      requires cfg.Valid() && Run(cfg, run) && View() == Ticked(Now().cache) && !poisoned && id in entries
      requires token !in Now().leases
      modifies this`entries, this`run
      ensures Valid() && old(run) <= run
      ensures outcome.Leased? || outcome == FailureTaken || outcome == Waiting
      ensures outcome.Leased? ==> token in Now().leases && Now().leases[token] == Lease(id, outcome.partition)
      ensures outcome == FailureTaken ==> id !in entries
      ensures outcome == Waiting ==> id in entries && Busy(entries[id])
      ensures match old(entries)[id]
              case Ready(partition, _, _, _) => outcome == Leased(partition)
              case Failed => outcome == FailureTaken
              case _ => outcome == Waiting
    {
      match entries[id] {
        case Ready(partition, users, events, _) =>
          entries := entries[id := Ready(partition, users + 1, events - done, tick)];
          Record(Hit(token, id, done));
          outcome := Leased(partition);
        case Failed =>
          entries := entries - {id};
          Record(TakeFailure(id));
          outcome := FailureTaken;
        case _ =>
          Record(WaitForEntry(id));
          outcome := Waiting;
      }
    }

    /** acquire on an entry that is not there: find a slot, start an eviction, or wait for cause. */
    method AcquireAbsent(id: nat, done: set<nat>, token: nat) returns (outcome: Outcome)
      requires cfg.Valid() && Run(cfg, run) && View() == Ticked(Now().cache) && !poisoned && id !in entries
      requires id < |cfg.required| && token !in Now().loaders && token !in Now().evictors
      modifies this`entries, this`bytes, this`high, this`run
      ensures Valid() && old(run) <= run
      ensures outcome == SlotReserved || outcome.EvictionStarted? || outcome == Deferred
      ensures outcome == SlotReserved ==>
                token in Now().loaders && Now().loaders[token] == Loader(id, cfg.required[id], false)
                && id in entries && entries[id] == HostLoading(cfg.required[id])
      ensures outcome.EvictionStarted? ==>
                token in Now().evictors && Now().evictors[token] == outcome.victim
                && outcome.victim in entries && entries[outcome.victim].Evicting?
      ensures outcome == Deferred ==> exists i :: i in entries && Busy(entries[i])
      ensures outcome == SlotReserved <==> HasRoom(cfg, Unfailed(old(entries)), old(bytes), cfg.required[id])
      ensures outcome == Deferred ==> forall i :: i in entries ==> Busy(entries[i])
      ensures outcome.EvictionStarted? ==> LeastRecentlyUsed(old(run), outcome.victim, done)
    {
      ghost var s := run[|run| - 1];
      var decision, dropped := PrepareSlot(cfg.required[id], done);
      RoomIsFound(cfg, run, dropped, done, cfg.required[id], decision, entries, bytes);
      match decision {
        case EvictVictim(victim) =>
          RecordEviction(s, id, dropped, done, token, victim);
          outcome := EvictionStarted(victim);
        case Wait =>
          RecordDeferral(s, id, dropped, done);
          outcome := Deferred;
        case Available =>
          ReserveSlot(s, id, dropped, done, token);
          outcome := SlotReserved;
      }
    }

    ghost method RecordEviction(s: System, id: nat, dropped: set<nat>, done: set<nat>,
                                token: nat, victim: nat)
      requires cfg.Valid() && Run(cfg, run) && !poisoned && id < |cfg.required|
      requires s == run[|run| - 1]
      requires id !in s.cache.entries && token !in s.evictors && OnlyFailed(s.cache.entries, dropped)
      requires Decided(cfg, Swept(s.cache.entries, dropped, done), s.cache.bytes, cfg.required[id],
                       EvictVictim(victim), entries, bytes)
      requires View() == Ticked(s.cache).(entries := entries, bytes := bytes)
      modifies this`run
      ensures Valid() && old(run) <= run
      ensures token in Now().evictors && Now().evictors[token] == victim
      ensures victim in entries && entries[victim].Evicting? && LeastRecentlyUsed(old(run), victim, done)
    {
      VictimIsLeastRecentlyUsed(cfg, run, dropped, done, victim);
      EvictIsAction(cfg, s, token, id, dropped, done, victim, View());
      Record(Evict(token, id, dropped, done, victim));
    }

    ghost method RecordDeferral(s: System, id: nat, dropped: set<nat>, done: set<nat>)
      requires cfg.Valid() && Run(cfg, run) && !poisoned && id < |cfg.required|
      requires s == run[|run| - 1]
      requires id !in s.cache.entries && OnlyFailed(s.cache.entries, dropped)
      requires Decided(cfg, Swept(s.cache.entries, dropped, done), s.cache.bytes, cfg.required[id], Wait,
                       entries, bytes)
      requires View() == Ticked(s.cache).(entries := entries, bytes := bytes)
      modifies this`run
      ensures Valid() && old(run) <= run
      ensures exists i :: i in entries && Busy(entries[i])
      ensures forall i :: i in entries ==> Busy(entries[i])
    {
      DeferIsAction(cfg, s, id, dropped, done, View());
      Record(Defer(id, dropped, done));
      AccountingHolds(cfg, run, |run| - 1);
      WaitHasCause(cfg, View(), id);
    }

    /** The reservation in the room that was found. */
    method ReserveSlot(ghost s: System, id: nat, ghost dropped: set<nat>,
                       ghost done: set<nat>, token: nat)
      requires cfg.Valid() && Run(cfg, run) && !poisoned && id < |cfg.required|
      requires s == run[|run| - 1]
      requires id !in s.cache.entries && token !in s.loaders && OnlyFailed(s.cache.entries, dropped)
      requires Decided(cfg, Swept(s.cache.entries, dropped, done), s.cache.bytes, cfg.required[id], Available,
                       entries, bytes)
      requires View() == Ticked(s.cache).(entries := entries, bytes := bytes)
      modifies this`entries, this`bytes, this`high, this`run
      ensures Valid() && old(run) <= run
      ensures token in Now().loaders && Now().loaders[token] == Loader(id, cfg.required[id], false)
      ensures id in entries && entries[id] == HostLoading(cfg.required[id])
    {
      ghost var c := View();
      SweptAndTicked(s.cache, c, dropped, done);
      entries := entries[id := HostLoading(cfg.required[id])];
      bytes := bytes + cfg.required[id];
      high := if high < bytes then bytes else high;
      assert View() == Reserved(cfg, SweptCache(s.cache, dropped, done), id);
      ReserveIsAction(cfg, s, token, id, dropped, done, View());
      Record(Reserve(token, id, dropped, done));
    }

    /** The second section of an eviction: the slot is still there, and is free afterwards. */
    method FinishEvictionSection(thread: nat, id: nat)
      requires Valid() && thread in Now().evictors && Now().evictors[thread] == id
      modifies this`entries, this`run
      ensures Valid() && old(run) <= run && thread !in Now().evictors
      ensures id in old(entries) && entries == old(entries) - {id}
    {
      RunEvicts(cfg, run, thread);
      if id in entries && entries[id].Evicting? {
        entries := entries - {id};
      }
      Record(FinishEviction(thread));
    }

    /** The reservation moves to copying; until poison it is always still there. */
    method BeginCopySection(thread: nat, l: Loader) returns (ok: bool)
      requires Valid() && thread in Now().loaders && Now().loaders[thread] == l && !l.copying
      modifies this`entries, this`run
      ensures Valid() && old(run) <= run
      ensures ok <==> !poisoned
      ensures ok ==> thread in Now().loaders && Now().loaders[thread] == l.(copying := true)
      ensures entries == if ok then old(entries)[l.id := Copying(l.bytes)] else old(entries)
    {
      ok := !poisoned && l.id in entries && entries[l.id].HostLoading?;
      if !poisoned {
        ReservationIsKept(cfg, run, |run| - 1, thread, Loaded(0, 0));
      }
      if ok {
        entries := entries[l.id := Copying(l.bytes)];
      }
      Record(BeginCopy(thread));
    }

    /** The copy is published under a lease; until poison the reservation is always still there. */
    method FinishCopySection(thread: nat, l: Loader, identity: nat, token: nat) returns (ok: bool)
      requires Valid() && thread in Now().loaders && Now().loaders[thread] == l && l.copying
      requires token !in Now().leases
      modifies this`entries, this`run
      ensures Valid() && old(run) <= run && thread !in Now().loaders
      ensures ok <==> !poisoned
      ensures ok ==> token in Now().leases && Now().leases[token] == Lease(l.id, Loaded(identity, l.bytes))
      ensures ok ==> entries == old(entries)[l.id := Ready(Loaded(identity, l.bytes), 1, {}, tick)]
      ensures !ok ==> entries == old(entries)
    {
      var partition := Loaded(identity, l.bytes);
      ok := !poisoned && l.id in entries && entries[l.id] == Copying(l.bytes);
      if !poisoned {
        ReservationIsKept(cfg, run, |run| - 1, thread, partition);
      }
      if ok {
        entries := entries[l.id := Ready(partition, 1, {}, tick)];
      }
      Record(FinishCopy(thread, token, identity));
    }

    /** A cancelled loader takes its own reservation and exactly its bytes with it; poison has done so before. */
    method CancelReserved(thread: nat, l: Loader)
      requires Valid() && thread in Now().loaders && Now().loaders[thread] == l && !l.copying
      modifies this`entries, this`bytes, this`run
      ensures Valid() && old(run) <= run && thread !in Now().loaders
      ensures if poisoned then View() == old(View())
              else l.id in old(entries) && l.bytes <= old(bytes)
                   && entries == old(entries) - {l.id} && bytes == old(bytes) - l.bytes
    {
      RunReserves(cfg, run, thread);
      if l.id in entries && Loading(entries[l.id]) {
        entries := entries - {l.id};
        bytes := SaturatingSub(bytes, l.bytes);
      }
      Record(Cancel(thread));
    }

    /** A failed loader leaves a failed entry that accounts for nothing, or poisons the cache. */
    method FailReserved(thread: nat, l: Loader, poisons: bool)
      requires Valid() && thread in Now().loaders && Now().loaders[thread] == l
      modifies this`entries, this`bytes, this`poisoned, this`run
      ensures Valid() && old(run) <= run && thread !in Now().loaders
      ensures poisoned == (poisons || old(poisoned))
      ensures poisoned ==> forall i :: i in entries ==> !Loading(entries[i])
      ensures poisons ==> entries == FailAll(old(entries))
      ensures !poisoned ==> l.bytes <= old(bytes)
                            && entries == old(entries)[l.id := Failed] && bytes == old(bytes) - l.bytes
    {
      RunReserves(cfg, run, thread);
      if poisons {
        Poison();
      } else if l.id in entries && Loading(entries[l.id]) {
        bytes := SaturatingSub(bytes, l.bytes);
        entries := entries[l.id := Failed];
      }
      Record(Fail(thread, poisons));
    }

    /** The poison sweep: every reservation fails, and exactly the reserved bytes are released. */
    method Poison()
      modifies this`entries, this`bytes, this`poisoned
      ensures View() == AfterPoison(old(View()))
    {
      poisoned := true;
      var released := 0;
      var rest := entries.Keys;
      while rest != {}
        invariant rest <= entries.Keys == old(entries).Keys
        invariant forall i :: i in entries ==>
                    entries[i] == if i in rest then old(entries)[i] else FailLoading(old(entries)[i])
        invariant TrackedBytes(entries) + released == TrackedBytes(old(entries))
        invariant bytes == old(bytes) && poisoned
        decreases |rest|
      {
        var i :| i in rest;
        rest := rest - {i};
        if Loading(entries[i]) {
          TrackedUpdate(entries, i, Failed);
          released := released + entries[i].bytes;
          entries := entries[i := Failed];
        }
      }
      assert entries == FailAll(old(entries));
      TrackedFailAll(old(entries));
      bytes := SaturatingSub(bytes, released);
    }

    /** record_completion: on a live lease it cannot fail, and the event is pending on the lease's own entry. */
    method RecordCompletion(token: nat, lease: Lease, event: nat) returns (ok: bool)
      requires Valid() && token in Now().leases && Now().leases[token] == lease
      modifies this`entries, this`run
      ensures Valid() && old(run) <= run && ok
      ensures lease.id in entries && entries[lease.id].Ready? && entries[lease.id].partition == lease.partition
      ensures event in entries[lease.id].events && !Removable(entries[lease.id])
      ensures entries - {lease.id} == old(entries) - {lease.id}
    {
      LeaseIsSafe(cfg, run, |run| - 1, token, event);
      LeaseIsCounted(Now(), token);
      ok := lease.id in entries && entries[lease.id].Ready? && entries[lease.id].partition == lease.partition;
      if ok {
        var e := entries[lease.id];
        entries := entries[lease.id := e.(events := e.events + {event})];
      }
      Record(Action.Record(token, event));
    }

    /** Dropping a lease takes exactly one user off its own entry. */
    method ReleaseLease(token: nat, lease: Lease)
      requires Valid() && token in Now().leases && Now().leases[token] == lease
      modifies this`entries, this`run
      ensures Valid() && old(run) <= run && token !in Now().leases
      ensures lease.id in entries && lease.id in old(entries) && old(entries)[lease.id].Ready?
      ensures old(entries)[lease.id].users > 0
      ensures entries == old(entries)[lease.id :=
                old(entries)[lease.id].(users := old(entries)[lease.id].users - 1)]
    {
      LeaseIsSafe(cfg, run, |run| - 1, token, 0);
      LeaseIsCounted(Now(), token);
      if lease.id in entries && entries[lease.id].Ready? && entries[lease.id].partition == lease.partition {
        var e := entries[lease.id];
        entries := entries[lease.id := e.(users := SaturatingSub(e.users, 1))];
      }
      Record(Release(token));
    }
  }

  /** Until poison, a loader's own reservation is part of the tracked bytes; after it there are no reservations. */
  lemma RunReserves(cfg: Config, run: seq<System>, thread: nat)
    requires cfg.Valid() && Run(cfg, run) && thread in run[|run| - 1].loaders
    ensures var s := run[|run| - 1];
            && (!s.cache.poisoned ==>
                  s.loaders[thread].id in s.cache.entries && Loading(s.cache.entries[s.loaders[thread].id])
                  && s.loaders[thread].bytes <= s.cache.bytes)
            && (s.cache.poisoned ==> forall i :: i in s.cache.entries ==> !Loading(s.cache.entries[i]))
  {
    var s := run[|run| - 1];
    RunKeeps(cfg, run, |run| - 1);
    if !s.cache.poisoned {
      BytesCoverEntry(cfg, s.cache, s.loaders[thread].id);
    }
  }

  lemma RunEvicts(cfg: Config, run: seq<System>, thread: nat)
    requires cfg.Valid() && Run(cfg, run) && thread in run[|run| - 1].evictors
    ensures var s := run[|run| - 1];
            s.evictors[thread] in s.cache.entries && s.cache.entries[s.evictors[thread]].Evicting?
  {
    RunKeeps(cfg, run, |run| - 1);
  }

  /** A live lease is one of the users of its entry. */
  lemma LeaseIsCounted(s: System, token: nat)
    requires token in s.leases && LeaseHolds(s.cache, s.leases[token])
    requires s.cache.entries[s.leases[token].id].users == |LeasesOf(s.leases, s.leases[token].id)|
    ensures s.cache.entries[s.leases[token].id].users > 0
  {
    assert token in LeasesOf(s.leases, s.leases[token].id);
  }

  /** What keeps an entry from being removed. */
  predicate Busy(e: Entry) {
    Loading(e) || e.Evicting? || (e.Ready? && (e.users > 0 || e.events != {}))
  }

  /** A deferred request always has a cause: some entry is loading, copying, evicting, leased or awaiting an event. */
  lemma WaitHasCause(cfg: Config, c: Cache, id: nat)
    requires cfg.Valid() && c.bytes == TrackedBytes(c.entries) && id < |cfg.required|
    requires !HasRoom(cfg, c.entries, c.bytes, cfg.required[id])
    requires NoneRemovable(c.entries)
    ensures exists i :: i in c.entries && Busy(c.entries[i])
  {
    assert c.entries == map[] ==> TrackedBytes(c.entries) == 0;
    var i :| i in c.entries;
    assert Busy(c.entries[i]);
  }
}
