/**
  The device topology cache: entries that move through host loading, copying, ready,
  evicting and failed, under byte and slot limits, with leases, completion events, a
  poison flag, and the lock released while a thread loads, copies or frees.
  Threads interleave at the granularity of the locked sections, each an action.
 */
module TopologyCache {
  import opened Basics

  /** A device allocation: its identity and the bytes it accounts for. */
  datatype Loaded = Loaded(identity: nat, bytes: nat)

  datatype Entry =
    | HostLoading(bytes: nat)
    | Copying(bytes: nat)
    | Evicting
    | Ready(partition: Loaded, users: nat, events: set<nat>, lastUse: nat)
    | Failed

  datatype Config = Config(required: seq<nat>, maximumBytes: nat, maximumSlots: nat) {
    /** What the constructor checks: nonzero limits, and every partition fits. */
    ghost predicate Valid() {
      && maximumBytes > 0 && maximumSlots > 0
      && (forall id :: 0 <= id < |required| ==> required[id] <= maximumBytes)
    }
  }

  datatype Cache = Cache(entries: map<nat, Entry>, bytes: nat, high: nat, tick: nat, poisoned: bool)

  predicate Loading(e: Entry) {
    e.HostLoading? || e.Copying?
  }

  /** What an entry contributes to the tracked bytes. */
  function EntryBytes(e: Entry): nat {
    match e
    case HostLoading(b) => b
    case Copying(b) => b
    case Ready(p, _, _, _) => p.bytes
    case Evicting => 0
    case Failed => 0
  }

  ghost function TrackedBytes(entries: map<nat, Entry>): nat {
    if entries == map[] then
      0
    else
      var id :| id in entries;
      EntryBytes(entries[id]) + TrackedBytes(entries - {id})
  }

  /** Dropping an idle reader's completed events. */
  function Prune(e: Entry, done: set<nat>): Entry {
    if e.Ready? then e.(events := e.events - done) else e
  }

  function PruneAll(entries: map<nat, Entry>, done: set<nat>): (r: map<nat, Entry>)
    ensures r.Keys == entries.Keys
    ensures forall id :: id in entries ==> r[id] == Prune(entries[id], done)
  {
    map id | id in entries :: Prune(entries[id], done)
  }

  /** The entries after prepare_slot has dropped some failed entries and pruned the rest. */
  function Swept(entries: map<nat, Entry>, dropped: set<nat>, done: set<nat>): map<nat, Entry> {
    PruneAll(entries - dropped, done)
  }

  predicate OnlyFailed(entries: map<nat, Entry>, dropped: set<nat>) {
    forall id :: id in dropped ==> id in entries && entries[id].Failed?
  }

  /** Room for one more entry of the given size. */
  predicate HasRoom(cfg: Config, entries: map<nat, Entry>, bytes: nat, required: nat) {
    |entries| < cfg.maximumSlots && bytes + required <= cfg.maximumBytes
  }

  /** Ready, with no user and no pending event: the only ready entries that may be evicted. */
  predicate Idle(e: Entry) {
    e.Ready? && e.users == 0 && e.events == {}
  }

  /** A thread between two locked sections of load_reserved. */
  datatype Loader = Loader(id: nat, bytes: nat, copying: bool)

  datatype Lease = Lease(id: nat, partition: Loaded)

  /** The cache with every thread that is inside it and every live lease. */
  datatype System = System(cache: Cache, loaders: map<nat, Loader>, evictors: map<nat, nat>, leases: map<nat, Lease>)

  datatype Action =
    | Hit(lease: nat, id: nat, done: set<nat>)
    | TakeFailure(id: nat)
    | WaitForEntry(id: nat)
    | Reserve(thread: nat, id: nat, dropped: set<nat>, done: set<nat>)
    | Evict(thread: nat, id: nat, dropped: set<nat>, done: set<nat>, victim: nat)
    | Defer(id: nat, dropped: set<nat>, done: set<nat>)
    | FinishEviction(thread: nat)
    | BeginCopy(thread: nat)
    | FinishCopy(thread: nat, lease: nat, identity: nat)
    | Cancel(thread: nat)
    | Fail(thread: nat, poisons: bool)
    | Record(lease: nat, event: nat)
    | Release(lease: nat)
    | Observe(done: set<nat>)

  function Ticked(c: Cache): Cache {
    c.(tick := c.tick + 1)
  }

  /** acquire on a ready entry: prune, one more user, most recently used. */
  function AfterHit(c: Cache, id: nat, done: set<nat>): Cache
    requires id in c.entries && c.entries[id].Ready?
  {
    var e := Prune(c.entries[id], done);
    Ticked(c).(entries := c.entries[id := e.(users := e.users + 1, lastUse := c.tick + 1)])
  }

  /** A reservation in the room that was found. */
  function Reserved(cfg: Config, c: Cache, id: nat): Cache
    requires id < |cfg.required|
  {
    var bytes := c.bytes + cfg.required[id];
    Ticked(c).(entries := c.entries[id := HostLoading(cfg.required[id])],
               bytes := bytes,
               high := if c.high < bytes then bytes else c.high)
  }

  /** The victim stops accounting for its bytes while it is being freed. */
  function Evicted(c: Cache, victim: nat): Cache
    requires victim in c.entries && c.entries[victim].Ready?
  {
    var freed := c.entries[victim].partition.bytes;
    Ticked(c).(entries := c.entries[victim := Evicting], bytes := SaturatingSub(c.bytes, freed))
  }

  function SweptCache(c: Cache, dropped: set<nat>, done: set<nat>): Cache {
    c.(entries := Swept(c.entries, dropped, done))
  }

  /** cancel_reserved: a reservation that is still there is removed with its bytes. */
  function AfterCancel(c: Cache, id: nat, bytes: nat): Cache {
    if id in c.entries && Loading(c.entries[id]) then
      c.(entries := c.entries - {id}, bytes := SaturatingSub(c.bytes, bytes))
    else
      c
  }

  function FailLoading(e: Entry): Entry {
    if Loading(e) then Failed else e
  }

  function FailAll(entries: map<nat, Entry>): (r: map<nat, Entry>)
    ensures r.Keys == entries.Keys && forall id :: id in entries ==> r[id] == FailLoading(entries[id])
  {
    map id | id in entries :: FailLoading(entries[id])
  }

  /** The bytes of the loading and copying entries. */
  ghost function LoadingBytes(entries: map<nat, Entry>): nat {
    TrackedBytes(OnlyLoading(entries))
  }

  /** fail_reserved without poison: the reservation turns into a failed entry. */
  function AfterFail(c: Cache, id: nat, bytes: nat): Cache {
    if id in c.entries && Loading(c.entries[id]) then
      c.(entries := c.entries[id := Failed], bytes := SaturatingSub(c.bytes, bytes))
    else
      c
  }

  /** fail_reserved with a poisoning error: every reservation fails and the cache is closed. */
  ghost function AfterPoison(c: Cache): Cache {
    var released := LoadingBytes(c.entries);
    c.(entries := FailAll(c.entries), bytes := SaturatingSub(c.bytes, released), poisoned := true)
  }

  /** Whether the locked section may run now and take this branch. */
  ghost predicate Enabled(cfg: Config, s: System, a: Action) {
    var c := s.cache;
    match a
    case Hit(lease, id, _) => !c.poisoned && id in c.entries && c.entries[id].Ready? && lease !in s.leases
    case TakeFailure(id) => !c.poisoned && id in c.entries && c.entries[id].Failed?
    case WaitForEntry(id) => !c.poisoned && id in c.entries && (Loading(c.entries[id]) || c.entries[id].Evicting?)
    case Reserve(thread, id, dropped, done) =>
      && !c.poisoned && id < |cfg.required| && id !in c.entries
      && thread !in s.loaders && OnlyFailed(c.entries, dropped)
      && HasRoom(cfg, Swept(c.entries, dropped, done), c.bytes, cfg.required[id])
    case Evict(thread, id, dropped, done, victim) =>
      && !c.poisoned && id < |cfg.required| && id !in c.entries
      && thread !in s.evictors && OnlyFailed(c.entries, dropped)
      && victim in c.entries && Idle(Prune(c.entries[victim], done))
    case Defer(id, dropped, _) => !c.poisoned && id !in c.entries && OnlyFailed(c.entries, dropped)
    case FinishEviction(thread) => thread in s.evictors
    case BeginCopy(thread) => thread in s.loaders && !s.loaders[thread].copying
    case FinishCopy(thread, lease, _) => thread in s.loaders && s.loaders[thread].copying && lease !in s.leases
    case Cancel(thread) => thread in s.loaders && !s.loaders[thread].copying
    case Fail(thread, _) => thread in s.loaders
    case Record(lease, _) => lease in s.leases
    case Release(lease) => lease in s.leases
    case Observe(_) => true
  }

  /** begin_copy's locked section; None when it reports an error. */
  function CopyBegun(c: Cache, l: Loader): (r: (bool, Cache)) {
    if c.poisoned || l.id !in c.entries || !c.entries[l.id].HostLoading? then (false, c)
    else (true, c.(entries := c.entries[l.id := Copying(l.bytes)]))
  }

  /** The publishing section of load_reserved; false when it reports an error. */
  function CopyFinished(c: Cache, l: Loader, partition: Loaded): (r: (bool, Cache)) {
    if c.poisoned || l.id !in c.entries || c.entries[l.id] != Copying(l.bytes) then (false, c)
    else (true, c.(entries := c.entries[l.id := Ready(partition, 1, {}, c.tick)]))
  }

  /** record_completion; false when it reports a disappeared or changed slot. */
  function Recorded(c: Cache, lease: Lease, event: nat): (r: (bool, Cache)) {
    if lease.id in c.entries && c.entries[lease.id].Ready? && c.entries[lease.id].partition == lease.partition then
      var e := c.entries[lease.id];
      (true, c.(entries := c.entries[lease.id := e.(events := e.events + {event})]))
    else
      (false, c)
  }

  /** Dropping a lease. */
  function Released(c: Cache, lease: Lease): Cache {
    if lease.id in c.entries && c.entries[lease.id].Ready? && c.entries[lease.id].partition == lease.partition then
      var e := c.entries[lease.id];
      c.(entries := c.entries[lease.id := e.(users := SaturatingSub(e.users, 1))])
    else
      c
  }

  function EvictionFinished(c: Cache, id: nat): Cache {
    if id in c.entries && c.entries[id].Evicting? then c.(entries := c.entries - {id}) else c
  }

  ghost function Apply(cfg: Config, s: System, a: Action): System
    requires Enabled(cfg, s, a)
  {
    var c := s.cache;
    match a
    case Hit(lease, id, done) =>
      s.(cache := AfterHit(c, id, done), leases := s.leases[lease := Lease(id, c.entries[id].partition)])
    case TakeFailure(id) => s.(cache := Ticked(c).(entries := c.entries - {id}))
    case WaitForEntry(id) => s.(cache := Ticked(c))
    case Reserve(thread, id, dropped, done) =>
      s.(cache := Reserved(cfg, SweptCache(c, dropped, done), id),
         loaders := s.loaders[thread := Loader(id, cfg.required[id], false)])
    case Evict(thread, id, dropped, done, victim) =>
      s.(cache := Evicted(SweptCache(c, dropped, done), victim), evictors := s.evictors[thread := victim])
    case Defer(id, dropped, done) => s.(cache := Ticked(SweptCache(c, dropped, done)))
    case FinishEviction(thread) =>
      s.(cache := EvictionFinished(c, s.evictors[thread]), evictors := s.evictors - {thread})
    case BeginCopy(thread) =>
      var (ok, c') := CopyBegun(c, s.loaders[thread]);
      s.(cache := c', loaders := if ok then s.loaders[thread := s.loaders[thread].(copying := true)]
                                 else s.loaders - {thread})
    case FinishCopy(thread, lease, identity) =>
      var l := s.loaders[thread];
      var partition := Loaded(identity, l.bytes);
      var (ok, c') := CopyFinished(c, l, partition);
      s.(cache := c', loaders := s.loaders - {thread},
         leases := if ok then s.leases[lease := Lease(l.id, partition)] else s.leases)
    case Cancel(thread) =>
      s.(cache := AfterCancel(c, s.loaders[thread].id, s.loaders[thread].bytes), loaders := s.loaders - {thread})
    case Fail(thread, poisons) =>
      s.(cache := if poisons then AfterPoison(c) else AfterFail(c, s.loaders[thread].id, s.loaders[thread].bytes),
         loaders := s.loaders - {thread})
    case Record(lease, event) => s.(cache := Recorded(c, s.leases[lease], event).1)
    case Release(lease) => s.(cache := Released(c, s.leases[lease]), leases := s.leases - {lease})
    case Observe(done) => s.(cache := SweptCache(c, {}, done))
  }

  const Empty: System := System(Cache(map[], 0, 0, 0, false), map[], map[], map[])

  // The sum over a map does not depend on the order of its keys.

  lemma {:induction false} TrackedWithout(entries: map<nat, Entry>, id: nat)
    requires id in entries
    ensures TrackedBytes(entries) == EntryBytes(entries[id]) + TrackedBytes(entries - {id})
    decreases |entries|
  {
    var x :| x in entries && TrackedBytes(entries) == EntryBytes(entries[x]) + TrackedBytes(entries - {x});
    if x != id {
      TrackedWithout(entries - {x}, id);
      TrackedWithout(entries - {id}, x);
      assert entries - {x} - {id} == entries - {id} - {x};
    }
  }

  lemma TrackedUpdate(entries: map<nat, Entry>, id: nat, e: Entry)
    ensures TrackedBytes(entries[id := e])
            == TrackedBytes(entries) - (if id in entries then EntryBytes(entries[id]) else 0) + EntryBytes(e)
  {
    var updated := entries[id := e];
    TrackedWithout(updated, id);
    assert updated - {id} == entries - {id};
    if id in entries {
      TrackedWithout(entries, id);
    } else {
      assert entries - {id} == entries;
    }
  }

  /** Entries with the same keys and pairwise equal contributions have equal sums. */
  lemma {:induction false} TrackedSame(a: map<nat, Entry>, b: map<nat, Entry>)
    requires a.Keys == b.Keys && forall id :: id in a ==> EntryBytes(a[id]) == EntryBytes(b[id])
    ensures TrackedBytes(a) == TrackedBytes(b)
    decreases |a|
  {
    if a != map[] {
      var id :| id in a;
      TrackedWithout(a, id);
      TrackedWithout(b, id);
      TrackedSame(a - {id}, b - {id});
    }
  }

  /** Dropping entries that account for nothing keeps the sum. */
  lemma {:induction false} TrackedDrop(entries: map<nat, Entry>, dropped: set<nat>)
    requires OnlyFailed(entries, dropped)
    ensures TrackedBytes(entries - dropped) == TrackedBytes(entries)
    decreases |dropped|
  {
    if dropped == {} {
      assert entries - dropped == entries;
    } else {
      var id :| id in dropped;
      TrackedWithout(entries, id);
      TrackedDrop(entries - {id}, dropped - {id});
      assert entries - {id} - (dropped - {id}) == entries - dropped;
    }
  }

  lemma TrackedSwept(entries: map<nat, Entry>, dropped: set<nat>, done: set<nat>)
    requires OnlyFailed(entries, dropped)
    ensures TrackedBytes(Swept(entries, dropped, done)) == TrackedBytes(entries)
  {
    TrackedDrop(entries, dropped);
    TrackedSame(Swept(entries, dropped, done), entries - dropped);
  }

  ghost function OnlyLoading(entries: map<nat, Entry>): map<nat, Entry> {
    map id | id in entries && Loading(entries[id]) :: entries[id]
  }

  lemma OnlyLoadingWithout(entries: map<nat, Entry>, id: nat)
    requires id in entries
    ensures OnlyLoading(entries - {id}) == OnlyLoading(entries) - {id}
    ensures TrackedBytes(OnlyLoading(entries))
            == TrackedBytes(OnlyLoading(entries - {id})) + if Loading(entries[id]) then EntryBytes(entries[id]) else 0
  {
    assert OnlyLoading(entries - {id}) == OnlyLoading(entries) - {id};
    if Loading(entries[id]) {
      TrackedWithout(OnlyLoading(entries), id);
    } else {
      assert OnlyLoading(entries) - {id} == OnlyLoading(entries);
    }
  }

  lemma FailAllWithout(entries: map<nat, Entry>, id: nat)
    ensures FailAll(entries) - {id} == FailAll(entries - {id})
  {
  }

  /** Failing every reservation releases exactly the reserved bytes. */
  lemma {:induction false} TrackedFailAll(entries: map<nat, Entry>)
    ensures TrackedBytes(FailAll(entries)) + LoadingBytes(entries) == TrackedBytes(entries)
    decreases |entries|
  {
    if entries == map[] {
      assert FailAll(entries) == map[] && OnlyLoading(entries) == map[];
    } else {
      var id :| id in entries;
      TrackedWithout(entries, id);
      TrackedWithout(FailAll(entries), id);
      TrackedFailAll(entries - {id});
      FailAllWithout(entries, id);
      OnlyLoadingWithout(entries, id);
    }
  }

  /** Tracked bytes are the sum over loading, copying and ready entries, and both limits hold. */
  ghost predicate Accounted(cfg: Config, c: Cache) {
    && c.bytes == TrackedBytes(c.entries)
    && c.bytes <= c.high <= cfg.maximumBytes
    && |c.entries| <= cfg.maximumSlots
    && (forall id :: id in c.entries ==> id < |cfg.required| && Sized(cfg, id, c.entries[id]))
  }

  predicate Sized(cfg: Config, id: nat, e: Entry)
    requires id < |cfg.required|
  {
    (Loading(e) || e.Ready?) ==> EntryBytes(e) == cfg.required[id]
  }

  /** The entry a loader left behind when it released the lock. */
  function Reservation(l: Loader): Entry {
    if l.copying then Copying(l.bytes) else HostLoading(l.bytes)
  }

  /** Until poison, every loader owns exactly one reservation; after poison there are no reservations. */
  ghost predicate LoadersAgree(s: System) {
    && (forall id :: id in s.cache.entries && Loading(s.cache.entries[id]) ==>
          !s.cache.poisoned && exists t :: t in s.loaders && s.loaders[t].id == id)
    && (!s.cache.poisoned ==>
          && (forall t :: t in s.loaders ==>
                s.loaders[t].id in s.cache.entries && s.cache.entries[s.loaders[t].id] == Reservation(s.loaders[t]))
          && (forall t, u :: t in s.loaders && u in s.loaders && s.loaders[t].id == s.loaders[u].id ==> t == u))
  }

  /** Every entry being evicted belongs to exactly one evicting thread. */
  ghost predicate EvictorsAgree(s: System) {
    && (forall t :: t in s.evictors ==> s.evictors[t] in s.cache.entries && s.cache.entries[s.evictors[t]].Evicting?)
    && (forall id :: id in s.cache.entries && s.cache.entries[id].Evicting? ==>
          exists t :: t in s.evictors && s.evictors[t] == id)
    && (forall t, u :: t in s.evictors && u in s.evictors && s.evictors[t] == s.evictors[u] ==> t == u)
  }

  ghost function LeasesOf(leases: map<nat, Lease>, id: nat): set<nat> {
    set l | l in leases && leases[l].id == id
  }

  /** Every live lease maps to a ready entry of the same partition, and users counts the live leases. */
  ghost predicate LeasesAgree(s: System) {
    && (forall l :: l in s.leases ==> LeaseHolds(s.cache, s.leases[l]))
    && (forall id :: id in s.cache.entries && s.cache.entries[id].Ready? ==>
          s.cache.entries[id].users == |LeasesOf(s.leases, id)|)
  }

  predicate LeaseHolds(c: Cache, lease: Lease) {
    lease.id in c.entries && c.entries[lease.id].Ready? && c.entries[lease.id].partition == lease.partition
  }

  ghost predicate Invariant(cfg: Config, s: System) {
    Accounted(cfg, s.cache) && LoadersAgree(s) && EvictorsAgree(s) && LeasesAgree(s)
  }

  // Frames: what a locked section leaves alone keeps its part of the invariant.

  ghost predicate SameLoading(a: map<nat, Entry>, b: map<nat, Entry>) {
    forall id :: (id in a && Loading(a[id])) || (id in b && Loading(b[id])) ==> id in a && id in b && a[id] == b[id]
  }

  ghost predicate SameEvicting(a: map<nat, Entry>, b: map<nat, Entry>) {
    forall id :: (id in a && a[id].Evicting?) || (id in b && b[id].Evicting?) ==> id in a && id in b && a[id] == b[id]
  }

  predicate SameHold(d: Entry, e: Entry) {
    d.Ready? && e.Ready? && d.partition == e.partition && d.users == e.users
  }

  ghost predicate SameReady(a: map<nat, Entry>, b: map<nat, Entry>) {
    forall id :: (id in a && a[id].Ready?) || (id in b && b[id].Ready?) ==>
      id in a && id in b && SameHold(a[id], b[id])
  }

  lemma LoadersFrame(s: System, s': System)
    requires LoadersAgree(s) && s'.loaders == s.loaders && s'.cache.poisoned == s.cache.poisoned
    requires SameLoading(s.cache.entries, s'.cache.entries)
    ensures LoadersAgree(s')
  {
  }

  lemma EvictorsFrame(s: System, s': System)
    requires EvictorsAgree(s) && s'.evictors == s.evictors && SameEvicting(s.cache.entries, s'.cache.entries)
    ensures EvictorsAgree(s')
  {
  }

  lemma LeasesFrame(s: System, s': System)
    requires LeasesAgree(s) && s'.leases == s.leases && SameReady(s.cache.entries, s'.cache.entries)
    ensures LeasesAgree(s')
  {
    forall l | l in s.leases
      ensures LeaseHolds(s'.cache, s.leases[l])
    {
      assert LeaseHolds(s.cache, s.leases[l]);
    }
  }

  /** Replacing one present entry, with the bytes moved by the difference. */
  lemma AccountedReplace(cfg: Config, c: Cache, id: nat, e: Entry, c': Cache)
    requires Accounted(cfg, c) && id in c.entries && Sized(cfg, id, e)
    requires c'.entries == c.entries[id := e] && c'.high == c.high
    requires c'.bytes == c.bytes - EntryBytes(c.entries[id]) + EntryBytes(e) && c'.bytes <= c.high
    ensures Accounted(cfg, c')
  {
    TrackedUpdate(c.entries, id, e);
    assert c'.entries.Keys == c.entries.Keys;
  }

  lemma AccountedRemove(cfg: Config, c: Cache, id: nat, c': Cache)
    requires Accounted(cfg, c) && id in c.entries
    requires c'.entries == c.entries - {id} && c'.high == c.high
    requires c'.bytes == c.bytes - EntryBytes(c.entries[id])
    ensures Accounted(cfg, c')
  {
    TrackedWithout(c.entries, id);
    SubsetCount(c'.entries.Keys, c.entries.Keys);
  }

  lemma BytesCoverEntry(cfg: Config, c: Cache, id: nat)
    requires Accounted(cfg, c) && id in c.entries
    ensures EntryBytes(c.entries[id]) <= c.bytes
  {
    TrackedWithout(c.entries, id);
  }

  lemma AccountedSwept(cfg: Config, c: Cache, dropped: set<nat>, done: set<nat>)
    requires Accounted(cfg, c) && OnlyFailed(c.entries, dropped)
    ensures Accounted(cfg, SweptCache(c, dropped, done))
  {
    TrackedSwept(c.entries, dropped, done);
    SubsetCount(Swept(c.entries, dropped, done).Keys, c.entries.Keys);
  }

  lemma SweptFrames(entries: map<nat, Entry>, dropped: set<nat>, done: set<nat>)
    requires OnlyFailed(entries, dropped)
    ensures SameLoading(entries, Swept(entries, dropped, done))
    ensures SameEvicting(entries, Swept(entries, dropped, done))
    ensures SameReady(entries, Swept(entries, dropped, done))
  {
  }

  /** Dropping failed entries and pruning events changes nothing that is accounted, owned or leased. */
  lemma SweepKeeps(cfg: Config, s: System, dropped: set<nat>, done: set<nat>)
    requires Invariant(cfg, s) && OnlyFailed(s.cache.entries, dropped)
    ensures Invariant(cfg, s.(cache := SweptCache(s.cache, dropped, done)))
  {
    var s' := s.(cache := SweptCache(s.cache, dropped, done));
    AccountedSwept(cfg, s.cache, dropped, done);
    SweptFrames(s.cache.entries, dropped, done);
    LoadersFrame(s, s');
    EvictorsFrame(s, s');
    LeasesFrame(s, s');
  }

  lemma TickKeeps(cfg: Config, s: System)
    requires Invariant(cfg, s)
    ensures Invariant(cfg, s.(cache := Ticked(s.cache)))
  {
    var s' := s.(cache := Ticked(s.cache));
    LoadersFrame(s, s');
    EvictorsFrame(s, s');
    LeasesFrame(s, s');
  }

  lemma LeaseCount(leases: map<nat, Lease>, l: nat, lease: Lease, id: nat)
    requires l !in leases
    ensures |LeasesOf(leases[l := lease], id)| == |LeasesOf(leases, id)| + if lease.id == id then 1 else 0
  {
    if lease.id == id {
      assert LeasesOf(leases[l := lease], id) == LeasesOf(leases, id) + {l};
    } else {
      assert LeasesOf(leases[l := lease], id) == LeasesOf(leases, id);
    }
  }

  /** A new lease on an entry whose user count has just risen by one, or that has just become ready. */
  lemma LeaseAdded(s: System, s': System, l: nat, lease: Lease)
    requires LeasesAgree(s) && l !in s.leases && s'.leases == s.leases[l := lease] && LeaseHolds(s'.cache, lease)
    requires s'.cache.entries[lease.id].users == |LeasesOf(s.leases, lease.id)| + 1
    requires lease.id in s.cache.entries && s.cache.entries[lease.id].Ready? ==>
               s.cache.entries[lease.id].partition == lease.partition
    requires SameReady(s.cache.entries - {lease.id}, s'.cache.entries - {lease.id})
    ensures LeasesAgree(s')
  {
    forall i | i in s'.cache.entries && s'.cache.entries[i].Ready?
      ensures s'.cache.entries[i].users == |LeasesOf(s'.leases, i)|
    {
      LeaseCount(s.leases, l, lease, i);
      if i != lease.id {
        assert i in s'.cache.entries - {lease.id};
      }
    }
    forall k | k in s'.leases
      ensures LeaseHolds(s'.cache, s'.leases[k])
    {
      if k != l {
        assert LeaseHolds(s.cache, s.leases[k]);
        if s.leases[k].id != lease.id {
          assert s.leases[k].id in s.cache.entries - {lease.id};
        }
      }
    }
  }

  lemma HitKeeps(cfg: Config, s: System, lease: nat, id: nat, done: set<nat>)
    requires Invariant(cfg, s) && Enabled(cfg, s, Hit(lease, id, done))
    ensures Invariant(cfg, Apply(cfg, s, Hit(lease, id, done)))
  {
    var s' := Apply(cfg, s, Hit(lease, id, done));
    AccountedReplace(cfg, s.cache, id, s'.cache.entries[id], s'.cache);
    LoadersFrame(s, s');
    EvictorsFrame(s, s');
    LeaseAdded(s, s', lease, s'.leases[lease]);
  }

  lemma TakeFailureKeeps(cfg: Config, s: System, id: nat)
    requires Invariant(cfg, s) && Enabled(cfg, s, TakeFailure(id))
    ensures Invariant(cfg, Apply(cfg, s, TakeFailure(id)))
  {
    var s' := Apply(cfg, s, TakeFailure(id));
    AccountedRemove(cfg, s.cache, id, s'.cache);
    LoadersFrame(s, s');
    EvictorsFrame(s, s');
    LeasesFrame(s, s');
  }

  /** A new reservation belongs to its own loader and to no other. */
  lemma LoaderAdded(s: System, s': System, thread: nat, l: Loader)
    requires LoadersAgree(s) && !s.cache.poisoned && !s'.cache.poisoned && thread !in s.loaders && !l.copying
    requires l.id !in s.cache.entries && s'.loaders == s.loaders[thread := l]
    requires s'.cache.entries == s.cache.entries[l.id := Reservation(l)]
    ensures LoadersAgree(s')
  {
    forall i | i in s'.cache.entries && Loading(s'.cache.entries[i])
      ensures exists t :: t in s'.loaders && s'.loaders[t].id == i
    {
      if i == l.id {
        assert s'.loaders[thread].id == i;
      } else {
        var t :| t in s.loaders && s.loaders[t].id == i;
        assert s'.loaders[t].id == i;
      }
    }
  }

  lemma AccountedReserve(cfg: Config, c: Cache, id: nat, c': Cache)
    requires Accounted(cfg, c) && id < |cfg.required| && id !in c.entries
    requires HasRoom(cfg, c.entries, c.bytes, cfg.required[id])
    requires c' == Reserved(cfg, c, id)
    ensures Accounted(cfg, c')
  {
    TrackedUpdate(c.entries, id, HostLoading(cfg.required[id]));
    assert c'.entries.Keys == c.entries.Keys + {id};
  }

  lemma ReserveKeeps(cfg: Config, s: System, thread: nat, id: nat)
    requires cfg.Valid() && Invariant(cfg, s) && !s.cache.poisoned
    requires id < |cfg.required| && id !in s.cache.entries && thread !in s.loaders
    requires HasRoom(cfg, s.cache.entries, s.cache.bytes, cfg.required[id])
    ensures Invariant(cfg, s.(cache := Reserved(cfg, s.cache, id),
                              loaders := s.loaders[thread := Loader(id, cfg.required[id], false)]))
  {
    var l := Loader(id, cfg.required[id], false);
    var s' := s.(cache := Reserved(cfg, s.cache, id), loaders := s.loaders[thread := l]);
    AccountedReserve(cfg, s.cache, id, s'.cache);
    LoaderAdded(s, s', thread, l);
    EvictorsFrame(s, s');
    LeasesFrame(s, s');
  }

  lemma EvictorAdded(s: System, s': System, thread: nat, victim: nat)
    requires EvictorsAgree(s) && thread !in s.evictors && victim in s.cache.entries && !s.cache.entries[victim].Evicting?
    requires s'.evictors == s.evictors[thread := victim] && s'.cache.entries == s.cache.entries[victim := Evicting]
    ensures EvictorsAgree(s')
  {
    forall id | id in s'.cache.entries && s'.cache.entries[id].Evicting?
      ensures exists t :: t in s'.evictors && s'.evictors[t] == id
    {
      if id == victim {
        assert s'.evictors[thread] == id;
      } else {
        var t :| t in s.evictors && s.evictors[t] == id;
        assert s'.evictors[t] == id;
      }
    }
  }

  /** An idle entry has no lease, so evicting it leaves every lease in place. */
  lemma IdleHasNoLease(s: System, victim: nat, l: nat)
    requires LeasesAgree(s) && victim in s.cache.entries && Idle(s.cache.entries[victim]) && l in s.leases
    ensures s.leases[l].id != victim
  {
    assert l in LeasesOf(s.leases, s.leases[l].id);
  }

  lemma LeasesAfterEvict(s: System, s': System, victim: nat)
    requires LeasesAgree(s) && victim in s.cache.entries && Idle(s.cache.entries[victim])
    requires s'.leases == s.leases && s'.cache.entries == s.cache.entries[victim := Evicting]
    ensures LeasesAgree(s')
  {
    forall l | l in s.leases
      ensures LeaseHolds(s'.cache, s.leases[l])
    {
      IdleHasNoLease(s, victim, l);
      assert LeaseHolds(s.cache, s.leases[l]);
    }
  }

  lemma EvictKeeps(cfg: Config, s: System, thread: nat, victim: nat)
    requires cfg.Valid() && Invariant(cfg, s) && thread !in s.evictors
    requires victim in s.cache.entries && Idle(s.cache.entries[victim])
    ensures Invariant(cfg, s.(cache := Evicted(s.cache, victim),
                              evictors := s.evictors[thread := victim]))
  {
    var s' := s.(cache := Evicted(s.cache, victim), evictors := s.evictors[thread := victim]);
    BytesCoverEntry(cfg, s.cache, victim);
    AccountedReplace(cfg, s.cache, victim, Evicting, s'.cache);
    LoadersFrame(s, s');
    EvictorAdded(s, s', thread, victim);
    LeasesAfterEvict(s, s', victim);
  }

  lemma EvictorRemoved(s: System, s': System, thread: nat)
    requires EvictorsAgree(s) && thread in s.evictors && s'.evictors == s.evictors - {thread}
    requires s'.cache.entries == s.cache.entries - {s.evictors[thread]}
    ensures EvictorsAgree(s')
  {
    forall i | i in s'.cache.entries && s'.cache.entries[i].Evicting?
      ensures exists t :: t in s'.evictors && s'.evictors[t] == i
    {
      var t :| t in s.evictors && s.evictors[t] == i;
      assert s'.evictors[t] == i;
    }
  }

  lemma FinishEvictionKeeps(cfg: Config, s: System, thread: nat)
    requires Invariant(cfg, s) && thread in s.evictors
    ensures Invariant(cfg, Apply(cfg, s, FinishEviction(thread)))
  {
    var s' := Apply(cfg, s, FinishEviction(thread));
    AccountedRemove(cfg, s.cache, s.evictors[thread], s'.cache);
    LoadersFrame(s, s');
    EvictorRemoved(s, s', thread);
    LeasesFrame(s, s');
  }

  lemma LoaderCopies(s: System, s': System, thread: nat)
    requires LoadersAgree(s) && !s.cache.poisoned && !s'.cache.poisoned && thread in s.loaders
    requires s'.loaders == s.loaders[thread := s.loaders[thread].(copying := true)]
    requires s'.cache.entries == s.cache.entries[s.loaders[thread].id := Copying(s.loaders[thread].bytes)]
    ensures LoadersAgree(s')
  {
    forall i | i in s'.cache.entries && Loading(s'.cache.entries[i])
      ensures exists t :: t in s'.loaders && s'.loaders[t].id == i
    {
      var t :| t in s.loaders && s.loaders[t].id == i;
      assert s'.loaders[t].id == i;
    }
  }

  lemma LoaderGoneAfterPoison(s: System, s': System, thread: nat)
    requires LoadersAgree(s) && s'.cache == s.cache && s.cache.poisoned && s'.loaders == s.loaders - {thread}
    ensures LoadersAgree(s')
  {
  }

  lemma BeginCopyKeeps(cfg: Config, s: System, thread: nat)
    requires Invariant(cfg, s) && Enabled(cfg, s, BeginCopy(thread))
    ensures Invariant(cfg, Apply(cfg, s, BeginCopy(thread)))
  {
    var s' := Apply(cfg, s, BeginCopy(thread));
    var l := s.loaders[thread];
    if s.cache.poisoned {
      LoaderGoneAfterPoison(s, s', thread);
    } else {
      assert s.cache.entries[l.id] == HostLoading(l.bytes);
      AccountedReplace(cfg, s.cache, l.id, Copying(l.bytes), s'.cache);
      LoaderCopies(s, s', thread);
    }
    EvictorsFrame(s, s');
    LeasesFrame(s, s');
  }

  /** A loader that leaves takes its own reservation with it and no other. */
  lemma LoaderRemoved(s: System, s': System, thread: nat)
    requires LoadersAgree(s) && !s.cache.poisoned && thread in s.loaders
    requires s'.loaders == s.loaders - {thread} && s'.cache.poisoned == s.cache.poisoned
    requires SameLoading(s.cache.entries - {s.loaders[thread].id}, s'.cache.entries - {s.loaders[thread].id})
    requires s.loaders[thread].id in s'.cache.entries ==> !Loading(s'.cache.entries[s.loaders[thread].id])
    ensures LoadersAgree(s')
  {
    var id := s.loaders[thread].id;
    forall i | i in s'.cache.entries && Loading(s'.cache.entries[i])
      ensures exists t :: t in s'.loaders && s'.loaders[t].id == i
    {
      assert i in s'.cache.entries - {id};
      var t :| t in s.loaders && s.loaders[t].id == i;
      assert s'.loaders[t].id == i;
    }
    forall t | t in s'.loaders
      ensures s'.loaders[t].id in s'.cache.entries && s'.cache.entries[s'.loaders[t].id] == Reservation(s'.loaders[t])
    {
      assert s.loaders[t].id in s.cache.entries - {id};
    }
  }

  lemma ReservedHasNoLease(s: System, id: nat)
    requires LeasesAgree(s) && id in s.cache.entries && !s.cache.entries[id].Ready?
    ensures LeasesOf(s.leases, id) == {}
  {
    if l :| l in LeasesOf(s.leases, id) {
      assert LeaseHolds(s.cache, s.leases[l]);
    }
  }

  lemma FinishCopyKeeps(cfg: Config, s: System, thread: nat, lease: nat, identity: nat)
    requires Invariant(cfg, s) && Enabled(cfg, s, FinishCopy(thread, lease, identity))
    ensures Invariant(cfg, Apply(cfg, s, FinishCopy(thread, lease, identity)))
  {
    var s' := Apply(cfg, s, FinishCopy(thread, lease, identity));
    var l := s.loaders[thread];
    if s.cache.poisoned {
      LoaderGoneAfterPoison(s, s', thread);
      LeasesFrame(s, s');
    } else {
      assert s.cache.entries[l.id] == Copying(l.bytes);
      AccountedReplace(cfg, s.cache, l.id, s'.cache.entries[l.id], s'.cache);
      LoaderRemoved(s, s', thread);
      ReservedHasNoLease(s, l.id);
      LeaseAdded(s, s', lease, s'.leases[lease]);
    }
    EvictorsFrame(s, s');
  }

  lemma CancelKeeps(cfg: Config, s: System, thread: nat)
    requires Invariant(cfg, s) && Enabled(cfg, s, Cancel(thread))
    ensures Invariant(cfg, Apply(cfg, s, Cancel(thread)))
  {
    var s' := Apply(cfg, s, Cancel(thread));
    var l := s.loaders[thread];
    if s.cache.poisoned {
      LoaderGoneAfterPoison(s, s', thread);
    } else {
      BytesCoverEntry(cfg, s.cache, l.id);
      AccountedRemove(cfg, s.cache, l.id, s'.cache);
      LoaderRemoved(s, s', thread);
    }
    EvictorsFrame(s, s');
    LeasesFrame(s, s');
  }

  lemma FailKeeps(cfg: Config, s: System, thread: nat)
    requires Invariant(cfg, s) && thread in s.loaders
    ensures Invariant(cfg, Apply(cfg, s, Fail(thread, false)))
  {
    var s' := Apply(cfg, s, Fail(thread, false));
    var l := s.loaders[thread];
    if s.cache.poisoned {
      LoaderGoneAfterPoison(s, s', thread);
    } else {
      BytesCoverEntry(cfg, s.cache, l.id);
      AccountedReplace(cfg, s.cache, l.id, Failed, s'.cache);
      LoaderRemoved(s, s', thread);
    }
    EvictorsFrame(s, s');
    LeasesFrame(s, s');
  }

  lemma AccountedPoison(cfg: Config, c: Cache)
    requires Accounted(cfg, c)
    ensures Accounted(cfg, AfterPoison(c))
  {
    TrackedFailAll(c.entries);
    assert AfterPoison(c).entries.Keys == c.entries.Keys;
  }

  lemma FailAllFrames(entries: map<nat, Entry>)
    ensures SameEvicting(entries, FailAll(entries)) && SameReady(entries, FailAll(entries))
  {
  }

  lemma NoLoadersNeeded(s: System)
    requires s.cache.poisoned && forall id :: id in s.cache.entries ==> !Loading(s.cache.entries[id])
    ensures LoadersAgree(s)
  {
  }

  lemma PoisonKeeps(cfg: Config, s: System, thread: nat)
    requires Invariant(cfg, s) && thread in s.loaders
    ensures Invariant(cfg, Apply(cfg, s, Fail(thread, true)))
  {
    var s' := Apply(cfg, s, Fail(thread, true));
    AccountedPoison(cfg, s.cache);
    NoLoadersNeeded(s');
    FailAllFrames(s.cache.entries);
    EvictorsFrame(s, s');
    LeasesFrame(s, s');
  }

  lemma RecordKeeps(cfg: Config, s: System, lease: nat, event: nat)
    requires Invariant(cfg, s) && lease in s.leases
    ensures Invariant(cfg, Apply(cfg, s, Record(lease, event)))
  {
    var id := s.leases[lease].id;
    assert LeaseHolds(s.cache, s.leases[lease]);
    var s' := Apply(cfg, s, Record(lease, event));
    AccountedReplace(cfg, s.cache, id, s'.cache.entries[id], s'.cache);
    LoadersFrame(s, s');
    EvictorsFrame(s, s');
    LeasesFrame(s, s');
  }

  lemma LeaseRemoved(s: System, s': System, l: nat)
    requires LeasesAgree(s) && l in s.leases && s'.leases == s.leases - {l} && LeaseHolds(s'.cache, s.leases[l])
    requires s'.cache.entries[s.leases[l].id].users == |LeasesOf(s.leases, s.leases[l].id)| - 1
    requires SameReady(s.cache.entries - {s.leases[l].id}, s'.cache.entries - {s.leases[l].id})
    ensures LeasesAgree(s')
  {
    var lease := s.leases[l];
    assert s.leases == s'.leases[l := lease];
    forall i | i in s'.cache.entries && s'.cache.entries[i].Ready?
      ensures s'.cache.entries[i].users == |LeasesOf(s'.leases, i)|
    {
      LeaseCount(s'.leases, l, lease, i);
      if i != lease.id {
        assert i in s'.cache.entries - {lease.id};
      }
    }
    forall k | k in s'.leases
      ensures LeaseHolds(s'.cache, s'.leases[k])
    {
      assert LeaseHolds(s.cache, s.leases[k]) && LeaseHolds(s.cache, lease);
      if s.leases[k].id != lease.id {
        assert s.leases[k].id in s.cache.entries - {lease.id};
      }
    }
  }

  lemma ReleaseKeeps(cfg: Config, s: System, lease: nat)
    requires Invariant(cfg, s) && lease in s.leases
    ensures Invariant(cfg, Apply(cfg, s, Release(lease)))
  {
    var id := s.leases[lease].id;
    assert LeaseHolds(s.cache, s.leases[lease]);
    assert lease in LeasesOf(s.leases, id);
    var s' := Apply(cfg, s, Release(lease));
    AccountedReplace(cfg, s.cache, id, s'.cache.entries[id], s'.cache);
    LoadersFrame(s, s');
    EvictorsFrame(s, s');
    LeaseRemoved(s, s', lease);
  }

  // The sections that call prepare_slot act as a sweep followed by the decision.

  lemma SweptReserveKeeps(cfg: Config, s: System, thread: nat, id: nat, dropped: set<nat>, done: set<nat>)
    requires cfg.Valid() && Invariant(cfg, s) && Enabled(cfg, s, Reserve(thread, id, dropped, done))
    ensures Invariant(cfg, Apply(cfg, s, Reserve(thread, id, dropped, done)))
  {
    var swept := s.(cache := SweptCache(s.cache, dropped, done));
    SweepKeeps(cfg, s, dropped, done);
    ReserveKeeps(cfg, swept, thread, id);
  }

  lemma SweptEvictKeeps(cfg: Config, s: System, thread: nat, id: nat, dropped: set<nat>, done: set<nat>, victim: nat)
    requires cfg.Valid() && Invariant(cfg, s) && Enabled(cfg, s, Evict(thread, id, dropped, done, victim))
    ensures Invariant(cfg, Apply(cfg, s, Evict(thread, id, dropped, done, victim)))
  {
    var swept := s.(cache := SweptCache(s.cache, dropped, done));
    SweepKeeps(cfg, s, dropped, done);
    assert victim !in dropped;
    EvictKeeps(cfg, swept, thread, victim);
  }

  lemma DeferKeeps(cfg: Config, s: System, id: nat, dropped: set<nat>, done: set<nat>)
    requires Invariant(cfg, s) && Enabled(cfg, s, Defer(id, dropped, done))
    ensures Invariant(cfg, Apply(cfg, s, Defer(id, dropped, done)))
  {
    SweepKeeps(cfg, s, dropped, done);
    TickKeeps(cfg, s.(cache := SweptCache(s.cache, dropped, done)));
  }

  lemma ObserveKeeps(cfg: Config, s: System, done: set<nat>)
    requires Invariant(cfg, s)
    ensures Invariant(cfg, Apply(cfg, s, Observe(done)))
  {
    SweepKeeps(cfg, s, {}, done);
    assert Apply(cfg, s, Observe(done)) == s.(cache := SweptCache(s.cache, {}, done));
  }

  /** Every locked section, in every branch, keeps the invariant. */
  lemma ApplyKeeps(cfg: Config, s: System, a: Action)
    requires cfg.Valid() && Invariant(cfg, s) && Enabled(cfg, s, a)
    ensures Invariant(cfg, Apply(cfg, s, a))
  {
    match a {
      case Hit(lease, id, done) => HitKeeps(cfg, s, lease, id, done);
      case TakeFailure(id) => TakeFailureKeeps(cfg, s, id);
      case WaitForEntry(_) => TickKeeps(cfg, s);
      case Reserve(thread, id, dropped, done) => SweptReserveKeeps(cfg, s, thread, id, dropped, done);
      case Evict(thread, id, dropped, done, victim) => SweptEvictKeeps(cfg, s, thread, id, dropped, done, victim);
      case Defer(id, dropped, done) => DeferKeeps(cfg, s, id, dropped, done);
      case FinishEviction(thread) => FinishEvictionKeeps(cfg, s, thread);
      case BeginCopy(thread) => BeginCopyKeeps(cfg, s, thread);
      case FinishCopy(thread, lease, identity) => FinishCopyKeeps(cfg, s, thread, lease, identity);
      case Cancel(thread) => CancelKeeps(cfg, s, thread);
      case Fail(thread, poisons) =>
        if poisons {
          PoisonKeeps(cfg, s, thread);
        } else {
          FailKeeps(cfg, s, thread);
        }
      case Record(lease, event) => RecordKeeps(cfg, s, lease, event);
      case Release(lease) => ReleaseKeeps(cfg, s, lease);
      case Observe(done) => ObserveKeeps(cfg, s, done);
    }
  }
}
