/**
  The work counters of a search. A block leader adds its block's share of the examined
  and attempted counts before its threads pass the block's barrier; a thread adds one
  update per successful exchange. Whatever the block size and the schedule, a successful
  launch examines each of its tasks once, attempts exactly its counted tasks, and updates
  at most its attempts.
 */
module WorkCounters {
  import opened Basics
  import opened RoutingGraph
  import opened Kernels
  import opened Passes
  import opened FrontierSearch
  import opened DeltaSearch

  // Sums over the tasks of a launch.

  ghost function Total(n: nat, f: nat -> nat): nat {
    if n == 0 then 0 else Total(n - 1, f) + f(n - 1)
  }

  lemma {:induction false} TotalSame(n: nat, f: nat -> nat, g: nat -> nat)
    requires forall t: nat :: t < n ==> f(t) == g(t)
    ensures Total(n, f) == Total(n, g)
  {
    if n > 0 {
      TotalSame(n - 1, f, g);
    }
  }

  lemma {:induction false} TotalBelow(n: nat, f: nat -> nat, g: nat -> nat)
    requires forall t: nat :: t < n ==> f(t) <= g(t)
    ensures Total(n, f) <= Total(n, g)
  {
    if n > 0 {
      TotalBelow(n - 1, f, g);
    }
  }

  lemma {:induction false} TotalChange(n: nat, f: nat -> nat, g: nat -> nat, k: nat)
    requires k < n && forall t: nat :: t < n && t != k ==> f(t) == g(t)
    ensures Total(n, g) + f(k) == Total(n, f) + g(k)
  {
    if k < n - 1 {
      TotalChange(n - 1, f, g, k);
    } else {
      TotalSame(n - 1, f, g);
    }
  }

  lemma {:induction false} TotalOfOnes(n: nat, f: nat -> nat)
    requires forall t: nat :: t < n ==> f(t) == 1
    ensures Total(n, f) == n
  {
    if n > 0 {
      TotalOfOnes(n - 1, f);
    }
  }

  lemma {:induction false} TotalOfZeros(n: nat, f: nat -> nat)
    requires forall t: nat :: t < n ==> f(t) == 0
    ensures Total(n, f) == 0
  {
    if n > 0 {
      TotalOfZeros(n - 1, f);
    }
  }

  /** The sum over a range of indexes. */
  ghost function RangeTotal(lo: nat, hi: nat, w: nat -> nat): nat {
    if lo >= hi then 0 else RangeTotal(lo, hi - 1, w) + w(hi - 1)
  }

  /** Adding w on one range adds the sum of w over the range. */
  lemma {:induction false} TotalRange(n: nat, f: nat -> nat, g: nat -> nat, w: nat -> nat, lo: nat, hi: nat)
    requires lo <= hi <= n && forall t: nat :: t < n ==> g(t) == f(t) + if lo <= t < hi then w(t) else 0
    ensures Total(n, g) == Total(n, f) + RangeTotal(lo, hi, w)
  {
    if n > 0 {
      if lo == n {
        TotalSame(n, f, g);
      } else {
        TotalRange(n - 1, f, g, w, lo, if hi == n then hi - 1 else hi);
      }
    }
  }

  // The tasks of a block.

  lemma QuotientBounds(t: nat, d: nat)
    requires d > 0
    ensures (t / d) * d <= t < (t / d + 1) * d
  {
  }

  /** A task lies in the range of a block exactly when the block's leader is its own. */
  lemma BlockRange(n: nat, blockSize: nat, b: nat, t: nat)
    requires blockSize > 0 && t < n
    ensures t / blockSize == b <==> b * blockSize <= t < BlockEnd(n, blockSize, b)
  {
    QuotientBounds(t, blockSize);
    Scale(t / blockSize + 1, b, blockSize);
    Scale(b + 1, t / blockSize, blockSize);
  }

  lemma BlockIsNotEmpty(n: nat, blockSize: nat, b: nat)
    requires blockSize > 0 && b < BlockCount(n, blockSize)
    ensures b * blockSize < BlockEnd(n, blockSize, b) <= n
    ensures (b * blockSize) / blockSize == b
  {
    QuotientBounds(n - 1, blockSize);
    Scale(b, (n - 1) / blockSize, blockSize);
    assert (b + 1) * blockSize == b * blockSize + blockSize;
    BlockRange(n, blockSize, b, b * blockSize);
  }

  // What the counters count.

  predicate HasExamined(leader: Leader) {
    leader.Examined? || leader.AddsAttempts? || leader.Passed?
  }

  function LeaderOf(s: Launch, t: nat): Leader {
    if s.blockSize > 0 && t / s.blockSize < |s.leaders| then s.leaders[t / s.blockSize] else Fresh
  }

  ghost function ExaminedAt(s: Launch): nat -> nat {
    (t: nat) => if HasExamined(LeaderOf(s, t)) then 1 else 0
  }

  function CountedTask(net: Network, kind: Kind, tasks: seq<Arc>, t: nat): nat {
    if t < |tasks| && Counted(net, kind, tasks[t]) then 1 else 0
  }

  ghost function CountedAt(net: Network, kind: Kind, tasks: seq<Arc>): nat -> nat {
    (t: nat) => CountedTask(net, kind, tasks, t)
  }

  ghost function AttemptedAt(net: Network, kind: Kind, tasks: seq<Arc>, s: Launch): nat -> nat {
    (t: nat) => if LeaderOf(s, t) == Passed then CountedTask(net, kind, tasks, t) else 0
  }

  ghost function StartedAt(net: Network, kind: Kind, tasks: seq<Arc>, s: Launch): nat -> nat {
    (t: nat) => if t < |s.threads| && !s.threads[t].Pending? then CountedTask(net, kind, tasks, t) else 0
  }

  ghost function HeldAt(s: Launch): nat -> nat {
    (t: nat) => if t < |s.threads| && s.threads[t].Holding? then 1 else 0
  }

  /** A thread past the barrier has a leader past it, and a thread holds only for a counted task. */
  ghost predicate ThreadsFollow(net: Network, kind: Kind, tasks: seq<Arc>, s: Launch)
    requires |s.threads| == |tasks|
  {
    && (forall t :: 0 <= t < |tasks| && !s.threads[t].Pending? ==> LeaderOf(s, t) == Passed)
    && (forall t :: 0 <= t < |tasks| && s.threads[t].Holding? ==> Counted(net, kind, tasks[t]))
  }

  ghost predicate LeadersCount(net: Network, kind: Kind, tasks: seq<Arc>, m: Memory, s: Launch) {
    && s.memory.examined == m.examined + Total(|tasks|, ExaminedAt(s))
    && s.memory.attempts == m.attempts + Total(|tasks|, AttemptedAt(net, kind, tasks, s))
  }

  ghost predicate UpdatesCount(net: Network, kind: Kind, tasks: seq<Arc>, m: Memory, s: Launch) {
    m.updates <= s.memory.updates
    && s.memory.updates + Total(|tasks|, HeldAt(s)) <= m.updates + Total(|tasks|, StartedAt(net, kind, tasks, s))
  }

  /** While nothing has failed, the counters are what leaders have added and threads have written. */
  ghost predicate Counts(net: Network, kind: Kind, tasks: seq<Arc>, m: Memory, s: Launch)
    requires LaunchShaped(net, tasks, s)
  {
    && ThreadsFollow(net, kind, tasks, s)
    && (s.memory.status == SUCCESS ==> LeadersCount(net, kind, tasks, m, s) && UpdatesCount(net, kind, tasks, m, s))
  }

  // Leader steps.

  lemma LeaderMoves(s: Launch, r: Launch, b: nat, t: nat, n: nat)
    requires s.blockSize > 0 && r.blockSize == s.blockSize && b < |s.leaders| == |r.leaders|
    requires r.leaders == s.leaders[b := r.leaders[b]] && t < n && |s.leaders| == BlockCount(n, s.blockSize)
    ensures LeaderOf(r, t)
            == if b * s.blockSize <= t < BlockEnd(n, s.blockSize, b) then r.leaders[b] else LeaderOf(s, t)
    ensures b * s.blockSize <= t < BlockEnd(n, s.blockSize, b) ==> LeaderOf(s, t) == s.leaders[b]
  {
    BlockRange(n, s.blockSize, b, t);
    ThreadHasLeader(n, s.blockSize, t);
  }

  lemma {:induction false} CountedInIsTotal(net: Network, kind: Kind, tasks: seq<Arc>, lo: nat, hi: nat)
    requires hi <= |tasks|
    ensures CountedIn(net, kind, tasks, lo, hi) == RangeTotal(lo, hi, CountedAt(net, kind, tasks))
  {
    if lo < hi {
      CountedInIsTotal(net, kind, tasks, lo, hi - 1);
    }
  }

  lemma {:induction false} RangeOfOnes(lo: nat, hi: nat)
    ensures RangeTotal(lo, hi, (t: nat) => 1) == if lo <= hi then hi - lo else 0
  {
    if lo < hi {
      RangeOfOnes(lo, hi - 1);
    }
  }

  lemma OnesOnRange(n: nat, f: nat -> nat, g: nat -> nat, lo: nat, hi: nat)
    requires lo <= hi <= n && forall t: nat :: t < n ==> g(t) == f(t) + if lo <= t < hi then 1 else 0
    ensures Total(n, g) == Total(n, f) + (hi - lo)
  {
    var w := (t: nat) => 1;
    assert forall t: nat :: t < n ==> g(t) == f(t) + if lo <= t < hi then w(t) else 0;
    TotalRange(n, f, g, w, lo, hi);
    RangeOfOnes(lo, hi);
  }

  lemma LeadMarks(net: Network, kind: Kind, tasks: seq<Arc>, s: Launch, b: nat, t: nat)
    requires LaunchShaped(net, tasks, s) && b < |s.leaders| && t < |tasks|
    requires Lead(net, kind, tasks, s, b).memory.status == SUCCESS
    ensures var r := Lead(net, kind, tasks, s, b);
            var inside := b * s.blockSize <= t < BlockEnd(|tasks|, s.blockSize, b);
            && ExaminedAt(r)(t) == ExaminedAt(s)(t) + (if inside && s.leaders[b].AddsExamined? then 1 else 0)
            && AttemptedAt(net, kind, tasks, r)(t) == AttemptedAt(net, kind, tasks, s)(t)
               + (if inside && s.leaders[b].AddsAttempts? then CountedTask(net, kind, tasks, t) else 0)
  {
    LeaderMoves(s, Lead(net, kind, tasks, s, b), b, t, |tasks|);
  }

  lemma LeadAdds(net: Network, kind: Kind, tasks: seq<Arc>, s: Launch, b: nat)
    requires LaunchShaped(net, tasks, s) && b < |s.leaders|
    ensures var r := Lead(net, kind, tasks, s, b);
            var lo, hi := b * s.blockSize, BlockEnd(|tasks|, s.blockSize, b);
            && r.memory.examined == s.memory.examined + (if s.leaders[b].AddsExamined? then hi - lo else 0)
            && r.memory.attempts == s.memory.attempts
               + (if s.leaders[b].AddsAttempts? then CountedIn(net, kind, tasks, lo, hi) else 0)
  {
    BlockIsNotEmpty(|tasks|, s.blockSize, b);
  }

  lemma LeadExaminedAt(net: Network, kind: Kind, tasks: seq<Arc>, s: Launch, b: nat)
    requires LaunchShaped(net, tasks, s) && b < |s.leaders|
    requires Lead(net, kind, tasks, s, b).memory.status == SUCCESS
    ensures var lo, hi := b * s.blockSize, BlockEnd(|tasks|, s.blockSize, b);
            forall t: nat :: t < |tasks| ==>
              ExaminedAt(Lead(net, kind, tasks, s, b))(t)
              == ExaminedAt(s)(t) + if lo <= t < hi && s.leaders[b].AddsExamined? then 1 else 0
  {
    var lo, hi := b * s.blockSize, BlockEnd(|tasks|, s.blockSize, b);
    forall t: nat | t < |tasks|
      ensures ExaminedAt(Lead(net, kind, tasks, s, b))(t)
              == ExaminedAt(s)(t) + if lo <= t < hi && s.leaders[b].AddsExamined? then 1 else 0
    {
      LeadMarks(net, kind, tasks, s, b, t);
    }
  }

  lemma LeadAttemptedAt(net: Network, kind: Kind, tasks: seq<Arc>, s: Launch, b: nat)
    requires LaunchShaped(net, tasks, s) && b < |s.leaders|
    requires Lead(net, kind, tasks, s, b).memory.status == SUCCESS
    ensures var lo, hi := b * s.blockSize, BlockEnd(|tasks|, s.blockSize, b);
            forall t: nat :: t < |tasks| ==>
              AttemptedAt(net, kind, tasks, Lead(net, kind, tasks, s, b))(t)
              == AttemptedAt(net, kind, tasks, s)(t)
                 + if lo <= t < hi && s.leaders[b].AddsAttempts? then CountedAt(net, kind, tasks)(t) else 0
  {
    var lo, hi := b * s.blockSize, BlockEnd(|tasks|, s.blockSize, b);
    forall t: nat | t < |tasks|
      ensures AttemptedAt(net, kind, tasks, Lead(net, kind, tasks, s, b))(t)
              == AttemptedAt(net, kind, tasks, s)(t)
                 + if lo <= t < hi && s.leaders[b].AddsAttempts? then CountedAt(net, kind, tasks)(t) else 0
    {
      LeadMarks(net, kind, tasks, s, b, t);
    }
  }

  /** The examined total moves exactly with the leader's own addition. */
  lemma LeadExamines(net: Network, kind: Kind, tasks: seq<Arc>, s: Launch, b: nat)
    requires LaunchShaped(net, tasks, s) && b < |s.leaders|
    requires Lead(net, kind, tasks, s, b).memory.status == SUCCESS
    ensures Total(|tasks|, ExaminedAt(Lead(net, kind, tasks, s, b))) - Total(|tasks|, ExaminedAt(s))
            == Lead(net, kind, tasks, s, b).memory.examined - s.memory.examined
  {
    var f, g := ExaminedAt(s), ExaminedAt(Lead(net, kind, tasks, s, b));
    var lo, hi := b * s.blockSize, BlockEnd(|tasks|, s.blockSize, b);
    BlockIsNotEmpty(|tasks|, s.blockSize, b);
    LeadAdds(net, kind, tasks, s, b);
    LeadExaminedAt(net, kind, tasks, s, b);
    if s.leaders[b].AddsExamined? {
      OnesOnRange(|tasks|, f, g, lo, hi);
    } else {
      TotalSame(|tasks|, f, g);
    }
  }

  lemma CountedOnRange(net: Network, kind: Kind, tasks: seq<Arc>, f: nat -> nat, g: nat -> nat, lo: nat, hi: nat)
    requires lo <= hi <= |tasks|
    requires forall t: nat :: t < |tasks| ==>
               g(t) == f(t) + if lo <= t < hi then CountedAt(net, kind, tasks)(t) else 0
    ensures Total(|tasks|, g) == Total(|tasks|, f) + CountedIn(net, kind, tasks, lo, hi)
  {
    TotalRange(|tasks|, f, g, CountedAt(net, kind, tasks), lo, hi);
    CountedInIsTotal(net, kind, tasks, lo, hi);
  }

  lemma LeadAttempts(net: Network, kind: Kind, tasks: seq<Arc>, s: Launch, b: nat)
    requires LaunchShaped(net, tasks, s) && b < |s.leaders|
    requires Lead(net, kind, tasks, s, b).memory.status == SUCCESS
    ensures Total(|tasks|, AttemptedAt(net, kind, tasks, Lead(net, kind, tasks, s, b)))
            - Total(|tasks|, AttemptedAt(net, kind, tasks, s))
            == Lead(net, kind, tasks, s, b).memory.attempts - s.memory.attempts
  {
    var r := Lead(net, kind, tasks, s, b);
    var lo, hi := b * s.blockSize, BlockEnd(|tasks|, s.blockSize, b);
    var f, g := AttemptedAt(net, kind, tasks, s), AttemptedAt(net, kind, tasks, r);
    BlockIsNotEmpty(|tasks|, s.blockSize, b);
    LeadAdds(net, kind, tasks, s, b);
    LeadAttemptedAt(net, kind, tasks, s, b);
    if s.leaders[b].AddsAttempts? {
      CountedOnRange(net, kind, tasks, f, g, lo, hi);
    } else {
      TotalSame(|tasks|, f, g);
    }
  }

  lemma LeadFollows(net: Network, kind: Kind, tasks: seq<Arc>, s: Launch, b: nat)
    requires LaunchShaped(net, tasks, s) && b < |s.leaders| && ThreadsFollow(net, kind, tasks, s)
    ensures ThreadsFollow(net, kind, tasks, Lead(net, kind, tasks, s, b))
  {
    var r := Lead(net, kind, tasks, s, b);
    forall t | 0 <= t < |tasks| && !r.threads[t].Pending?
      ensures LeaderOf(r, t) == Passed
    {
      LeaderMoves(s, r, b, t, |tasks|);
    }
  }

  lemma LeadCounts(net: Network, kind: Kind, tasks: seq<Arc>, m: Memory, s: Launch, b: nat)
    requires LaunchShaped(net, tasks, s) && b < |s.leaders| && Counts(net, kind, tasks, m, s)
    ensures LaunchShaped(net, tasks, Lead(net, kind, tasks, s, b))
    ensures Counts(net, kind, tasks, m, Lead(net, kind, tasks, s, b))
  {
    var r := Lead(net, kind, tasks, s, b);
    LeadFollows(net, kind, tasks, s, b);
    if r.memory.status == SUCCESS {
      LeadExamines(net, kind, tasks, s, b);
      LeadAttempts(net, kind, tasks, s, b);
      TotalSame(|tasks|, HeldAt(s), HeldAt(r));
      TotalSame(|tasks|, StartedAt(net, kind, tasks, s), StartedAt(net, kind, tasks, r));
    }
  }

  // Thread steps.

  lemma WorkFollows(net: Network, kind: Kind, tasks: seq<Arc>, s: Launch, t: nat)
    requires LaunchShaped(net, tasks, s) && t < |tasks| && ThreadsFollow(net, kind, tasks, s)
    ensures ThreadsFollow(net, kind, tasks, Work(net, kind, tasks, s, t))
  {
    ThreadHasLeader(|tasks|, s.blockSize, t);
    assert forall i :: 0 <= i < |tasks| ==> LeaderOf(Work(net, kind, tasks, s, t), i) == LeaderOf(s, i);
  }

  lemma WorkLeavesLeaders(net: Network, kind: Kind, tasks: seq<Arc>, s: Launch, t: nat)
    requires LaunchShaped(net, tasks, s) && t < |tasks|
    ensures Total(|tasks|, ExaminedAt(Work(net, kind, tasks, s, t))) == Total(|tasks|, ExaminedAt(s))
    ensures Total(|tasks|, AttemptedAt(net, kind, tasks, Work(net, kind, tasks, s, t)))
            == Total(|tasks|, AttemptedAt(net, kind, tasks, s))
    ensures Work(net, kind, tasks, s, t).memory.examined == s.memory.examined
    ensures Work(net, kind, tasks, s, t).memory.attempts == s.memory.attempts
  {
    var r := Work(net, kind, tasks, s, t);
    assert forall i: nat :: LeaderOf(r, i) == LeaderOf(s, i);
    TotalSame(|tasks|, ExaminedAt(s), ExaminedAt(r));
    TotalSame(|tasks|, AttemptedAt(net, kind, tasks, s), AttemptedAt(net, kind, tasks, r));
  }

  /** What a thread's step does to its own state and to the update count. */
  lemma WorkCases(net: Network, kind: Kind, tasks: seq<Arc>, s: Launch, t: nat)
    requires LaunchShaped(net, tasks, s) && t < |tasks|
    ensures var r := Work(net, kind, tasks, s, t);
            || (r.threads == s.threads && r.memory.updates == s.memory.updates)
            || (s.threads[t].Pending? && !r.threads[t].Pending? && r.memory.updates == s.memory.updates)
            || (s.threads[t].Holding? && r.threads[t].Finished?
                && s.memory.updates <= r.memory.updates <= s.memory.updates + 1)
  {
  }

  lemma WorkUpdates(net: Network, kind: Kind, tasks: seq<Arc>, m: Memory, s: Launch, t: nat)
    requires LaunchShaped(net, tasks, s) && t < |tasks| && ThreadsFollow(net, kind, tasks, s)
    requires UpdatesCount(net, kind, tasks, m, s)
    ensures UpdatesCount(net, kind, tasks, m, Work(net, kind, tasks, s, t))
  {
    var r := Work(net, kind, tasks, s, t);
    WorkFollows(net, kind, tasks, s, t);
    WorkCases(net, kind, tasks, s, t);
    assert s.threads[t].Holding? || r.threads[t].Holding? ==> CountedTask(net, kind, tasks, t) == 1;
    var f, g := HeldAt(s), HeldAt(r);
    assert forall i: nat :: i < |tasks| && i != t ==> f(i) == g(i);
    TotalChange(|tasks|, f, g, t);
    var h, k := StartedAt(net, kind, tasks, s), StartedAt(net, kind, tasks, r);
    assert forall i: nat :: i < |tasks| && i != t ==> h(i) == k(i);
    TotalChange(|tasks|, h, k, t);
  }

  lemma WorkCounts(net: Network, kind: Kind, tasks: seq<Arc>, m: Memory, s: Launch, t: nat)
    requires LaunchShaped(net, tasks, s) && t < |tasks| && Counts(net, kind, tasks, m, s)
    ensures Counts(net, kind, tasks, m, Work(net, kind, tasks, s, t))
  {
    WorkFollows(net, kind, tasks, s, t);
    WorkLeavesLeaders(net, kind, tasks, s, t);
    if Work(net, kind, tasks, s, t).memory.status == SUCCESS {
      WorkUpdates(net, kind, tasks, m, s, t);
    }
  }

  lemma BeginCounts(net: Network, kind: Kind, tasks: seq<Arc>, blockSize: nat, m: Memory)
    requires Shaped(net, m) && blockSize > 0
    ensures LaunchShaped(net, tasks, Begin(tasks, blockSize, m))
    ensures Counts(net, kind, tasks, m, Begin(tasks, blockSize, m))
  {
    var s := Begin(tasks, blockSize, m);
    assert forall t: nat :: LeaderOf(s, t) == Fresh;
    TotalOfZeros(|tasks|, ExaminedAt(s));
    TotalOfZeros(|tasks|, AttemptedAt(net, kind, tasks, s));
    TotalOfZeros(|tasks|, HeldAt(s));
    TotalOfZeros(|tasks|, StartedAt(net, kind, tasks, s));
  }

  lemma {:induction false} ExecCounts(net: Network, kind: Kind, tasks: seq<Arc>, blockSize: nat, m: Memory,
                                      schedule: seq<Event>)
    requires Shaped(net, m) && ValidSchedule(tasks, blockSize, schedule)
    ensures Counts(net, kind, tasks, m, Exec(net, kind, tasks, blockSize, m, schedule))
  {
    if schedule == [] {
      BeginCounts(net, kind, tasks, blockSize, m);
    } else {
      var earlier := schedule[..|schedule| - 1];
      ExecCounts(net, kind, tasks, blockSize, m, earlier);
      var s := Exec(net, kind, tasks, blockSize, m, earlier);
      match schedule[|schedule| - 1] {
        case LeaderStep(b) => LeadCounts(net, kind, tasks, m, s, b);
        case ThreadStep(t) => WorkCounts(net, kind, tasks, m, s, t);
      }
    }
  }

  /** At the barrier the leaders have counted every task, whatever the block size. */
  lemma BarrierCounts(net: Network, kind: Kind, tasks: seq<Arc>, m: Memory, s: Launch)
    requires LaunchShaped(net, tasks, s) && Counts(net, kind, tasks, m, s) && AtBarrier(s)
    requires s.memory.status == SUCCESS
    ensures s.memory.examined == m.examined + |tasks|
    ensures s.memory.attempts == m.attempts + Total(|tasks|, CountedAt(net, kind, tasks))
    ensures m.updates <= s.memory.updates <= m.updates + Total(|tasks|, CountedAt(net, kind, tasks))
  {
    assert forall t :: 0 <= t < |tasks| ==> LeaderOf(s, t) == Passed;
    TotalOfOnes(|tasks|, ExaminedAt(s));
    TotalSame(|tasks|, AttemptedAt(net, kind, tasks, s), CountedAt(net, kind, tasks));
    TotalSame(|tasks|, StartedAt(net, kind, tasks, s), CountedAt(net, kind, tasks));
  }

  /** A successful launch, in blocks of any size: every task examined, every counted task attempted, no more updated. */
  lemma LaunchCounts(net: Network, kind: Kind, tasks: seq<Arc>, m: Memory, r: Memory)
    requires Shaped(net, m) && LaunchTakes(net, kind, tasks, m, r) && r.status == SUCCESS
    ensures r.examined == m.examined + |tasks|
    ensures r.attempts == m.attempts + Total(|tasks|, CountedAt(net, kind, tasks)) <= m.attempts + |tasks|
    ensures m.updates <= r.updates && r.updates - m.updates <= r.attempts - m.attempts
  {
    var blockSize: nat, schedule: seq<Event> :| Takes(net, kind, tasks, blockSize, m, schedule, r);
    ExecCounts(net, kind, tasks, blockSize, m, schedule);
    BarrierCounts(net, kind, tasks, m, Exec(net, kind, tasks, blockSize, m, schedule));
    CountedAtMostOnce(net, kind, tasks);
  }

  lemma CountedAtMostOnce(net: Network, kind: Kind, tasks: seq<Arc>)
    ensures Total(|tasks|, CountedAt(net, kind, tasks)) <= |tasks|
  {
    var ones := (t: nat) => 1;
    TotalBelow(|tasks|, CountedAt(net, kind, tasks), ones);
    TotalOfOnes(|tasks|, ones);
  }

  function TotalTasks(launches: seq<seq<Arc>>): nat {
    if launches == [] then 0 else TotalTasks(launches[..|launches| - 1]) + |launches[|launches| - 1]|
  }

  /**
    For every block size of every launch: a successful pass examines every compacted task once, attempts at most
    those, and updates at most its attempts.
   */
  lemma {:induction false} PassCounts(net: Network, kind: Kind, launches: seq<seq<Arc>>, m: Memory, r: Memory)
    requires Shaped(net, m) && PassTakes(net, kind, launches, m, r) && r.status == SUCCESS
    ensures r.examined == m.examined + TotalTasks(launches)
    ensures m.attempts <= r.attempts <= m.attempts + TotalTasks(launches)
    ensures m.updates <= r.updates && r.updates - m.updates <= r.attempts - m.attempts
  {
    if launches != [] {
      var earlier := launches[..|launches| - 1];
      var last := launches[|launches| - 1];
      var between :| Shaped(net, between) && PassTakes(net, kind, earlier, m, between)
        && LaunchTakes(net, kind, last, between, r);
      LaunchStatus(net, kind, last, between, r);
      PassCounts(net, kind, earlier, m, between);
      LaunchCounts(net, kind, last, between, r);
    }
  }

  /** How many steps of the schedule have lowered a distance. */
  ghost function Drops(net: Network, kind: Kind, tasks: seq<Arc>, blockSize: nat, m: Memory, schedule: seq<Event>): nat
    requires Shaped(net, m) && ValidSchedule(tasks, blockSize, schedule)
  {
    if schedule == [] then
      0
    else
      var earlier := schedule[..|schedule| - 1];
      Drops(net, kind, tasks, blockSize, m, earlier)
      + if Exec(net, kind, tasks, blockSize, m, schedule).memory.distance
           != Exec(net, kind, tasks, blockSize, m, earlier).memory.distance then 1 else 0
  }

  lemma StepUpdates(net: Network, kind: Kind, tasks: seq<Arc>, s: Launch, e: Event)
    requires LaunchShaped(net, tasks, s) && Happens(tasks, s, e)
    ensures var r := Advance(net, kind, tasks, s, e);
            r.memory.updates == s.memory.updates + if r.memory.distance != s.memory.distance then 1 else 0
  {
    var r := Advance(net, kind, tasks, s, e);
    if e.ThreadStep? && s.threads[e.thread].Holding? {
      var v := tasks[e.thread].destination;
      assert r.memory.distance[v] != s.memory.distance[v] || r.memory.distance == s.memory.distance;
    }
  }

  /** Updates count the steps that lowered a distance, one by one, in every interleaving. */
  lemma {:induction false} UpdatesAreDrops(net: Network, kind: Kind, tasks: seq<Arc>, blockSize: nat, m: Memory,
                                           schedule: seq<Event>)
    requires Shaped(net, m) && ValidSchedule(tasks, blockSize, schedule)
    ensures Exec(net, kind, tasks, blockSize, m, schedule).memory.updates
            == m.updates + Drops(net, kind, tasks, blockSize, m, schedule)
  {
    if schedule != [] {
      var earlier := schedule[..|schedule| - 1];
      UpdatesAreDrops(net, kind, tasks, blockSize, m, earlier);
      StepUpdates(net, kind, tasks, Exec(net, kind, tasks, blockSize, m, earlier), schedule[|schedule| - 1]);
    }
  }

  predicate InOrder(m: Memory) {
    m.updates <= m.attempts <= m.examined
  }

  lemma StepKeepsOrder(net: Network, s: State, s': State)
    requires Step(net, s, s') && InOrder(s.memory) && s'.memory.status == SUCCESS
    ensures InOrder(s'.memory)
  {
    if launches, r :| Phase(net, s, launches, r, s') {
      PassCounts(net, Frontier, launches, Cleared(net, s.memory), r);
    }
  }

  /** In every successful state of a frontier run, updates are at most attempts and attempts at most examined tasks. */
  lemma {:induction false} FrontierCountsInOrder(net: Network, o: nat, states: seq<State>, i: nat)
    requires net.WellFormed() && o < net.nodeCount && Run(net, o, states) && i < |states|
    requires states[i].memory.status == SUCCESS
    ensures InOrder(states[i].memory)
  {
    if i > 0 {
      RunKeeps(net, o, states, i - 1);
      assert StepAt(net, states, i - 1);
      FrontierCountsInOrder(net, o, states, i - 1);
      StepKeepsOrder(net, states[i - 1], states[i]);
    }
  }

  lemma DeltaStepKeepsOrder(net: Network, s: DeltaState, s': DeltaState)
    requires DeltaStep(net, s, s') && InOrder(s.memory) && s'.memory.status == SUCCESS
    ensures InOrder(s'.memory)
  {
    if s' == s.(stage := Stopped) {
    } else if s.stage == LightStage {
      var launches, r :| LightPass(net, s, launches, r, s');
      PassCounts(net, Light(s.bucket), launches, s.memory.(changed := false), r);
    } else {
      var launches, r :| HeavyPass(net, s, launches, r, s');
      PassCounts(net, Heavy(s.bucket), launches, s.memory, r);
    }
  }

  /** The same for delta-stepping, over its light and heavy passes. */
  lemma {:induction false} DeltaCountsInOrder(net: Network, o: nat, states: seq<DeltaState>, i: nat)
    requires Sane(net, o) && DeltaRun(net, o, states) && i < |states| && states[i].memory.status == SUCCESS
    ensures InOrder(states[i].memory)
  {
    if i > 0 {
      StepKeepsStatus(net, o, states, i - 1);
      assert DeltaStepAt(net, states, i - 1);
      DeltaCountsInOrder(net, o, states, i - 1);
      DeltaStepKeepsOrder(net, states[i - 1], states[i]);
    }
  }
}
