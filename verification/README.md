# PathHydra: verified model of the CUDA router and its boundary

PathHydra answers shortest-path requests on a GPU with lock-free parallel relaxation, over
a resident CSR image or over source-segment partitions that pass through a device cache.
This project models that core in Dafny and proves what it promises. Nothing here was
executed; every statement is checked by the verifier (`dafny verify dfyconfig.toml`).

**Exact distances.** A kernel launch is an arbitrary schedule of block leaders and two-step
threads, for any block size: a leader validates its block and adds to the counters, its
threads wait for it at the block's barrier, and a thread then loads its source distance and
some time later commits a minimum at its destination, so stale reads are part of every
theorem. Distances are the order-preserving bits of binary64, with infinity on top; a
walk's cost is the left fold of an addition that only has to be monotone and inflationary,
so rounded addition is covered and no associativity is used. The frontier search is exact
on every network and run, and its node-count phase limit suffices (`ConvergedIsExact`).
Delta-stepping is exact when every arc heavier than delta leaves the bucket of each simple
walk that it extends, unless that walk then meets every node (`SettledIsExact`); over all
networks of up to N nodes that condition is also necessary (`ExactIffAdvances`, and as a
condition on sums of at most N - 2 weights `ExactIffSumsAdvance`). Resident and partitioned
searches end alike, in either partition order (`TilesStoreTheSameArcs`,
`FrontierRunsAgree`, `DeltaRunsAgree`, `AlgorithmsAgree`), the host loops end with real
measures, and a whole distance-only request is carried from its destinations to a response
that the codec accepts and that is true (`RouteRequest.Route`). What the host cannot decide,
the cancellation flag and the grant of memory, is given in advance (`Hosts`), so every early
end has its cause: cancelled exactly when the last look found the flag up, failed only after
a refusal or on a walk that outgrows the numbers. No such walk exists for the frontier search
in the kernels' own arithmetic (`FrontierNeverFails`).

**A disagreement.** docs/cuda-routing.md presents CUDA routing as exact, and the
configuration accepts any positive finite delta (crates/pathhydra-cuda/src/algorithm.rs:14).
Delta-stepping does not meet this for every such delta: when a distance is large against
delta, a sum absorbs a further weight above delta, that heavy arc ends in the bucket just
processed, and `next_bucket` only looks past it. With delta 1, arcs of weight 2^55, 2 and 0
in a row end with the fourth node reported as unreachable (`DeltaOneIsInexact`); four nodes
are enough for every delta from 2^-307 to below 2^200 (`FourNodesAreInexact`). The exact
condition for networks of at most N nodes is the one on sums of at most N - 2 weights
(`KernelIsExactIffSumsAdvance`). For the networks the router accepts, whose node and
relation counts fit 32 bits (crates/pathhydra-cuda/src/launch.rs:536), it means:

- every delta from 2^-307 to below 2^234 fails on some network (`RouterIsInexact`);
- a power of two is exact on all of them if and only if it is at least 2^234
  (`PowerIsExactIff`), and so is every delta that no weight exceeds (`CoarseDeltaIsExact`);
- for other deltas above 2^234, and below 2^-307, the condition on sums decides.

For one network there is a check to make beforehand, on the node count, the weights and
delta: distances below 2^54 deltas and a delta that is a power of two, or distances below
2^53 deltas and a small margin of the heavy weights over delta, make every run exact, cycles
included (`CheckedDeltaIsExact`, `CycleIsChecked`). The model follows the code.

**The other three components** are state machines in which every atomic access, locked
section, counter update and send is a step. The objects of the source are classes that
carry the run they are in, so their methods rely on what holds in every run and extend it:
the device topology cache (`TopologyCache`, `CacheRuns`, `DeviceCache`), the CUDA worker
(`Scheduler`, `SchedulerRuns`, `ReplyCauses`, `WorkerLoop`), and the request protocol of facade and engine
(`Requests`, `RequestRuns`, `RequestObjects`). The scan that precedes deserialisation is
decided on arbitrary bytes (`JsonLexis`) and related to JSON trees in the grammar of
sections 2 to 7 of RFC 8259 (`JsonScanner`).

| files | contents |
|---|---|
| Basics, Binary64, DeviceAtomics | shared definitions; bit order and rounding; the compare-and-swap loops |
| RoutingGraph, Kernels, Passes | walks and exactness; one launch; a pass of launches; why they can fail |
| FrontierSearch, DeltaSearch, DeltaProgress | the two searches as runs, and their termination |
| DeltaNecessity, BinaryArithmetic, BucketSteps | why heavy arcs have to advance; the kernels' arithmetic and its buckets |
| DeltaBinary64, DeltaCondition, NodeLimit | when delta-stepping is exact: on one network, on all up to a size, and on all the router accepts |
| Compaction, Tiling, WorkCounters | task compaction, partitions, counters |
| Hosts, Router, Response, RouteRequest | the flag and the memory; the device and the host loops; the response; the whole request |
| TopologyCache, CacheRuns, DeviceCache | the device topology cache |
| Scheduler, SchedulerRuns, ReplyCauses, WorkerLoop | the CUDA worker |
| JsonLexis, JsonScanner | the scan before deserialisation, on bytes and on trees |
| Requests, RequestRuns, RequestObjects | identifiers, execution and cancellation |

## Model

| member | source | states |
|---|---|---|
| Binary64.BitOrderIsNumericOrder | crates/pathhydra-cuda/kernel/atomic.rs:30-57 | for sign-0 finite binary64 patterns, comparing bits is comparing values, both for order and for equality: why a `u64` minimum is a distance minimum |
| Binary64.NearestEvenIsRounding | crates/pathhydra-cuda/kernel/arithmetic.rs:16-23 | round-to-nearest-even is a monotone rounding that fixes every representable value |
| Binary64.RoundedSumInflates | crates/pathhydra-cuda/kernel/arithmetic.rs:16-23 | a rounded sum of non-negative values is never below its first summand and never above infinity |
| Binary64.RoundedSumIsMonotone | crates/pathhydra-cuda/kernel/arithmetic.rs:16-23 | a rounded sum is monotone in its first summand, so rounded addition meets everything the frontier search needs |
| Binary64.NearestEvenError | crates/pathhydra-cuda/kernel/arithmetic.rs:16-23 | rounding to nearest loses at most half the gap between neighbouring binary64 values |
| Binary64.SmallSummandVanishes | crates/pathhydra-cuda/kernel/arithmetic.rs:16-23 | a summand below half the gap above a value is lost by the rounding, and half the gap above an even pattern: the fact behind every heavy arc that stays in its bucket |
| DeviceAtomics.ConcurrentMinimum | crates/pathhydra-cuda/kernel/atomic.rs:30-57 | for any number of `distance_min` calls, any interleaving of their loads and exchanges and any spurious failures, the slot ends at the minimum of its start and all candidates, and the calls that return true are as many as its strict decreases |
| DeviceAtomics.StepRefinesAtomicMinimum | crates/pathhydra-cuda/kernel/atomic.rs:30-57 | every step of the retry loop either leaves the slot alone or is one atomic minimum with its candidate, so a commit may be modelled as one step |
| DeviceAtomics.ConcurrentSum | crates/pathhydra-cuda/kernel/atomic.rs:62-106 | concurrent retry-loop additions end at the start value plus every operand exactly once |
| RoutingGraph.FixpointIsExact | docs/cuda-routing.md:1-3 | a sound distance array in which every enabled arc is relaxed and the origin is 0 is exactly the least walk costs, for any monotone inflationary addition |
| RoutingGraph.ExactIsUnique | docs/cuda-routing.md:1-3 | there is only one exact distance array per network and origin |
| RoutingGraph.ExactExists | docs/cuda-routing.md:1-3 | there is one: every well-formed network has least walk costs |
| RoutingGraph.ShortWalksSuffice | crates/pathhydra-cuda/src/launch.rs:859-960 | an array below all walks of at most nodeCount - 1 arcs is below all walks: cutting cycles never raises a left-folded cost, even without associativity |
| RoutingGraph.SpanningIsTopmost | crates/pathhydra-cuda/src/launch.rs:1131-1183 | a label traced along a walk that meets every node is the largest of all labels, so no arc out of its node can improve anything: why the last node of a walk need not leave its bucket |
| Kernels.ExecKeeps | crates/pathhydra-cuda/kernel/frontier.rs:118-179 | for every block size and every schedule of leaders and two-step threads, stale source reads included: each label stays the cost of a simple walk on which no label exceeds the cost of the walk up to there, distances only fall, change only within the pass's bucket discipline, and the flags agree with the changes |
| Kernels.LaunchOutcome | crates/pathhydra-cuda/kernel/delta.rs:133-220 | at the barrier of a successful launch, whatever its blocks, every task has had its effect: its destination is at most the relaxation of the source distance the pass began with, and light sources are marked removed |
| Kernels.ExecDescends | crates/pathhydra-cuda/kernel/atomic.rs:30-57 | along any schedule the distances never rise |
| Kernels.FaultHasCause | crates/pathhydra-cuda/kernel/frontier.rs:118-179 | a thread over the network's own arcs faults only when extending a walk, of no more arcs than nodes, gives an infinite cost, or for the delta kernels a cost without a bucket, and with the status code of that cause |
| Kernels.LaunchStatusHasCause | crates/pathhydra-cuda/kernel/delta.rs:133-220 | under every block size and schedule a launch ends with success or with the status of such a walk |
| Passes.PassOutcome | crates/pathhydra-cuda/src/partitioned.rs:682-852 | any sequence of launches, however the tasks are chunked or split over partitions, has the effect of all its tasks |
| Passes.PassStatusHasCause | crates/pathhydra-cuda/src/launch.rs:963-1030 | so does a pass, however it is chunked |
| FrontierSearch.PhaseKeeps | crates/pathhydra-cuda/src/launch.rs:859-960 | one frontier phase keeps the invariant: every enabled arc is relaxed unless its source is active, and k phases are below all walks of k arcs |
| FrontierSearch.RunKeeps | crates/pathhydra-cuda/src/launch.rs:859-960 | the frontier invariant holds in every state of every run |
| FrontierSearch.PhasesCoverWalks | crates/pathhydra-cuda/src/launch.rs:859-960 | after k phases every distance is at most the cost of every walk of k or fewer arcs |
| FrontierSearch.ConvergedIsExact | crates/pathhydra-cuda/src/launch.rs:859-960 | every run that ends uncancelled and successful, by an early exit or at the node-count limit, leaves the least walk costs |
| FrontierSearch.FailureHasCause | crates/pathhydra-cuda/src/launch.rs:859-960 | a run fails only on a network with a walk, of no more arcs than nodes, whose cost is infinite |
| DeltaSearch.NextBucketIsLeast | crates/pathhydra-cuda/src/launch.rs:1272-1292 | `next_bucket` reports overflow exactly when some finite distance has no index, and otherwise the least occupied bucket after the current one, or none |
| DeltaSearch.LightPassKeeps | crates/pathhydra-cuda/src/launch.rs:1062-1130 | a light pass keeps the invariant, and a pass that changes nothing in its bucket leaves the bucket closed under light arcs |
| DeltaSearch.HeavyPassRelaxes | crates/pathhydra-cuda/src/launch.rs:1131-1183 | after the heavy pass every enabled arc out of a bucket at most b is relaxed, if heavy arcs advance along simple walks that leave some node unmet |
| DeltaSearch.DeltaRunKeeps | crates/pathhydra-cuda/src/launch.rs:1033-1195 | the delta-stepping invariant holds in every state of every run |
| DeltaSearch.SettledIsExact | crates/pathhydra-cuda/src/launch.rs:1033-1195 | every run that ends uncancelled and successful leaves the least walk costs, if each heavy arc leaves the bucket of every simple walk that it extends to a new node and not to the last one left; cycles are no obstacle |
| DeltaSearch.FaultNeedsLargeWalk | crates/pathhydra-cuda/src/launch.rs:1033-1195 | a run faults only on a network with such a walk, or with one whose finite cost has no bucket |
| DeltaSearch.BucketsVisited | crates/pathhydra-cuda/src/launch.rs:1062-1183 | the outer loop runs at most once per node, whatever the arithmetic |
| DeltaSearch.RemovedIsExact | crates/pathhydra-cuda/src/launch.rs:1062-1130 | when a bucket's light loop stops, `removed` holds exactly the bucket's nodes that have out-edges |
| DeltaSearch.SettledStays | crates/pathhydra-cuda/src/launch.rs:1062-1183 | no later step changes the distance of a node in a bucket below the current one |
| DeltaProgress.StepLowersRank | crates/pathhydra-cuda/src/launch.rs:1062-1183 | each repeated light pass lowers the sum of distance bits and each bucket change settles a node, so the host loops end |
| DeltaProgress.FinishRun | crates/pathhydra-cuda/src/launch.rs:1033-1195 | every unfinished run can be continued to one that has left the loop: the theorems about finished runs are not vacuous |
| DeltaNecessity.StalledRunIsWrong | crates/pathhydra-cuda/src/launch.rs:1272-1292 | if a heavy arc stays in the bucket of a walk, every settled run over that walk laid out as a path, with one arc more, reports a reachable node as unreachable, because `next_bucket` only looks past the current bucket |
| DeltaNecessity.StallIsInexact | crates/pathhydra-cuda/src/launch.rs:1272-1292 | and such a settled run exists |
| DeltaNecessity.ExactIffAdvances | crates/pathhydra-cuda/src/launch.rs:1033-1195 | for all bounds on the node and relation counts: delta-stepping is exact on every network within them and every run if and only if heavy arcs advance on every network within them |
| BucketSteps.PowerOfTwoStep | crates/pathhydra-cuda/kernel/delta.rs:222-227 | if delta is a power of two and the rounded sum is below 2^54 deltas, adding a weight above delta raises the bucket, rounding of sum and quotient included |
| BucketSteps.WideStep | crates/pathhydra-cuda/kernel/delta.rs:222-227 | for any delta, a distance larger by more than delta, below 2^53 deltas, has a larger bucket although the quotient is rounded |
| DeltaBinary64.SurvivingDeltaAdvances | crates/pathhydra-cuda/kernel/delta.rs:222-227 | in the kernels' arithmetic heavy arcs advance whenever their sums along simple walks keep more than delta, below 2^53 deltas |
| DeltaBinary64.ExactSumsAdvance | crates/pathhydra-cuda/kernel/delta.rs:222-227 | in particular when no sum along a simple walk is rounded: only rounding can break exactness |
| DeltaBinary64.CheckedDeltaAdvances | crates/pathhydra-cuda/kernel/delta.rs:133-227 | a check on the node count, the weights and delta alone is enough: no heavy arc; or, for the heaviest weight added once per node beyond the second, a delta that is a power of two with that sum below 2^54 deltas, or any delta with that sum below 2^53 deltas and every heavy weight above it by half the gap at the sum |
| DeltaBinary64.CheckedDeltaIsExact | crates/pathhydra-cuda/src/launch.rs:1033-1195 | every settled delta-stepping run of the kernels' arithmetic on a network that passes the check is exact |
| DeltaBinary64.CycleIsChecked | crates/pathhydra-cuda/src/launch.rs:1033-1195 | three nodes on a cycle of arcs of weight 1 and delta 1/2 pass the check |
| BinaryArithmetic.BinaryIsLawful | crates/pathhydra-cuda/kernel/arithmetic.rs:16-23 | the kernels' own arithmetic, binary32 words multiplied and summed in round-to-nearest-even binary64, and the quotient by any positive finite delta rounded to binary64 before it is truncated, obeys every law the searches ask for |
| DeltaCondition.ExactIffSumsAdvance | crates/pathhydra-cuda/src/launch.rs:1033-1195 | the same condition without networks, for every bound N of at least two nodes and at least N - 2 relations: exact on all networks within it if and only if adding a last weight above delta leaves the bucket of the sum before it, for every sum of at most N - 2 weights |
| DeltaCondition.KernelIsExactIffSumsAdvance | crates/pathhydra-cuda/kernel/delta.rs:133-227 | that equivalence for the kernels' own arithmetic, every delta the configuration accepts and every bound on the node count that leaves relations enough |
| DeltaCondition.SumsDoNotAdvance | crates/pathhydra-cuda/kernel/delta.rs:133-227 | on sums of any length: for every delta from 2^-307 up to the heaviest possible weight, enough copies of one weight above delta add up to a sum that absorbs it |
| DeltaCondition.ExactIffNothingIsHeavy | crates/pathhydra-cuda/src/launch.rs:1033-1195 | on networks of any size, larger ones than the router accepts included: for every delta from 2^-307 on, delta-stepping is exact on all of them if and only if no weight can exceed delta |
| NodeLimit.FourNodesAreMisrouted | crates/pathhydra-cuda/src/launch.rs:1033-1195 | four nodes in a row, with the weights 2^(d+55), 2^(d+1) and 0 and a delta between 2^(d-8) and 2^(d+1): every settled run reports the last node as unreachable |
| NodeLimit.FourNodesAreInexact | crates/pathhydra-cuda/src/launch.rs:1033-1195 | for every delta from 2^-307 to below 2^200 some network of four nodes has a settled, inexact run |
| NodeLimit.DeltaOneIsInexact | crates/pathhydra-cuda/src/launch.rs:1033-1195 | the instance of delta 1 and the weights 2^55 and 2 |
| NodeLimit.LongSumIsStuck | crates/pathhydra-cuda/kernel/delta.rs:133-227 | for every delta from 2^200 to below 2^234 some sum of fewer than 2^32 - 2 weights, exact up to its last, absorbs a weight above delta by a tie |
| NodeLimit.RouterIsInexact | crates/pathhydra-cuda/src/launch.rs:536-538 | for every delta from 2^-307 to below 2^234 some network with node and relation counts of 32 bits has a settled, inexact run |
| NodeLimit.FoldIsBounded | crates/pathhydra-cuda/kernel/arithmetic.rs:16-23 | a rounded sum of up to 2^53 weights is at most 2^256 for each of them |
| NodeLimit.PowerIsExactIff | crates/pathhydra-cuda/src/launch.rs:536-538 | a power of two from 2^-307 on is exact on every network with node and relation counts of 32 bits, and every run, if and only if it is at least 2^234 |
| NodeLimit.CoarseDeltaIsExact | crates/pathhydra-cuda/src/launch.rs:536-538 | so is every delta that no weight exceeds |
| NodeLimit.FrontierNeverFails | crates/pathhydra-cuda/src/launch.rs:859-960 | in the kernels' own arithmetic and within 32-bit counts no walk costs infinity, so no frontier run ever fails |
| NodeLimit.DeltaNeverFaults | crates/pathhydra-cuda/src/launch.rs:1033-1195 | nor does a delta-stepping run, for every delta from 2^225 to below 2^961 |
| Compaction.CsrSource | crates/pathhydra-cuda/kernel/frontier.rs:184-211 | the bisection answers the row of an edge exactly when the edge exists and has one, empty rows included |
| Compaction.CompactionIsExact | crates/pathhydra-cuda/src/launch.rs:772-814 | the compacted list pairs an edge with a source exactly when the source is selected and owns the edge |
| Compaction.CompactionLength | crates/pathhydra-cuda/src/launch.rs:772-814 | both task arrays have the length counted by the first pass |
| Compaction.CompactStretches | crates/pathhydra-cuda/src/launch.rs:772-814 | the two-pass loop computes the compacted edge and source lists unless its last look at the flag found it up or its last reservation was refused |
| Compaction.CompactResident | crates/pathhydra-cuda/src/launch.rs:772-814 | for monotone offsets and any selection: exactly the edges of the selected rows, each once, in increasing order, with their row |
| Compaction.CompactPartition | crates/pathhydra-cuda/src/partitioned.rs:54-94 | exactly the local edges of the partition's selected segments, with their sources |
| Compaction.Chunks | crates/pathhydra-cuda/src/launch.rs:963-1030 | chunking a task list loses and adds nothing, and no chunk exceeds the launch limit |
| Compaction.ActivePartitions | crates/pathhydra-cuda/src/partitioned.rs:1041-1087 | the partitions of the selected sources, each once, ascending or descending |
| Compaction.PlanResident | crates/pathhydra-cuda/src/launch.rs:963-1030 | the launches of a resident pass cover exactly the arcs of the selected sources |
| Compaction.PlanPartitions | crates/pathhydra-cuda/src/partitioned.rs:682-852 | the launches of a partitioned pass cover exactly the arcs of the selected sources, in either order, a source split over several partitions included |
| Compaction.Plan | crates/pathhydra-cuda/src/partitioned.rs:855-1028 | the same for whichever topology the image has; a pass is cut only by the flag and unallocated only after a refused reservation |
| Tiling.TilesStoreTheSameArcs | crates/pathhydra-cuda/src/partitioned.rs:310-517 | segments that tile the adjacency store exactly the resident arcs, wherever rows are split |
| Tiling.FrontierRunsAgree | crates/pathhydra-cuda/src/partitioned.rs:311-370 | two converged frontier runs of one network, resident or partitioned, in any order, chunking, block size and interleaving, end with equal distances |
| Tiling.DeltaRunsAgree | crates/pathhydra-cuda/src/partitioned.rs:371-516 | so do two settled delta runs, if heavy arcs advance |
| Tiling.AlgorithmsAgree | crates/pathhydra-cuda/src/partitioned.rs:371-516 | a settled delta run ends with the distances of a converged frontier run, if heavy arcs advance |
| WorkCounters.LaunchCounts | crates/pathhydra-cuda/kernel/frontier.rs:41-93 | for every block size and every interleaving of block leaders and threads, a successful launch raises examined by its task count, attempts by exactly its enabled tasks of the pass's kind, and updates by no more than attempts |
| WorkCounters.UpdatesAreDrops | crates/pathhydra-cuda/kernel/frontier.rs:167-178 | updates are exactly the steps that lowered a distance, in every interleaving |
| WorkCounters.PassCounts | crates/pathhydra-cuda/kernel/delta.rs:47-96 | for every block size of every launch a successful pass raises examined by exactly its tasks, attempts by at most those and updates by no more than attempts |
| WorkCounters.FrontierCountsInOrder | crates/pathhydra-cuda/kernel/frontier.rs:41-93 | updates are at most attempts and attempts at most examined in every successful state of a frontier run |
| WorkCounters.DeltaCountsInOrder | crates/pathhydra-cuda/kernel/delta.rs:47-96 | the same for every delta-stepping run |
| Router.ValidateRange | crates/pathhydra-cuda/kernel/frontier.rs:47-69 | a leader's loop finds the first task of its range that must be refused, and otherwise counts the range's attempts |
| Router.Device.StepLeader | crates/pathhydra-cuda/kernel/delta.rs:47-96 | the next access of a block leader is the leader step of the launch, and brings it closer to the block's barrier |
| Router.Device.StepThread | crates/pathhydra-cuda/kernel/delta.rs:133-220 | the next step of a thread past its barrier is the thread step of the launch, over arrays updated in place |
| Router.Device.Load | crates/pathhydra-cuda/kernel/delta.rs:152-208 | a thread's load step: validation, the source distance, the removed mark and the decision |
| Router.Device.Store | crates/pathhydra-cuda/kernel/delta.rs:209-219 | a thread's commit step: the minimum, then the flags its kind sets |
| Router.Device.RunLaunch | crates/pathhydra-cuda/kernel/frontier.rs:23-114 | any scheduler of leaders and threads, in which a thread waits for its leader at the block's barrier, reaches the end of the launch, and what it did is a schedule of the launch |
| Router.Device.RunPass | crates/pathhydra-cuda/src/launch.rs:963-1030 | synchronised launches one after the other take the pass from its first to its last memory, and examine exactly its tasks |
| Router.RunFrontier | crates/pathhydra-cuda/src/launch.rs:859-960 | for every block size the host loop ends within the phase limit: cancelled only when a look found the flag up, failed only after a refused reservation or on a walk of infinite cost, and otherwise converged, with exact distances and examined equal to the compacted tasks, over either topology |
| Router.FindNextBucket | crates/pathhydra-cuda/src/launch.rs:1272-1292 | the host loop computes `NextBucket` |
| Router.LightLoop | crates/pathhydra-cuda/src/launch.rs:1070-1130 | the light loop terminates at its heavy stage; a stop has the flag for its cause, and a fault a refused reservation or a walk that outgrows the numbers |
| Router.HeavyTurn | crates/pathhydra-cuda/src/launch.rs:1131-1183 | the heavy pass and the choice of the next bucket follow the run and strictly lower the number of unsettled nodes; without those causes the turn ends settled or at the next bucket |
| Router.RunDelta | crates/pathhydra-cuda/src/launch.rs:1033-1195 | for every block size the host loops end after at most one bucket per node: stopped and faulted only for those causes, and otherwise settled, with exact distances if heavy arcs advance along simple walks, and examined equal to the compacted tasks |
| Response.Validate | crates/pathhydra-api/src/codec.rs:943-990 | the validator's counting loop decides the completion-state rules as they read of the results themselves |
| Response.CountsAreExact | crates/pathhydra-api/src/codec.rs:943-972 | a state count is zero exactly when no result is in that state |
| Response.ProducerMeetsValidator | crates/pathhydra-cuda/src/launch.rs:626-674 | for every destination list, distance array and cancellation, states, reason and first-destination flag satisfy those rules |
| Response.CancelledReportsOnlyOrigin | crates/pathhydra-cuda/src/launch.rs:641-660 | a cancelled response tells exactly the missing nodes, reports exactly the origin, at zero, and leaves every other destination incomplete |
| Response.NoArcsIsExact | crates/pathhydra-cuda/src/launch.rs:513-533 | without adjacency the initial distances are already exact |
| Response.ResponseIsTrue | crates/pathhydra-cuda/src/launch.rs:513-533 | searched or skipped, every uncancelled state is the one the least walk costs dictate, so the shortcut changes no state |
| Response.TruthIsLeast | crates/pathhydra-cuda/src/launch.rs:641-660 | an exact state carries an attained least cost, and unreachable means no walk of finite cost |
| RouteRequest.RunSearch | crates/pathhydra-cuda/src/launch.rs:534-625 | either algorithm over either topology: distances unless the flag was seen up, memory was refused or a walk outgrows the numbers, and then exact ones |
| RouteRequest.Route | crates/pathhydra-cuda/src/launch.rs:442-674 | end to end: an answer is cancelled exactly when the last look found the flag up, the route fails only for want of memory or on a walk that outgrows the numbers, every answer satisfies the codec's rules, a cancelled one leaves everything but the origin open, and any other tells the least costs, for delta-stepping if heavy arcs advance |
| TopologyCache.ApplyKeeps | crates/pathhydra-cuda/src/topology_cache.rs:225-532 | every locked section, in every branch and for every thread, keeps accounting, reservation, eviction and lease agreement |
| CacheRuns.RunKeeps | crates/pathhydra-cuda/src/topology_cache.rs:225-532 | the cache invariant holds in every state of every run |
| CacheRuns.AccountingHolds | crates/pathhydra-cuda/src/topology_cache.rs:591-653 | tracked bytes equal the sum over loading, copying and ready entries and stay within the byte limit; entries stay within the slot limit |
| CacheRuns.LeaseIsSafe | crates/pathhydra-cuda/src/topology_cache.rs:111-147 | a live lease maps to a ready entry of the same partition, users is the number of live leases, and `record_completion` cannot fail |
| CacheRuns.NoEvictionInUse | crates/pathhydra-cuda/src/topology_cache.rs:612-645 | an entry with a live lease or an incomplete event is never evicted |
| CacheRuns.ReservationIsKept | crates/pathhydra-cuda/src/topology_cache.rs:342-439 | until poison, a loader finds its own reservation at both later sections, whatever ran while the lock was free |
| CacheRuns.PoisonIsFinal | crates/pathhydra-cuda/src/topology_cache.rs:501-532 | once poisoned the cache stays poisoned, holds no reservation and grants no lease |
| CacheRuns.StampIsLastGrant | crates/pathhydra-cuda/src/topology_cache.rs:252-257 | in every run the stamp of a ready entry is the tick at which its last lease, by a hit or by publication, was granted |
| CacheRuns.StampsOrderUse | crates/pathhydra-cuda/src/topology_cache.rs:612-627 | the order of the stamps is the order of those last leases in the run |
| CacheRuns.EventStaysPending | crates/pathhydra-cuda/src/topology_cache.rs:112-134 | an entry keeps a recorded event, and its place, until a section is told that the event has completed |
| CacheRuns.HighIsPeak | crates/pathhydra-cuda/src/topology_cache.rs:313-321 | the high-water mark is the most bytes tracked in any state so far |
| DeviceCache.FindVictim | crates/pathhydra-cuda/src/topology_cache.rs:612-627 | the removable entry with the least (last use, id), or none exactly when nothing is removable |
| DeviceCache.Choose | crates/pathhydra-cuda/src/topology_cache.rs:598-652 | one turn of the slot search: the decision carried out, or one failed entry dropped |
| DeviceCache.DeviceTopologyCache.PrepareSlot | crates/pathhydra-cuda/src/topology_cache.rs:591-653 | it terminates, drops only failed entries, reports room exactly when there is room, evicts the least recently used idle entry, and waits only when nothing is removable |
| DeviceCache.DeviceTopologyCache.AcquireSection | crates/pathhydra-cuda/src/topology_cache.rs:239-329 | refused exactly when poisoned; an entry that is there is leased, waited for or taken as failed by its state; for one that is not, a slot is reserved exactly when the entries that have not failed leave room, a victim is the idle entry whose last lease in the run is the oldest, and a caller waits only while every entry is busy |
| DeviceCache.DeviceTopologyCache.FinishEvictionSection | crates/pathhydra-cuda/src/topology_cache.rs:296-308 | the victim an evicting thread chose is still there for its second section, whatever ran in between, and leaves alone |
| DeviceCache.DeviceTopologyCache.BeginCopySection | crates/pathhydra-cuda/src/topology_cache.rs:382-398 | in every run a loader finds its reservation here exactly until poison: then the copy begins, otherwise nothing changes |
| DeviceCache.DeviceTopologyCache.FinishCopySection | crates/pathhydra-cuda/src/topology_cache.rs:406-438 | publication succeeds exactly until poison, and then the loader holds a live lease on the partition it copied |
| DeviceCache.DeviceTopologyCache.CancelReserved | crates/pathhydra-cuda/src/topology_cache.rs:484-499 | a cancelled loader's own reservation is there until poison and leaves with exactly its bytes; after poison nothing changes |
| DeviceCache.DeviceTopologyCache.FailReserved | crates/pathhydra-cuda/src/topology_cache.rs:501-532 | a failed loader leaves a failed entry without bytes, or poisons: then no entry is loading or copying any more |
| DeviceCache.DeviceTopologyCache.Poison | crates/pathhydra-cuda/src/topology_cache.rs:507-531 | the poison sweep fails every reservation and releases exactly their bytes |
| DeviceCache.DeviceTopologyCache.RecordCompletion | crates/pathhydra-cuda/src/topology_cache.rs:112-134 | the holder of a live lease never meets the disappeared or changed slot: the event joins its partition's entry, which cannot be evicted while it is pending, and no other entry changes |
| DeviceCache.DeviceTopologyCache.ReleaseLease | crates/pathhydra-cuda/src/topology_cache.rs:137-147 | a live lease's entry is there, ready and counted, so the user count never runs below zero |
| DeviceCache.WaitHasCause | crates/pathhydra-cuda/src/topology_cache.rs:158-181 | with the constructor's size check, no slot and no removable entry mean that some entry is busy; the acquire section rests on it |
| Scheduler.ApplyKeeps | crates/pathhydra-cuda/src/scheduler.rs:367-576 | every step of every thread keeps conservation, counters, batch shape and shutdown order |
| Scheduler.ConservedKeeps | crates/pathhydra-cuda/src/scheduler.rs:374-546 | deferral, rejection, allocation failure, spawn failure, lane panic and drain each move a job or answer it once, with every counter access and send a step of its own |
| Scheduler.CountedKeeps | crates/pathhydra-cuda/src/scheduler.rs:374-576 | queued, active, failures and the drain count follow every step |
| SchedulerRuns.RunKeeps | crates/pathhydra-cuda/src/scheduler.rs:367-576 | the scheduler invariant holds in every state of every run |
| SchedulerRuns.RepliesExactlyOnce | crates/pathhydra-cuda/src/scheduler.rs:247-279 | an accepted job is pending or has exactly one reply, and no other job ever has one |
| SchedulerRuns.ExitAnswersEverything | crates/pathhydra-cuda/src/scheduler.rs:390-405 | when the worker has ended, every accepted job has its one reply and both counters are zero |
| SchedulerRuns.CountersAreExact | crates/pathhydra-cuda/src/scheduler.rs:316-330 | between any two accesses: queued counts the jobs not yet dispatched or rejected, active is zero between batches and at most the batch limit, failures counts the error replies sent and the one counted but not yet sent, and the shutdown report counts the drained jobs |
| SchedulerRuns.BatchesAreAlike | crates/pathhydra-cuda/src/scheduler.rs:413-456 | from collection to its last lane all jobs of a batch have the same image and the same algorithm, and there are at most the maximum |
| SchedulerRuns.DeferralDoesNotStarve | crates/pathhydra-cuda/src/scheduler.rs:374-379 | whatever keeps arriving, a command at deferred position p is the next head after exactly p further heads, unless a shutdown drains the queue first |
| SchedulerRuns.InternalRunsEnd | crates/pathhydra-cuda/src/scheduler.rs:375-546 | without arrivals the worker and its lanes take at most as many steps as the rank of the state |
| SchedulerRuns.NoJobIsStuck | crates/pathhydra-cuda/src/scheduler.rs:375-546 | where neither worker nor lane can step, every accepted job has its reply and a posted shutdown is reported |
| SchedulerRuns.AnsweredShutdownRejectsNothing | crates/pathhydra-cuda/src/scheduler.rs:334-356 | a shutdown that finds every accepted job answered, as exclusive access and blocking submits guarantee, rejects nothing |
| ReplyCauses.RepliesHaveCauses | crates/pathhydra-cuda/src/scheduler.rs:374-546 | every reply goes back to a step of the run with cause for it: a result or panic of the job's own lane, a refused allocation or spawn, a worker seen stopping, or a drain after a posted shutdown |
| ReplyCauses.OpenWorkerRejectsNobody | crates/pathhydra-cuda/src/scheduler.rs:380-388 | until a stop is requested nobody is told of a shutdown |
| ReplyCauses.HeadIsServed | crates/pathhydra-cuda/src/scheduler.rs:380-418 | an open worker with memory makes a batch of the next job |
| ReplyCauses.ArrivalIsKept | crates/pathhydra-cuda/src/scheduler.rs:420-451 | while the worker is open, a job that arrives during collection joins the batch if it is like it and is deferred behind the others if not |
| ReplyCauses.QuietRunDeniesNobody | crates/pathhydra-cuda/src/scheduler.rs:407-473 | without a refused allocation or spawn nobody is told of one |
| ReplyCauses.ChannelIsInOrder | crates/pathhydra-cuda/src/scheduler.rs:374-379 | the jobs not yet taken from the channel are the last accepted, in the order of their acceptance |
| WorkerLoop.CudaWorker.Submit | crates/pathhydra-cuda/src/scheduler.rs:247-279 | accepted exactly when the worker is not stopping, and then sent |
| WorkerLoop.CudaWorker.DeliverAll | crates/pathhydra-cuda/src/scheduler.rs:566-576 | a job in hand is taken off the counters, its failure counted and its reply sent, one access at a time with other threads in between, and the hand is empty |
| WorkerLoop.CudaWorker.TakeHead | crates/pathhydra-cuda/src/scheduler.rs:374-418 | with memory granted, an open worker makes the next job the head of a batch; a shutdown command starts the drain |
| WorkerLoop.CudaWorker.CollectOne | crates/pathhydra-cuda/src/scheduler.rs:424-452 | with memory granted, an open worker batches a job that is like the batch and defers any other |
| WorkerLoop.CudaWorker.CollectBatch | crates/pathhydra-cuda/src/scheduler.rs:412-456 | collection ends with a non-empty batch within the maximum, and is a run of the scheduler |
| WorkerLoop.CudaWorker.RejectBatch | crates/pathhydra-cuda/src/scheduler.rs:459-473 | every job of a batch without a join queue is answered, and the loop is back at its head |
| WorkerLoop.CudaWorker.SpawnLanes | crates/pathhydra-cuda/src/scheduler.rs:484-534 | one lane or one immediate error per job, in order |
| WorkerLoop.CudaWorker.JoinLanes | crates/pathhydra-cuda/src/scheduler.rs:536-545 | all lanes are over, panicked ones answered, and active is zero |
| WorkerLoop.CudaWorker.Drain | crates/pathhydra-cuda/src/scheduler.rs:390-405 | queues are empty, counters zero, the report counts the drained jobs, and every accepted job has exactly one reply |
| WorkerLoop.CudaWorker.Turn | crates/pathhydra-cuda/src/scheduler.rs:375-546 | one turn of the loop, with submitters and lanes interleaved anywhere, is a run of the scheduler that comes back to the head or ends, with active zero; without a refused request nobody has been denied anything |
| WorkerLoop.CudaWorker.RequestShutdown | crates/pathhydra-cuda/src/scheduler.rs:334-356 | the first call stops admission and posts one command; a later call changes nothing |
| JsonScanner.ScanString | crates/pathhydra-api/src/codec.rs:294-313 | the scan of a string ends after its first unescaped quote, or reports that there is none |
| JsonScanner.ScanBeforeDeserialize | crates/pathhydra-api/src/codec.rs:210-292 | on any bytes: the encoded-bytes limit exactly above it, otherwise invalid UTF-8 exactly for that, otherwise a byte-order mark exactly for that, and otherwise accepted exactly when every string closes, brackets outside strings balance within the depth limit and values are within theirs, with every refusal caused by what it names |
| JsonLexis.ScanDecides | crates/pathhydra-api/src/codec.rs:231-292 | the scan agrees with a byte-by-byte reading: modes, nesting depth of every prefix, and the positions where values start |
| JsonLexis.NameIsSeen | crates/pathhydra-api/src/codec.rs:237-245 | looking past a closed string for a colon decides whether it is a member name |
| JsonScanner.GrammarIsCovered | crates/pathhydra-api/src/codec.rs:274-283 | every number and literal of the grammar is one token |
| JsonScanner.StringCloses | crates/pathhydra-api/src/codec.rs:294-313 | for every sequence of plain and escaped characters, escaped quotes and backslashes included, the first unescaped quote is the closing one |
| JsonScanner.ScanValue | crates/pathhydra-api/src/codec.rs:235-285 | scanning a printed value inside any document adds exactly its value count, or is refused for a limit |
| JsonScanner.ScanMembers | crates/pathhydra-api/src/codec.rs:236-248 | member names are not counted as values |
| JsonScanner.ScannerAgreesWithTree | crates/pathhydra-api/src/codec.rs:210-325 | a printed tree within the byte limit is accepted if and only if its value count and nesting depth are within the limits, and is otherwise refused for a limit, never as malformed |
| Requests.Assign | crates/pathhydra-api/src/facade.rs:140-167 | a new identifier is above the high water; none exactly when the space is exhausted or a supplied value is not above it |
| Requests.ApplyKeeps | crates/pathhydra-api/src/facade.rs:273-307 | every atomic access of every thread, each single swap of cancel_all included, keeps identifiers, single execution and the single winner of each flag |
| RequestRuns.RunKeeps | crates/pathhydra-api/src/facade.rs:273-307 | the protocol invariant holds in every state of every run |
| RequestRuns.IdentifiersAreNeverReused | crates/pathhydra-api/src/facade.rs:102-107 | identifiers strictly increase in the order of issue and stay within 64 bits, whatever handles have been dropped |
| RequestRuns.ExecutesAtMostOnce | crates/pathhydra-api/src/facade.rs:1450-1475 | over every interleaving a handle begins at most once, and has begun exactly when it has left Created |
| RequestRuns.SignalledAtMostOnce | crates/pathhydra-api/src/facade.rs:293-306 | over cancel by handle, by identifier and of everything, with swaps of cancel_all and of the facade interleaved, at most one caller per request is told Signalled, and the flag is set exactly when its one winner has reported or is about to |
| RequestRuns.SweepRaisesEverything | crates/pathhydra-engine/src/cancellation.rs:82-98 | when cancel_all has swapped its last flag every registered flag is up, whatever other threads did in between |
| RequestRuns.RegistrationSucceeds | crates/pathhydra-engine/src/cancellation.rs:51-68 | the engine never refuses a registration as a duplicate |
| RequestRuns.RunGoesOnward | crates/pathhydra-api/src/facade.rs:1301-1350 | a flag is never reset, a phase never goes back, and issued identifiers only grow |
| RequestObjects.RequestFacade.Allocate | crates/pathhydra-api/src/facade.rs:140-172 | the new identifier is the supplied one or the next one, above every identifier ever issued, and its request is fresh; refused exactly when some issued identifier leaves no room |
| RequestObjects.RequestFacade.Find | crates/pathhydra-api/src/facade.rs:174-180 | a cancellation by identifier starts exactly while a handle is alive |
| RequestObjects.RequestFacade.Begin | crates/pathhydra-api/src/facade.rs:1450-1475 | the exchange succeeds exactly if the handle was never begun before, in the whole run |
| RequestObjects.RequestFacade.Register | crates/pathhydra-engine/src/cancellation.rs:51-68 | a begun request is never refused as a duplicate |
| RequestObjects.RequestFacade.Unregister | crates/pathhydra-engine/src/cancellation.rs:110-116 | the registration a router drops is its own and still there |
| RequestObjects.RequestFacade.Route | crates/pathhydra-api/src/facade.rs:1301-1350 | with other threads between any two accesses, a handle runs exactly if it never began before, is registered with the engine on the way if its limits allow, and ends complete, begun once |
| RequestObjects.RequestFacade.AskEngine | crates/pathhydra-engine/src/cancellation.rs:69-80 | the engine knows the request exactly while it is registered; Signalled exactly when this swap raised the flag, and then no other caller is ever told so |
| RequestObjects.RequestFacade.CancelState | crates/pathhydra-api/src/facade.rs:273-307 | whole, with other threads between any two of its accesses: every answer is true when given, Signalled or AlreadySignalled tells whether this call's own swap found the flag down, a request complete before the call is AlreadyCompleted, and one still only created while the facade was shutting down is told so |
| RequestObjects.RequestFacade.CancelAll | crates/pathhydra-engine/src/cancellation.rs:82-98 | every registered flag ends raised; the count is the number of registered requests, and the newly signalled are exactly those whose flag this call's own swap found down |

## Left out

- CUDA driver calls, PTX build, device probing, uploads, benchmark kernels, timing fields and fault-injection hooks: foreign calls or instrumentation; a launch is "run these tasks in some interleaving, then synchronise".
- Memory-order reorderings below single atomic accesses: the steps of all threads interleave, each atomic access is one step.
- CPU routing, path evidence and path reconstruction: only distance-only routes are modelled.
- The bundle compiler, the topology validation and the host partition cache: what they guarantee appears as preconditions (valid CSR, tiling segments, well-formed relation profile, loaded bytes equal to the descriptor's).
- Saturation of statistics and of `u64` work counters, and the counters that only report (hits, misses, waits, evictions, peaks, launches).
- Admission, staging and lifecycle counters, DTO conversion, the canonical re-encoding and the ordering checks of DTO lists: they would add only easy members.
- BudgetExhausted is never produced by the CUDA router; it appears only in the codec's rules.
- DeltaCondition.KernelIsExactIffSumsAdvance: below delta 2^-307, where every distance from 2^-243 on overflows its bucket index, and for deltas above 2^234 that are no powers of two and that some weight exceeds, the condition on bounded sums is not reduced to one on delta.
- DeltaBinary64.CheckedDeltaIsExact: the check is sufficient for one network, not necessary: a network that fails it may still have only walks whose heavy arcs advance.
- DeviceCache.DeviceTopologyCache.PrepareSlot: the events that have completed are a parameter of each locked section; a hook that holds them back is the empty set.
- JsonScanner.ScanBeforeDeserialize: whether the input is UTF-8 is a parameter.
- WorkerLoop.CudaWorker.Submit: a send to a worker that has gone is unreachable in the model, because a shutdown has the worker to itself; the state machine keeps the branch.
- WorkerLoop.CudaWorker.CollectBatch: the batch delay is a number of receive attempts instead of a clock.
- RequestRuns.SignalledAtMostOnce: callers that find no live request are told UnknownRequest or ShuttingDown without touching any state and are not tracked further.
- RequestObjects.RequestFacade.CancelAll: the registry lock is free when the section begins; waiting for it is `AwaitRegistry`, and a poisoned lock is not modelled.
- Router.RunDelta: that a fault needs a walk that outgrows the numbers is proved; which of several such walks a run meets first depends on the interleaving.
- NodeLimit.DeltaNeverFaults: below delta 2^225 large distances have no bucket index, and a fault is a possible end.
