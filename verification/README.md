# Calinix: verified model of the prefix-cache router

Calinix is a load balancer that sends a prompt to the pod that already holds the longest prefix of
it in its KV cache. This project models the parts of it that decide where a request goes, and proves
what they compute:

- **The index and its search.** Pods announce the cumulative hash of every prompt prefix they hold.
  A sharded map takes a hash to a 256-bit set of owners. A query splits the set of candidate pods by
  binary search over the prompt's hash chain, for all pods at once. The search is specified without
  assuming that ownership is closed under prefixes, and the full search, the pruned search for the
  best pod and the plans built on them are proved while other threads register, evict, clean up and
  change liveness between any two lookups.
- **The hash chain.** One streaming FNV-1a pass over the tokens equals the staged pipeline tokenize,
  chunk, hash, accumulate; equal hashes mean equal prefixes unless two hashed inputs collide.
- **The protocols around it.** Check-then-track admission on in-flight counters, the health
  hysteresis and the liveness it writes, and the filter, score and pick stages of both plan builders.

## How the model is organised

| file | what it holds |
|---|---|
| `Bits.dfy`, `HostBitmap.dfy` | 64-bit words bit by bit, and the four-word pod bitmap as a set of pods |
| `Fibonacci.dfy` | shard arithmetic modulo 2^64 |
| `Hashing.dfy`, `Collision.dfy` | block hashes, hash chains, prefix stability and uniqueness, and two tokens that collide |
| `PrefixSearch.dfy` | the meaning of a search on sets of pods: depths, lookups, frames, stack shape |
| `FlatRegistry.dfy`, `Interleavings.dfy`, `Closure.dfy` | the registry as one relation, its steps, and theorems over whole runs and interleavings |
| `ShardedIndex.dfy`, `Cleanup.dfy` | the class with its shard array, each method tied to registry steps |
| `FrameStack.dfy`, `SearchState.dfy`, `PrefixQuery.dfy`, `BestMatch.dfy` | the stack with its inline slots, what a search knows between two lookups, and the query loops |
| `CountedSearch.dfy`, `BenchQueries.dfy`, `Representations.dfy` | the naive scan and the bitmap, list, array and earlier searches |
| `Load.dfy`, `Health.dfy`, `Routing.dfy`, `Pipeline.dfy` | admission, health, scoring and plan building |
| `Sets.dfy`, `Wrappers.dfy` | shared helpers |

Conventions. One lock region or one atomic operation is one step; a list of steps is an interleaving
of any number of threads. `u64` arithmetic is exact modulo 2^64. Scores are exact rationals and
`total_cmp` is their order. A prompt is the list of its tokens, each a byte string. Three blocks of
code that the query loops repeat inline (the division of a frame by owners, the two conditional
pushes, the loop that absorbs one token into a hash) are written once and called.

Where code and documentation differ, the code is followed. The repository's README describes
`hash_2 = hash(hash_1 + tokens)`; the code hashes each block by itself and then hashes the 16 bytes of
the previous cumulative hash and the block hash (src/calinix/cache_registry/cumulative_hash.rs:6-21).
The same README says a match at a hash guarantees that the whole prefix matches; the first item of
the next section says when.

## What does not hold, and what does instead

- A match at a hash does not guarantee an equal prefix: prompts that begin with
  `8yn0iYCKYHlIj4-BwPqk` and with `GReLUrM4wMqfg9yzV3KQ` and go on alike have the same chain
  (`Collision.MatchWithoutPrefix`). Two prompts that match at a position agree up to there exactly when
  no two strings hashed at one place of them collide up to there (`Hashing.MatchIsPrefixExactly`).
- A pod id of 256 or more is never stored, yet `register` answers true and leaves an entry without
  owners: `FlatRegistry.EmptyEntryExactly` says when a step creates one, and
  `FlatRegistry.NeverEmptyExactly` when a run never does.
- Binary search and linear scan agree on ownership with gaps exactly when the pod owns none of the
  at most ceil(log2(n + 1)) hashes that a search for the scan's depth probes beyond it
  (`PrefixSearch.SearchIsScanExactly`; a gap that matters in `PrefixSearch.DepthBeyondGap`, one that
  does not in `PrefixSearch.DepthBelowGap`). On prefix-closed ownership they always agree.
- Closure of a pod's ownership survives an interleaving of lock regions exactly while every
  registration finds the hashes before it owned and every removal leaves none after it
  (`Closure.ClosedThroughoutExactly`). Any number of concurrent chain registrations meet this
  (`Closure.RegistrationsKeepClosed`); a cleanup of the pod inside its own registration does not,
  unless it falls before the first or after the last hash (`Closure.CleanupInsideRegistration`); lock
  by lock, what is left are the hashes not swept after they were registered
  (`Closure.RegistrationAmidCleanup`).
- Cleanup is invisible to queries exactly when the cleaned pod is not alive or owns nothing
  (`FlatRegistry.CleanupInvisible`), and the sweep of non-alive pods exactly while no alive owner is
  missing from its snapshot (`FlatRegistry.RetainInvisible`).
- A pod with capacity keeps within it exactly when at most one request at a time is between its
  check and its track; k racing requests can reach capacity - 1 + k and no more (`Load.CapacityRespectedExactly`,
  `Load.CommittedBounded`, `Load.BoundAttained`).
- The alive bitmap is also written by registrations, shutdown events and forwarded requests. A pod's
  bit agrees with the poller's mark exactly unless its last write is an outside write that set it
  against the mark (`Health.AliveFollowsPollerExactly`). Failed checks clear an alive pod only if it
  is marked, and successful ones revive a dead pod only if it is not
  (`Health.FailuresClearExactlyMarked`, `Health.SuccessesReviveExactlyUnmarked`); both disagreements
  are reached from the start and then last (`Health.OutsideWritesStrand`, `Health.StrandedForever`).
- A cached lead decides under every load and stickiness exactly from two thirds of the chain on in
  single mode and from seven thirteenths on for a prefill pod; for a decode pod it never does
  (`Routing.DefaultLeadDecidesExactly`). There an idle pod beats another one under all circumstances
  exactly when more than nine elevenths of the other's slots are taken
  (`Routing.IdleDecodePodDecidesExactly`).

## Model

| member | source | states |
|---|---|---|
| PrefixQuery.LongestPrefixLengthsInto | src/calinix/cache_registry/prefix_query.rs:96-148 | With arbitrary steps of other threads before every lookup: terminates after at most n lookups, no hash looked up twice; each candidate of the alive snapshot ends with one depth d such that some lookup of hash d-1 saw it as owner and some lookup of hash d saw it not owning; d is at least the pod's own binary search at the start if no lookup found one of its hashes lost, at most that if none found one gained, so exactly that if none found it changed; every other slot is 0; the stack stays within 1 + ceil(log2(n+1)) frames and never spills for n + 1 <= 2^31 |
| SearchState.OneWayQueries | src/calinix/cache_registry/prefix_query.rs:126-147 | Whatever happens to other pods: a pod that nobody evicts or cleans during the query loses no hash to a lookup, so its answer is no less than at the start, and one that nobody registers gains none, so its answer is no more |
| SearchState.UntouchedIsSteady | src/calinix/cache_registry/prefix_query.rs:126-147 | A pod that no other thread registers, evicts or cleans during a query neither loses nor gains in that sense, so its answer is exact whatever happens to other pods |
| PrefixQuery.LongestPrefixLengthsForCandidates | src/calinix/cache_registry/prefix_query.rs:83-94 | Undisturbed, the result has a slot for every candidate and holds each alive candidate's own binary-search depth, 0 elsewhere; the index is unchanged |
| PrefixQuery.LongestPrefixLengthsDebug | src/calinix/cache_registry/prefix_query.rs:234-309 | With the same interference and the same answers: lookups at most n and at most (distinct depths answered) x ceil(log2(n+1)), no hash looked up twice, intersections 1 + 2 x lookups, frames = lookups + distinct depths answered |
| PrefixQuery.LongestPrefixLengthsDebugUndisturbed | src/calinix/cache_registry/prefix_query.rs:234-309 | Without other threads the depths answered are the pods' own binary searches, and the counts are bounded by those |
| SearchState.TallySplit | src/calinix/cache_registry/prefix_query.rs:271-301 | One lookup keeps every frame a lookup or a settled depth, and is paid for by the one binary search that each depth may cost |
| PrefixQuery.SplitFrame | src/calinix/cache_registry/prefix_query.rs:126-131 | One round divides a frame's pods into the owners of the probed hash, moved up to the probed depth, and the others, moved below it |
| SearchState.SearchingSplit | src/calinix/cache_registry/prefix_query.rs:126-147 | A lookup that finds any registry whatever keeps every pod of the frame justified, fits the stack bound, uses up one of the n lookups and decreases the termination measure |
| BestMatch.BestPrefixMatchForCandidates | src/calinix/cache_registry/prefix_query.rs:150-232 | With arbitrary steps of other threads before every lookup: None only for an empty candidate set; with no alive candidate depth 0 on the least candidate; otherwise the lookups justify the answered depth for the answered pod, and every other alive candidate was seen not owning some hash below that depth or has that depth justified and no smaller id; a candidate that no lookup found without a hash of its own does not beat the answer by its binary search at the start, and the answer is no deeper than the chosen pod was if no lookup found it with a new hash; at most n lookups, none twice, same stack bound |
| BestMatch.PrunedSearch | src/calinix/cache_registry/prefix_query.rs:170-231 | The pruned loop with its early return keeps all of this under interference |
| BestMatch.BestPrefixMatchUndisturbed | src/calinix/cache_registry/prefix_query.rs:150-232 | Without other threads: the greatest depth over alive candidates and the least pod attaining it, as the full search would give; the index is unchanged |
| BestMatch.FullDepthIsBest | src/calinix/cache_registry/prefix_query.rs:205-212 | Returning the first pod of the frame that reaches full depth is exact: every other candidate is known below it or has a greater id |
| BestMatch.PruningSkip | src/calinix/cache_registry/prefix_query.rs:181-183 | Skipping a frame below the best depth loses no better pod |
| FrameStack.SearchStack.Push | src/calinix/cache_registry/prefix_query.rs:47-56 | Appends to the LIFO contents across the spill; the heap is entered exactly when a 33rd frame arrives |
| FrameStack.SearchStack.Pop | src/calinix/cache_registry/prefix_query.rs:59-70 | Removes and returns the last frame, None exactly on empty contents |
| FrameStack.SearchStack.SpillToHeap | src/calinix/cache_registry/prefix_query.rs:72-80 | The heap vector takes over all inline frames in order, then the new one |
| FrameStack.StackBound | src/calinix/cache_registry/prefix_query.rs:46-80 | A stack whose frames fit their places has at most 1 + ceil(log2(n+1)) frames, hence at most 32 for n + 1 <= 2^31 |
| PrefixSearch.SplitFits | src/calinix/cache_registry/prefix_query.rs:133-146 | Replacing the top frame by its halves, in either order, keeps position plus ceil(log2 of interval size) within ceil(log2(n+1)) |
| PrefixSearch.DepthBracket | src/calinix/cache_registry/prefix_query.rs:126-146 | With no closure assumption: naive depth <= search depth <= highest owned depth, the pod owns hash d-1 and not hash d |
| PrefixSearch.DepthOfClosed | src/base/bench_part2.rs:476-505 | On prefix-closed ownership search, scan and highest owned depth coincide |
| PrefixSearch.SearchIsScanExactly | src/base/bench_part2.rs:476-505 | For any ownership, search depth equals scan depth d if and only if the pod owns none of the hashes that a binary search heading for d probes beyond d, of which there are at most ceil(log2(n+1)) |
| PrefixSearch.DepthBeyondGap | src/calinix/cache_registry/prefix_query.rs:126-146 | A pod owning only the second of three hashes is searched to depth 2 and scanned to depth 0 |
| PrefixSearch.DepthIndependent | src/calinix/cache_registry/prefix_query.rs:127-131 | A pod's depth is a function of its own ownership bits; pods never influence each other |
| PrefixSearch.SoloMonotone | src/calinix/cache_registry/prefix_query.rs:126-146 | More ownership never gives less depth |
| PrefixSearch.FramesAreLookupsAndDepths | src/calinix/cache_registry/prefix_query.rs:264-301 | Frames processed = lookups + number of distinct depths |
| PrefixSearch.LookupsWithinWidth | src/calinix/cache_registry/prefix_query.rs:275-276 | The search never makes more lookups than the linear scan of the same interval |
| PrefixSearch.LookupsPerDepth | src/calinix/cache_registry/prefix_query.rs:275-276 | Lookups are at most the number of distinct depths times ceil(log2) of the interval size |
| BenchQueries.QueryPrefixDepthsNaive | src/base/bench_part2.rs:476-505 | The scan gives each alive candidate the number of leading hashes it owns, 0 elsewhere, with exactly n lookups, and tests each alive candidate on the hashes it owns and the first one it does not |
| BenchQueries.TestsCountedTwice | src/base/bench_part2.rs:493-503 | Counting the bit tests hash by hash, as the loop does, and pod by pod gives the same total |
| BenchQueries.QueryPrefixDepthsBinary | src/base/bench_part2.rs:269-328 | The bitmap search gives the specified depths and its three counters exactly |
| BenchQueries.CompareWithNaive | src/base/bench_part2.rs:570-605 | The scan and the search fill equal depth arrays if and only if every alive candidate has a clear path in the sense above, in particular on prefix-closed ownership; the search makes no more lookups than the scan's n |
| BenchQueries.EarlierPrefixLengthsDebug | src/base/indexer.rs:181-231 | The version that pushes empty frames finds the same depths with the same lookups, processing 1 + 2 x lookups frames |
| BenchQueries.MaskedViewSameDepth | src/base/indexer.rs:155-156 | Masking owners by the alive bitmap changes no alive pod's depth |
| Representations.ListIntersection | src/base/bench_part2.rs:1066-1084 | The merge of ascending lists is ascending and holds exactly the common members |
| Representations.ListMinus | src/base/bench_part2.rs:1086-1100 | Ascending, exactly the members of the left list that are not in the right one |
| Representations.ListBlockIndexer.Register | src/base/bench_part2.rs:147-155 | Keeps owner lists ascending and adds the pod to the hash's alive owners, changing no other hash |
| Representations.ListBlockIndexer.OwnersAlive | src/base/bench_part2.rs:157-165 | The ascending list of the alive owners |
| Representations.QueryPrefixDepthsBinaryList | src/base/bench_part2.rs:330-392 | The sorted-list search meets the same specification, depths and counters |
| Representations.PodArray.FullForCount | src/base/bench_part2.rs:87-93 | Exactly the pods below the count, capped at 256 |
| Representations.PodArray.And | src/base/bench_part2.rs:109-115 | Intersection of the flagged pods |
| Representations.PodArray.Minus | src/base/bench_part2.rs:117-123 | Difference of the flagged pods |
| Representations.PodArray.IsEmpty | src/base/bench_part2.rs:105-107 | True exactly when no pod is flagged |
| Representations.ArrayBlockIndexer.Register | src/base/bench_part2.rs:181-185 | Adds the pod to the hash's alive owners, changing no other hash |
| Representations.ArrayBlockIndexer.OwnersAlive | src/base/bench_part2.rs:187-195 | The flags of the alive owners |
| Representations.QueryPrefixDepthsBinaryArray | src/base/bench_part2.rs:394-452 | The bool-array search meets the same specification, depths and counters |
| Representations.FlagsOf | src/base/bench_part2.rs:1060-1064 | The array form of a bitmap has the same pods |
| Representations.BuildIndexer | src/base/bench_part2.rs:220-232 | The bitmap index ends with every pod among the alive owners of exactly the leading hashes registered for it |
| Representations.BuildListIndexer | src/base/bench_part2.rs:1032-1044 | The list index ends with the same alive owners |
| Representations.BuildArrayIndexer | src/base/bench_part2.rs:1046-1058 | The array index ends with the same alive owners |
| Representations.BuiltDepth | src/base/bench_part2.rs:220-232 | On a chain without repetitions the search depth of a pod is the depth registered for it, capped at the chain |
| Representations.CompareRepresentations | src/base/bench_part2.rs:659-725 | The same depths registered in a bitmap, a list and an array index give equal depth arrays and equal counters, and on a chain without repetitions the registered depths are found again |
| Representations.QueryRepresentations | src/base/bench_part2.rs:675-717 | On indexes with the same alive owners the three searches return equal depth arrays and equal counters |
| FlatRegistry.LastStepDecides | src/calinix/cache_registry/sharded_index.rs:54-157 | On every interleaving a pod owns a hash exactly when the last step affecting the pair is a registration, or none is and it owned it at the start |
| FlatRegistry.StepOwnership | src/calinix/cache_registry/events.rs:25-41 | One step changes the ownership of exactly the pairs it affects |
| FlatRegistry.PodCountIsMaximum | src/calinix/cache_registry/sharded_index.rs:190-205 | Over any run the pod count never decreases and ends at the maximum of its start and the ids observed plus one |
| FlatRegistry.EmptyEntryExactly | src/calinix/cache_registry/sharded_index.rs:54-96 | A step leaves an entry without owners exactly when it registers a pod id of 256 or more on an absent hash |
| FlatRegistry.NeverEmptyExactly | src/calinix/cache_registry/sharded_index.rs:54-96 | No empty owner set is stored at any point of a run if and only if every registration of an id of 256 or more finds its hash present |
| FlatRegistry.RunsKeepNoEmptyEntry | src/calinix/cache_registry/sharded_index.rs:86-96 | With ids below 256 no empty owner set is ever stored |
| FlatRegistry.DepthFollowsOwnership | src/calinix/cache_registry/sharded_index.rs:54-96 | Registering a hash never lowers any pod's depth on any chain, evicting never raises it |
| FlatRegistry.AfterChain | src/calinix/cache_registry/sharded_index.rs:76-84 | A registered chain adds the pod to the owners of exactly its hashes and raises the pod count to its id plus one |
| FlatRegistry.AfterEvict | src/calinix/cache_registry/sharded_index.rs:98-102 | An evicted chain takes the pod off exactly its hashes, whoever else owns them, and drops exactly the entries it alone owned |
| FlatRegistry.RegisteredChainIsFound | src/calinix/cache_registry/sharded_index.rs:76-84 | After `register_chain` a query for the chain finds full depth for the pod, whatever else the index holds |
| FlatRegistry.AfterClean | src/calinix/cache_registry/sharded_index.rs:138-146 | A full sweep removes the pod from every hash and drops the entries left without owner |
| FlatRegistry.CleanupInvisible | src/calinix/cache_registry/sharded_index.rs:138-146 | At every point of the sweep all alive-owner sets and all alive pods' depths are unchanged if and only if the pod is not alive or owns nothing in the swept shards |
| FlatRegistry.RetainInvisible | src/calinix/cache_registry/sharded_index.rs:148-157 | The sweep of non-alive pods changes no answer if and only if every alive owner of a swept hash is in the alive snapshot it took |
| FlatRegistry.CleanupRemoves | src/calinix/cache_registry/cleanup.rs:15-23 | The number of entries removed is the number of hashes that nobody else owns |
| FlatRegistry.RetainRemoves | src/calinix/cache_registry/cleanup.rs:25-33 | The number of entries removed is the number of hashes owned by nobody alive |
| Interleavings.HarmlessStepsDropped | src/calinix/cache_registry/sharded_index.rs:138-157 | Dropping any registrations, evictions and cleanups of other pods, or sweeps whose snapshot holds the pod, from an interleaving changes nothing of the pod's ownership and nobody's liveness |
| Interleavings.HarmlessStepsSameDepth | src/calinix/cache_registry/sharded_index.rs:138-157 | So the pod is found at the same depth of every chain, with those steps or without |
| Interleavings.SweptOrReadded | src/calinix/cache_registry/sharded_index.rs:138-157 | Whatever other threads do during a sweep, a swept pod owns a hash afterwards only if it was registered for it again after the lock of that hash's shard |
| Interleavings.CountBracket | src/calinix/cache_registry/sharded_index.rs:159-178 | A count that reads the shards one lock after another lies between the numbers of entries at its start and end while entries only come or only go, and is exact while neither happens |
| Interleavings.OneWayKeys | src/calinix/cache_registry/sharded_index.rs:54-157 | Without evictions and cleanups entries only come, without registrations they only go |
| ShardedIndex.ShardedBlockIndexer.constructor | src/calinix/cache_registry/sharded_index.rs:34-44 | An empty relation over max(shard count, 1) shards |
| ShardedIndex.ShardedBlockIndexer.ObservePod | src/calinix/cache_registry/sharded_index.rs:190-205 | Under finitely many failed exchanges, spurious or raced, the state ends as if the rivals met and then this call had each taken their atomic count step: the maximum of the start, the rivals' ids plus one and its own id plus one |
| ShardedIndex.ShardedBlockIndexer.AddOwner | src/calinix/cache_registry/sharded_index.rs:57-73 | The locked region refines the flat step; true exactly when the pod did not own the hash |
| ShardedIndex.ShardedBlockIndexer.Register | src/calinix/cache_registry/sharded_index.rs:54-74 | Two steps, count then owners; true exactly when the pod did not own the hash |
| ShardedIndex.ShardedBlockIndexer.RegisterChain | src/calinix/cache_registry/sharded_index.rs:76-84 | The steps of the chain in order; returns the number of distinct hashes new for the pod, or the chain length for an id that cannot be stored |
| ShardedIndex.ShardedBlockIndexer.RegisterChainAmid | src/calinix/cache_registry/sharded_index.rs:76-84 | With other threads before each of its atomic steps: the steps taken, woven with theirs, and the number of registrations that found the pod without the hash |
| ShardedIndex.UntouchedChainCount | src/calinix/cache_registry/sharded_index.rs:76-84 | That number is the number of distinct hashes new for the pod at the start, as long as nobody else touches the pod's ownership of the chain |
| ShardedIndex.ShardedBlockIndexer.Evict | src/calinix/cache_registry/sharded_index.rs:86-96 | Refines the flat removal, dropping an entry whose last owner leaves |
| ShardedIndex.ShardedBlockIndexer.EvictChain | src/calinix/cache_registry/sharded_index.rs:98-102 | Evicts every hash of the chain in order |
| ShardedIndex.ShardedBlockIndexer.MarkAlive | src/calinix/cache_registry/sharded_index.rs:104-110 | Count step, then the alive bit |
| ShardedIndex.ShardedBlockIndexer.Shutdown | src/calinix/cache_registry/sharded_index.rs:112-118 | Clears the alive bit only; ownership stays |
| ShardedIndex.ShardedBlockIndexer.Owners | src/calinix/cache_registry/sharded_index.rs:120-128 | Reading the hash's own shard gives the owners of the flat relation |
| ShardedIndex.ShardedBlockIndexer.OwnersAlive | src/calinix/cache_registry/sharded_index.rs:130-132 | The owners that are alive |
| ShardedIndex.ShardedBlockIndexer.CleanupDeadPod | src/calinix/cache_registry/sharded_index.rs:138-146 | One step per shard, in shard order |
| ShardedIndex.ShardedBlockIndexer.CleanupNotAlive | src/calinix/cache_registry/sharded_index.rs:148-157 | One step per shard against one alive snapshot |
| ShardedIndex.ShardedBlockIndexer.SweepAmid | src/calinix/cache_registry/sharded_index.rs:138-157 | A sweep with other threads before each of its locks takes one step per shard, woven with theirs |
| ShardedIndex.ShardedBlockIndexer.TotalEntries | src/calinix/cache_registry/sharded_index.rs:159-178 | The shard sizes add up to the number of keys of the flat relation |
| ShardedIndex.ShardedBlockIndexer.TotalEntriesAmid | src/calinix/cache_registry/sharded_index.rs:159-178 | With other threads before each shard is read: the sum of the shard sizes, each as its read finds it |
| ShardedIndex.ShardedBlockIndexer.ApplyEvent | src/calinix/cache_registry/events.rs:25-41 | Each event takes the steps of its operation: a cached prefix adds one owner of one hash, an evicted one removes it, a start or shutdown changes one alive bit and no owner, a cleanup takes one pod off every hash; the pod count rises with cached prefixes and starts only |
| ShardedIndex.EventEffect | src/calinix/cache_registry/events.rs:25-41 | Those are the effects of the steps of each event on ownership, liveness and pod count |
| ShardedIndex.ShardedBlockIndexer.Interfere | src/calinix/cache_registry/sharded_index.rs:54-157 | Any interleaving of lock regions, executed on the real shards, is the run of its steps on the flat relation |
| ShardedIndex.FlatAt | src/calinix/cache_registry/sharded_index.rs:186-188 | Since each key lies in its own shard only, the flat relation at a hash is read off one shard |
| Cleanup.CleanupDeadPod | src/calinix/cache_registry/cleanup.rs:15-23 | The report counts the hashes owned by nobody else; answers are unchanged if and only if the pod was not alive or owned nothing |
| Cleanup.CleanupNotAlive | src/calinix/cache_registry/cleanup.rs:25-33 | The report counts the hashes owned by nobody alive; no answer changes |
| Cleanup.CleanupDeadPodAmid | src/calinix/cache_registry/cleanup.rs:15-23 | With other threads between all locks of both counts and the sweep: each count is bracketed by the entries at its ends while entries only come or only go and exact while neither happens; the pod ends owning only hashes registered for it behind the sweep, and every other pod is where it would be without it |
| Cleanup.CleanupNotAliveAmid | src/calinix/cache_registry/cleanup.rs:25-33 | The same, with the alive bitmap read before the sweep: pods outside that snapshot end owning only hashes registered behind the sweep, and every pod of it is where it would be without the sweep |
| Cleanup.BlockOwners | src/calinix/cache_registry/sharded_index.rs:166-174 | Strictly sorted by hash, and exactly the entries of the flat relation |
| Cleanup.BlockOwnersAmid | src/calinix/cache_registry/sharded_index.rs:166-174 | With other threads before each shard is read: strictly sorted, and exactly the entries that the read of their shard found |
| Closure.OperationOwners | src/calinix/cache_registry/sharded_index.rs:76-157 | What each whole operation does, step after step: a registered prefix adds the pod to exactly its hashes, a cleanup takes one pod or all pods outside the snapshot off every hash, and only the liveness operations change the alive set |
| Closure.OperationKeepsClosed | src/calinix/cache_registry/sharded_index.rs:76-157 | Each whole operation keeps prefix closure over all consistent chains |
| Closure.RunsKeepClosed | src/calinix/cache_registry/sharded_index.rs:76-157 | Prefix closure over all chains survives every run of chain-prefix registrations, liveness changes and cleanups, for consistent chains |
| Closure.StepKeepsClosedExactly | src/calinix/cache_registry/sharded_index.rs:54-157 | From closed ownership, one lock region leaves the pod's ownership of a chain closed if and only if it registers a hash whose predecessors the pod owns, or removes none before a hash it leaves owned |
| Closure.ClosedThroughoutExactly | src/calinix/cache_registry/sharded_index.rs:54-157 | On any interleaving of lock regions a pod's ownership of a chain is closed at every point if and only if every region meets that condition where it is taken |
| Closure.RegistrationsKeepClosed | src/calinix/app/bootstrap.rs:266-275 | Any number of `register_chain` calls at once, interleaved hash by hash with each other and with steps that leave the pod's ownership alone, keep it closed at every point, for consistent chains |
| Closure.PromptChainsConsistent | src/calinix/cache_registry/cumulative_hash.rs:34-64 | Chains of prompts are consistent when the strings hashed for any two of them neither collide nor hash to 0 |
| Closure.SearchIsScanOnRuns | src/calinix/cache_registry/prefix_query.rs:96-148 | From an empty index, after every such run, the search of every prompt equals the linear scan for every pod |
| Closure.SearchIsScanAmidRegistrations | src/calinix/cache_registry/prefix_query.rs:96-148 | At every point of such an interleaving the search of every prompt equals the linear scan |
| Closure.CleanupInsideRegistration | src/calinix/cache_registry/sharded_index.rs:76-146 | For every chain of distinct hashes and every cut m, a cleanup of the pod after the first m hashes of its registration leaves it exactly the hashes from m on, so closed if and only if m is 0 or the whole length (or the id cannot be stored) |
| Closure.RegistrationAmidCleanup | src/calinix/cache_registry/sharded_index.rs:76-146 | However a registration of distinct hashes and a cleanup of the same pod are interleaved lock by lock, the pod ends as owner of exactly the hashes whose shard was not swept after they were registered |
| Hashing.StreamingChain | src/calinix/cache_registry/cumulative_hash.rs:34-64 | For every prompt and block size: ceil(tokens / block size) hashes, one per token for block size 0; entry k is the FNV-1a hash of the 16 bytes that stand for entry k - 1, 0 at the start, and for the FNV-1a hash of the k-th group of tokens, the last group being what is left; this is the chain of the staged pipeline |
| Hashing.ChainExactly | src/calinix/cache_registry/cumulative_hash.rs:13-64 | The staged pipeline (tokenize, chunk, hash, accumulate) gives the only list of that length linked in that way; block size 0 gives the chain of block size 1 |
| Hashing.ComputeHashBlock | src/calinix/cache_registry/block_hash.rs:24-35 | The block hash is the FNV-1a hash of the encoded tokens |
| Hashing.EncodeConcat | src/calinix/cache_registry/block_hash.rs:24-35 | The encoding of one token is its bytes and 0xff, and that of a list of tokens is the concatenation of theirs |
| Hashing.ComputeFnv1a64 | src/calinix/cache_registry/block_hash.rs:8-15 | The loop is the FNV-1a fold over the bytes |
| Hashing.AbsorbToken | src/calinix/cache_registry/cumulative_hash.rs:41-47 | Absorbing a token and the terminator extends the hashed token list by it |
| Hashing.CombineCumulative | src/calinix/cache_registry/cumulative_hash.rs:6-11 | The result is the FNV-1a hash of some 16 bytes whose first eight stand for the previous hash and whose last eight stand for the block hash, as sums of byte i times 256^i |
| Hashing.CombineIs | src/calinix/cache_registry/cumulative_hash.rs:6-11 | There is exactly one such hash |
| Hashing.CombineInputInjective | src/calinix/cache_registry/cumulative_hash.rs:7-9 | Different pairs of hashes are combined from different byte strings |
| Hashing.CumulativeHashesFromBlocks | src/calinix/cache_registry/cumulative_hash.rs:13-21 | One hash per block, each combining the hash before it, 0 at the start, with its block hash |
| Hashing.SharedBlocksSharedHashes | src/calinix/cache_registry/cumulative_hash.rs:34-64 | Prompts equal on their first k times block size tokens share their first k hashes |
| Hashing.EncodeInjective | src/calinix/cache_registry/block_hash.rs:24-35 | Tokens without 0xff are decoded uniquely from the hashed bytes |
| Hashing.MatchIsPrefixExactly | src/calinix/cache_registry/cumulative_hash.rs:6-21 | For two prompts with equal hashes at position i, all covered tokens are equal if and only if no two strings hashed at one place of the two prompts up to there collide |
| Hashing.EqualHashEqualPrefix | src/calinix/cache_registry/cumulative_hash.rs:6-21 | In particular, if no two of the strings hashed for two prompts collide at all, equal hashes at one position force equal tokens up to and including that block |
| Collision.MatchWithoutPrefix | src/calinix/cache_registry/cumulative_hash.rs:34-64 | Two concrete tokens of equal FNV-1a hash: for every continuation and block size the two prompts that begin with them have the same whole chain and no equal covered prefix |
| Collision.SameHeadSameChain | src/calinix/cache_registry/cumulative_hash.rs:34-64 | Any two tokens of equal hash can be exchanged at the head of a prompt without changing its chain |
| Hashing.HashTellsPosition | src/calinix/cache_registry/cumulative_hash.rs:13-21 | If moreover none of them hashes to 0, equal hashes sit at equal positions and the chains agree up to there |
| Fibonacci.ShardFor | src/calinix/cache_registry/fibonacci.rs:10-14 | The shard is below the count, 0 read as 1 |
| Fibonacci.ShardIs | src/calinix/cache_registry/fibonacci.rs:4-14 | The shard is the whole part of count times mixed hash over 2^64, and the multiplier is 2^64 over the golden ratio, rounded down |
| Fibonacci.ShardsAgree | src/base/indexer.rs:15-17 | At 256 shards it is the plain shift to the top 8 bits |
| Fibonacci.MixBijective | src/calinix/cache_registry/fibonacci.rs:12-12 | The multiplication modulo 2^64 is undone by the inverse multiplier, so no two hashes mix alike |
| Fibonacci.ShardsBalanced | src/calinix/cache_registry/fibonacci.rs:10-14 | Over the whole hash space every shard gets floor or ceiling of 2^64 / count hashes |
| Bitmap.HostBitmap.Set | src/calinix/cache_registry/host_bitmap.rs:47-52 | Adds the pod, or nothing for an id of 256 or more |
| Bitmap.HostBitmap.Clear | src/calinix/cache_registry/host_bitmap.rs:54-59 | Removes the pod |
| Bitmap.HostBitmap.And | src/calinix/cache_registry/host_bitmap.rs:92-101 | Four word operations are the intersection of the pod sets |
| Bitmap.HostBitmap.Minus | src/calinix/cache_registry/host_bitmap.rs:114-123 | Four word operations are the difference of the pod sets |
| Bitmap.HostBitmap.IsEmpty | src/calinix/cache_registry/host_bitmap.rs:68-70 | All words zero exactly when no pod is in the set |
| Bitmap.HostBitmap.FirstSetBit | src/calinix/cache_registry/host_bitmap.rs:83-90 | The least pod, None exactly for the empty set |
| Bitmap.HostBitmap.HighestSetBitPlusOne | src/calinix/cache_registry/host_bitmap.rs:35-45 | One more than the greatest pod, 0 for the empty set |
| Bitmap.HostBitmap.IterSetBits | src/calinix/cache_registry/host_bitmap.rs:125-140 | Visits every pod of the set once, in ascending order, and nothing else |
| Bitmap.HostBitmap.FullForCount | src/calinix/cache_registry/host_bitmap.rs:17-29 | Exactly the pods below the count, capped at 256 |
| Bitmap.AscendingUnique | src/calinix/cache_registry/host_bitmap.rs:131-140 | The visiting order is the only ascending listing of the set |
| MachineWord.Word.TrailingZeros | src/calinix/cache_registry/host_bitmap.rs:135-135 | The lowest set bit of a nonzero word |
| MachineWord.Word.DropLowest | src/calinix/cache_registry/host_bitmap.rs:137-137 | `w & (w - 1)` removes the lowest set bit, nothing else, and decreases the word |
| Load.LoadState.Track | src/calinix/upstream/load.rs:39-46 | Adds one to the pod's counter and yields a guard, exactly for known pods |
| Load.LoadState.Decrement | src/calinix/upstream/load.rs:54-62 | Takes one off the pod's counter, saturating at 0 |
| Load.Perform | src/calinix/upstream/load.rs:24-73 | Running the counter methods is the protocol step: the counters end as the transition says |
| Load.ActionEffect | src/calinix/upstream/load.rs:24-62 | One atomic operation keeps counter and guards equal, raises inflight plus pending only through a check that saw room, and leaves every other request as it was |
| Load.CounterIsGuards | src/calinix/upstream/load.rs:39-73 | On every interleaving a counter equals the number of live guards of its pod |
| Load.CommittedBounded | src/calinix/upstream/load.rs:24-46 | With at most k requests between check and track at any time, inflight plus pending stays at most max_conns - 1 + k on every run |
| Load.BoundAttained | src/calinix/routing/filter.rs:67-78 | On every catalog, for every pod with capacity and every k >= 1 some run reaches max_conns - 1 + k, so the bound is exact |
| Load.CapacityRespectedExactly | src/calinix/routing/filter.rs:67-78 | All runs with at most k requests between check and track keep inflight within max_conns if and only if k <= 1 or max_conns is 0 |
| Health.PodHealthState.ObserveResult | src/calinix/upstream/health.rs:38-64 | The method updates counters and mark as the transition function says |
| Health.MarkedIsLatestRun | src/calinix/upstream/health.rs:38-64 | For u8 thresholds the mark holds exactly when the latest completed threshold-length run was one of successes; the saturating counters equal the unbounded run lengths capped at 255 |
| Health.LatestRunIs | src/calinix/upstream/health.rs:38-64 | The latest completed run was one of successes if and only if at some point the healthy threshold of successes in a row had just been seen and no threshold of failures in a row since |
| Health.RunLengthIs | src/calinix/upstream/health.rs:46-53 | A run length reaches k exactly when the last k results are alike |
| Health.TransitionsAlternate | src/calinix/upstream/health.rs:47-59 | Emitted transitions strictly alternate starting with alive, and the mark is their parity |
| Health.PollerOwnsLiveness | src/calinix/upstream/health.rs:114-145 | While only the poller writes liveness the alive pods are the marked ones, over all interleavings of results |
| Health.StatesFollowOwnTrace | src/calinix/upstream/health.rs:123-128 | Each pod's state depends on its own results only |
| Health.AliveIsLatestRun | src/calinix/upstream/health.rs:114-145 | End to end: a pod is in the alive set exactly when its own latest completed run was one of successes |
| Health.LastWriterDecides | src/calinix/app/bootstrap.rs:265-271 | With a second writer of liveness, over all mixed interleavings: a pod's bit is what the last outside write made it if no transition of the poller followed, and the poller's mark otherwise |
| Health.AliveFollowsPollerExactly | src/calinix/app/bootstrap.rs:265-271 | Bit and mark of a pod agree if and only if no outside write is the bit's last write, or that write agrees with the mark |
| Health.AliveIsLastWrite | src/calinix/app/bootstrap.rs:103-106 | End to end from the start: the bit is the last outside write if no transition followed, else the pod's own latest completed run |
| Health.FailuresClearExactlyMarked | src/calinix/upstream/health.rs:54-59 | Failed checks alone clear an alive pod if and only if the poller has it marked and the capped failure count reaches the threshold |
| Health.SuccessesReviveExactlyUnmarked | src/calinix/upstream/health.rs:46-51 | Successful checks alone revive a pod that is not alive if and only if the poller has it unmarked and the capped success count reaches the threshold |
| Health.OutsideWritesStrand | src/calinix/app/bootstrap.rs:158-158 | From the start one outside write makes a pod alive and unmarked; after any results that mark it, a shutdown event makes it marked and not alive |
| Health.StrandedForever | src/calinix/app/bootstrap.rs:265-271 | The first pod then survives any failed checks, the second is revived by no successful ones |
| Health.ApplyHealthResult | src/calinix/upstream/health.rs:114-145 | Updates the pod's state and the registry's alive set as the monitor step says, ignores unknown pods, leaves ownership alone, and counts the pod as seen exactly when it is revived |
| Routing.GroupByName | src/calinix/upstream/pool.rs:21-23 | The first group of the name, None exactly when there is none |
| Routing.EligibleCandidates | src/calinix/routing/filter.rs:51-80 | Exactly the available pods of the named group that have the role, are healthy, not draining, and below capacity |
| Routing.EligibleExactly | src/calinix/routing/filter.rs:51-80 | A pod is eligible if and only if the first group of that name has the role and lists it, it is available, and the catalog entry at its position carries its id, is healthy, is not draining, has the capability of the role and has fewer requests in flight than its capacity |
| Routing.DrainingRemoves | src/calinix/routing/filter.rs:74-74 | Setting one pod's draining flag makes that pod ineligible and changes nobody else |
| Routing.BestCandidate | src/calinix/routing/score.rs:106-140 | The running best has a score no candidate exceeds, and no candidate of equal score has a smaller id; NoCandidates only when none can be scored |
| Routing.BothFindTop | src/calinix/routing/pick.rs:8-20 | `max_by` on a list and the running best both return an element whose score none exceeds and whose id is the least at that score, None only for the empty list |
| Routing.PickIsFold | src/calinix/routing/pick.rs:8-38 | On one score per pod, list maximum and running best choose the same score in any visiting orders |
| Routing.ScoreTimes | src/calinix/routing/score.rs:154-192 | For any weights, the score times chain length times capacity is 100 times the weighted sum of depth, free slots and bonuses on that scale, with no quotient and no clamping; an empty chain gives no cache share and a pod without slots or overfull no load share |
| Routing.DefaultScores | src/calinix/routing/pipeline.rs:73-90 | The default stage role by role on that scale: 60, 65 and 10 points for the cached share of the chain, 30, 25 and 55 for the free share of the slots, 10 for the sticky pod, and 25 for the prefill pod in decode scoring only |
| Routing.CacheLeadWins | src/calinix/routing/score.rs:189-192 | For any weights: a pod with a free slot whose cache lead outweighs load, stickiness and locality together beats the other pod |
| Routing.SmallerLeadCanLose | src/calinix/routing/score.rs:189-192 | For any weights, any chain length and any two depths not that far apart, there is a capacity at which the leader with one free slot loses to an idle sticky pod |
| Routing.CacheLeadDecidesExactly | src/calinix/routing/score.rs:189-192 | For any weights and any prefill pod, the leader wins under every load that leaves it a free slot and for every sticky pod if and only if its lead outweighs load, stickiness and locality together |
| Routing.DefaultLeadDecidesExactly | src/calinix/routing/pipeline.rs:73-90 | With the default weights that is exactly a lead of two thirds of the chain for a single pod and of seven thirteenths for a prefill pod; for a decode pod no lead within the chain is enough |
| Routing.IdleDecidesExactly | src/calinix/routing/score.rs:189-192 | For any weights an idle pod beats another one whatever both depths, the sticky pod and the prefill pod if and only if the load weight of the other's taken slots exceeds all its other weights |
| Routing.IdleDecodePodDecidesExactly | src/calinix/routing/pipeline.rs:85-90 | With the default decode weights: if and only if more than nine elevenths of the other's slots are taken, seven elevenths for an empty chain, or it has none |
| Routing.PrefillPodKeepsDecode | src/calinix/routing/pipeline.rs:85-90 | With the default decode weights the prefill pod beats every pod that is ahead of it neither in depth nor in load, whichever pod is sticky |
| Pipeline.PickForRole | src/calinix/routing/pipeline.rs:172-194 | While other threads change the index between lookups and the counters between filter and scoring: filter, query and score choose a pod eligible by the counters its check read, scored by the counter its scoring read and with a depth the lookups justify; no eligible pod scored likewise has a greater score, or an equal one and a smaller id, and there is only one such choice; an error exactly when none is eligible |
| Pipeline.SteadyChoice | src/calinix/routing/pipeline.rs:172-194 | Where no lookup found an eligible pod changed, the choice is the one the index at the start calls for |
| Pipeline.BuildSinglePlan | src/calinix/routing/pipeline.rs:162-206 | The plan targets that pod with its address and depth, reports a hit exactly for positive depth, and fails only with NoCandidates when nobody is eligible; where no lookup found an eligible pod changed, depth and choice are those of the index at the start |
| Pipeline.BuildDisaggregatedPlan | src/calinix/routing/pipeline.rs:208-281 | Prefill and decode pods are each the best of their role on what its own query and scoring saw, with arbitrary steps of other threads between any two lookups and between the two picks, the decode choice made with locality to the prefill pod; fails only when either role has no eligible pod |
| Pipeline.PlannedPodNotFarBehind | src/calinix/routing/pipeline.rs:162-281 | In every role, an eligible pod found with a deciding lead over the planned one, two thirds of the chain for a single pod and seven thirteenths for a prefill pod, had no free slot left when it was scored |
| Pipeline.SettledPlanNotFarBehind | src/calinix/routing/pipeline.rs:162-281 | With index and counters at rest no eligible pod's cached depth has a deciding lead over the planned pod's, in any role |
| Pipeline.DecodeStaysWithPrefill | src/calinix/routing/pipeline.rs:240-281 | The decode pod is the prefill pod itself if that is eligible and no other eligible pod is ahead of it in depth or in load |
| Pipeline.AvailablePods | src/calinix/routing/pipeline.rs:283-297 | The alive pods, or all configured pods below 256 when health is not required |

## Left out

- HTTP forwarding, the axum router, the health HTTP calls, Tokio scheduling and timeouts: only the points where a guard is taken or the registry is written appear, as steps.
- Configuration loading, OpenAI payload and header handling, snapshots, statistics, logging, the sticky store and the inline depth buffer: thin wrappers. The sticky pod and the prefill pod enter scoring as parameters.
- `split_whitespace` and Unicode: prompts start as token lists; that a token has no 0xff byte (true of UTF-8, section 1 of RFC 3629) is a hypothesis where it matters.
- IEEE rounding and NaN in scores, and memory orderings weaker than one atomic step per operation.
- `usize` overflow of pod ids and counters, and the debug logging inside register and evict.
- Benchmark drivers and percentiles measure running time. The synthetic chains and depths they build are arbitrary lists here. Bitmap `or` and `count_ones` and the index's `clear` serve only tests and statistics, or have no caller.
- ShardedIndex.ShardedBlockIndexer.ObservePod: termination needs the list of failing exchanges to be finite; a weak exchange may fail spuriously without bound in principle. `Register` and `MarkAlive` call it undisturbed; `RegisterAmid` and the step lists put other threads around it.
- Closure.RunsKeepClosed: operations are whole here; single lock regions and their interleavings are the subject of the step-level results of the same module.
- Routing.FinalScore: the component scores kept beside the final score in the source's record are not stored, only computed.
- HostBitmap words are values: the source's in-place `set` and `clear` on a copyable struct are functions returning the new bitmap.
