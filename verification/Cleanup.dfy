/** Cleanup reports (src/calinix/cache_registry/cleanup.rs) and the sorted owner listing of
    src/calinix/cache_registry/sharded_index.rs. */
module Cleanup {
  import opened Integers
  import opened Bitmap
  import opened Fibonacci
  import opened FlatRegistry
  import opened Interleavings
  import opened ShardedIndex

  datatype CleanupReport = CleanupReport(entriesBefore: nat, entriesAfter: nat) {
    /** `removed_entries`, a saturating subtraction. */
    function RemovedEntries(): nat {
      if entriesBefore < entriesAfter then 0 else entriesBefore - entriesAfter
    }
  }

  /** `cleanup_dead_pod`: reports the hashes that nobody else owns; queries cannot tell the
      difference unless the pod was alive and owned something. */
  method CleanupDeadPod(indexer: ShardedBlockIndexer, pod: nat) returns (report: CleanupReport)
    requires indexer.Valid()
    modifies indexer, indexer.shards
    ensures indexer.Valid() && indexer.State() == Run(old(indexer.State()), CleanSteps(indexer.shards.Length, pod))
    ensures report.RemovedEntries() == |Orphaned(old(indexer.State()).flat, OtherThan(pod))|
    ensures report.entriesAfter == |indexer.State().flat|
    ensures SameAnswers(old(indexer.State()), indexer.State()) <==>
      (pod in old(indexer.alive).Pods() ==> forall hash :: pod !in old(indexer.State()).Owners(hash))
  {
    hide FlatOf, HostBitmap.Pods, Run, CleanSteps, SameAnswers, Orphaned;
    ghost var s := indexer.State();
    var entriesBefore := indexer.TotalEntries();
    indexer.CleanupDeadPod(pod);
    var entriesAfter := indexer.TotalEntries();
    CleanupRemoves(s, pod);
    WholeSweep(s, pod);
    report := CleanupReport(entriesBefore, entriesAfter);
  }

  lemma WholeSweep(s: Registry, pod: nat)
    requires s.shardCount > 0
    ensures SameAnswers(s, Run(s, CleanSteps(s.shardCount, pod))) <==>
      (pod in s.alive ==> forall hash :: pod !in s.Owners(hash))
  {
    hide Run, SameAnswers, ShardFor, Registry.Owners;
    assert CleanSteps(s.shardCount, pod)[..s.shardCount] == CleanSteps(s.shardCount, pod);
    CleanupInvisible(s, pod, s.shardCount);
    assert forall hash :: ShardFor(hash, s.shardCount) < s.shardCount;
  }

  /** `cleanup_not_alive`: never changes an answer. */
  method CleanupNotAlive(indexer: ShardedBlockIndexer) returns (report: CleanupReport)
    requires indexer.Valid()
    modifies indexer, indexer.shards
    ensures indexer.Valid() && indexer.alive == old(indexer.alive)
    ensures indexer.State() == Run(old(indexer.State()), RetainSteps(indexer.shards.Length, indexer.alive))
    ensures report.RemovedEntries() == |Orphaned(old(indexer.State()).flat, MemberOf(indexer.alive))|
    ensures report.entriesAfter == |indexer.State().flat|
    ensures SameAnswers(old(indexer.State()), indexer.State())
  {
    hide FlatOf, HostBitmap.Pods, Run, RetainSteps, SameAnswers, Orphaned;
    ghost var s := indexer.State();
    var entriesBefore := indexer.TotalEntries();
    indexer.CleanupNotAlive();
    var entriesAfter := indexer.TotalEntries();
    RetainRemoves(s, indexer.alive);
    WholeRetain(s, indexer.alive);
    report := CleanupReport(entriesBefore, entriesAfter);
  }

  lemma WholeRetain(s: Registry, snapshot: HostBitmap)
    requires s.alive == snapshot.Pods()
    ensures SameAnswers(s, Run(s, RetainSteps(s.shardCount, snapshot)))
  {
    hide Run, SameAnswers, HostBitmap.Pods;
    assert RetainSteps(s.shardCount, snapshot)[..s.shardCount] == RetainSteps(s.shardCount, snapshot);
    RetainInvisible(s, snapshot, s.shardCount);
  }

  // Reports while other threads act

  /** What other threads do before the locks of the first count, before the sweep, before its locks,
      and before those of the second count. */
  datatype Meanwhile = Meanwhile(counting: nat -> seq<Step>, between: seq<Step>, sweeping: nat -> seq<Step>,
                                 recounting: nat -> seq<Step>)

  ghost predicate InRange(m: Meanwhile, shardCount: nat) {
    && (forall k :: ShardsInRange(m.counting(k), shardCount))
    && ShardsInRange(m.between, shardCount)
    && (forall k :: ShardsInRange(m.sweeping(k), shardCount))
    && (forall k :: ShardsInRange(m.recounting(k), shardCount))
  }

  /** The registries after the first count, before the sweep, after it and after the second count. */
  datatype Phases = Phases(counted: Registry, unswept: Registry, swept: Registry, recounted: Registry)

  ghost predicate Passed(s: Registry, m: Meanwhile, own: nat -> Step, t: Phases) {
    && t.counted == Run(s, Interleaved(m.counting, s.shardCount))
    && t.unswept == Run(t.counted, m.between)
    && t.swept == Run(t.unswept, Woven(m.sweeping, own, s.shardCount))
    && t.recounted == Run(t.swept, Interleaved(m.recounting, s.shardCount))
  }

  /** Each count lies between the numbers of entries at its two ends while entries only come or only
      go meanwhile, and is exact while neither happens. */
  ghost predicate Reported(report: CleanupReport, s: Registry, m: Meanwhile, t: Phases) {
    var n := s.shardCount;
    && (KeysGrow(s, m.counting, n) ==> |s.flat| <= report.entriesBefore <= |t.counted.flat|)
    && (KeysShrink(s, m.counting, n) ==> |t.counted.flat| <= report.entriesBefore <= |s.flat|)
    && (KeysGrow(t.swept, m.recounting, n) ==> |t.swept.flat| <= report.entriesAfter <= |t.recounted.flat|)
    && (KeysShrink(t.swept, m.recounting, n) ==> |t.recounted.flat| <= report.entriesAfter <= |t.swept.flat|)
  }

  /** To a pod that the sweep cannot remove, the sweep makes no difference, whatever others do. */
  ghost predicate Unnoticed(m: Meanwhile, own: nat -> Step, mine: Step -> bool, t: Phases, pod: nat) {
    forall hash: u64 ::
      SameFor(t.swept, Run(t.unswept, Kept(Woven(m.sweeping, own, t.unswept.shardCount), mine)), pod, hash)
  }

  /** What the pod owns after the sweep was registered by other threads behind it. */
  ghost predicate GoneUnlessReadded(m: Meanwhile, t: Phases, pod: nat) {
    forall hash: u64 :: pod in t.swept.Owners(hash) ==>
      Readded(m.sweeping, pod, hash, ShardFor(hash, t.unswept.shardCount), t.unswept.shardCount)
  }

  lemma Gone(m: Meanwhile, own: nat -> Step, t: Phases, pod: nat)
    requires t.unswept.shardCount > 0 && t.swept == Run(t.unswept, Woven(m.sweeping, own, t.unswept.shardCount))
    requires forall k: nat ::
      own(k) == CleanShard(k, pod) || (own(k).RetainAlive? && own(k).shard == k && pod !in own(k).snapshot.Pods())
    ensures GoneUnlessReadded(m, t, pod)
  {
    hide ShardFor, Run, Woven, Registry.Owners, HostBitmap.Pods, Readded;
    forall hash: u64
      ensures pod in t.swept.Owners(hash) ==>
        Readded(m.sweeping, pod, hash, ShardFor(hash, t.unswept.shardCount), t.unswept.shardCount)
    {
      SweptOrReadded(t.unswept, m.sweeping, own, pod, hash, t.unswept.shardCount);
    }
  }

  /** `cleanup_dead_pod` with other threads between all its locks. */
  method CleanupDeadPodAmid(indexer: ShardedBlockIndexer, pod: nat, m: Meanwhile)
    returns (report: CleanupReport, ghost t: Phases)
    requires indexer.Valid() && InRange(m, indexer.shards.Length)
    modifies indexer, indexer.shards
    ensures indexer.Valid() && indexer.State() == t.recounted
    ensures Passed(old(indexer.State()), m, CleanOwn(pod), t)
    ensures Reported(report, old(indexer.State()), m, t)
    ensures forall other: nat :: other != pod ==> Unnoticed(m, CleanOwn(pod), CleansPod(pod), t, other)
    ensures GoneUnlessReadded(m, t, pod)
  {
    hide FlatOf, HostBitmap.Pods, Run, KeysGrow, KeysShrink, ShardsInRange, Unnoticed, Woven, Interleaved, SizesSeen;
    ghost var s := indexer.State();
    var entriesBefore := indexer.TotalEntriesAmid(m.counting);
    ghost var counted := indexer.State();
    indexer.Interfere(m.between);
    ghost var unswept := indexer.State();
    indexer.SweepAmid(CleanOwn(pod), m.sweeping);
    ghost var swept := indexer.State();
    var entriesAfter := indexer.TotalEntriesAmid(m.recounting);
    t := Phases(counted, unswept, swept, indexer.State());
    report := CleanupReport(entriesBefore, entriesAfter);
    CountBracket(s, m.counting);
    CountBracket(swept, m.recounting);
    forall other: nat | other != pod ensures Unnoticed(m, CleanOwn(pod), CleansPod(pod), t, other) {
      SweepUnnoticed(m, CleanOwn(pod), CleansPod(pod), t, other);
    }
    Gone(m, CleanOwn(pod), t, pod);
  }

  /** `cleanup_not_alive` with other threads between all its locks; `snapshot` is the alive bitmap
      as its read finds it. */
  method CleanupNotAliveAmid(indexer: ShardedBlockIndexer, m: Meanwhile)
    returns (report: CleanupReport, snapshot: HostBitmap, ghost t: Phases)
    requires indexer.Valid() && InRange(m, indexer.shards.Length)
    modifies indexer, indexer.shards
    ensures indexer.Valid() && indexer.State() == t.recounted && snapshot.Pods() == t.unswept.alive
    ensures Passed(old(indexer.State()), m, RetainOwn(snapshot), t)
    ensures Reported(report, old(indexer.State()), m, t)
    ensures forall pod: nat :: pod in snapshot.Pods() ==> Unnoticed(m, RetainOwn(snapshot), RetainsFor(snapshot), t, pod)
    ensures forall pod: nat :: pod !in snapshot.Pods() ==> GoneUnlessReadded(m, t, pod)
  {
    hide FlatOf, HostBitmap.Pods, Run, KeysGrow, KeysShrink, ShardsInRange, Unnoticed, Woven, Interleaved, SizesSeen;
    ghost var s := indexer.State();
    var entriesBefore := indexer.TotalEntriesAmid(m.counting);
    ghost var counted := indexer.State();
    indexer.Interfere(m.between);
    ghost var unswept := indexer.State();
    snapshot := indexer.alive;
    indexer.SweepAmid(RetainOwn(snapshot), m.sweeping);
    ghost var swept := indexer.State();
    var entriesAfter := indexer.TotalEntriesAmid(m.recounting);
    t := Phases(counted, unswept, swept, indexer.State());
    report := CleanupReport(entriesBefore, entriesAfter);
    CountBracket(s, m.counting);
    CountBracket(swept, m.recounting);
    forall pod: nat | pod in snapshot.Pods()
      ensures Unnoticed(m, RetainOwn(snapshot), RetainsFor(snapshot), t, pod)
    {
      SweepUnnoticed(m, RetainOwn(snapshot), RetainsFor(snapshot), t, pod);
    }
    forall pod: nat | pod !in snapshot.Pods() ensures GoneUnlessReadded(m, t, pod) {
      Gone(m, RetainOwn(snapshot), t, pod);
    }
  }

  function CleanOwn(pod: nat): nat -> Step {
    (k: nat) => Step.CleanShard(k, pod)
  }

  function CleansPod(pod: nat): Step -> bool {
    (step: Step) => step.CleanShard? && step.pod == pod
  }

  function RetainOwn(snapshot: HostBitmap): nat -> Step {
    (k: nat) => Step.RetainAlive(k, snapshot)
  }

  function RetainsFor(snapshot: HostBitmap): Step -> bool {
    (step: Step) => step.RetainAlive? && step.snapshot == snapshot
  }

  lemma SweepUnnoticed(m: Meanwhile, own: nat -> Step, mine: Step -> bool, t: Phases, pod: nat)
    requires t.swept == Run(t.unswept, Woven(m.sweeping, own, t.unswept.shardCount))
    requires forall step :: mine(step) ==> Harmless(step, pod)
    ensures Unnoticed(m, own, mine, t, pod)
  {
    hide Run, Woven, Kept, SameFor, Harmless;
    forall hash: u64
      ensures SameFor(t.swept, Run(t.unswept, Kept(Woven(m.sweeping, own, t.unswept.shardCount), mine)), pod, hash)
    {
      HarmlessStepsDropped(t.unswept, Woven(m.sweeping, own, t.unswept.shardCount), mine, pod, hash);
    }
  }

  // The owner listing

  datatype BlockOwner = BlockOwner(hash: u64, owners: HostBitmap)

  ghost predicate SortedByHash(list: seq<BlockOwner>) {
    forall i, j :: 0 <= i < j < |list| ==> list[i].hash < list[j].hash
  }

  /** An entry of one of the shards. */
  ghost predicate Stored(b: BlockOwner, shards: seq<Shard>) {
    exists i :: 0 <= i < |shards| && InShard(b, shards[i])
  }

  ghost predicate InShard(b: BlockOwner, shard: Shard) {
    b.hash in shard && shard[b.hash] == b.owners
  }

  /** Insertion into a list sorted by hash. */
  function InsertByHash(list: seq<BlockOwner>, b: BlockOwner): (next: seq<BlockOwner>)
    requires SortedByHash(list) && forall x :: x in list ==> x.hash != b.hash
    ensures SortedByHash(next) && forall x :: x in next <==> x == b || x in list
  {
    if list == [] then [b]
    else
      RestSorted(list);
      if b.hash < list[0].hash then
        FrontSorted(b, list);
        [b] + list
      else
        var rest := InsertByHash(list[1..], b);
        assert list[0] in list;
        FrontSorted(list[0], rest);
        [list[0]] + rest
  }

  lemma RestSorted(list: seq<BlockOwner>)
    requires SortedByHash(list) && list != []
    ensures SortedByHash(list[1..])
    ensures forall x :: x in list[1..] ==> list[0].hash < x.hash
    ensures forall x :: x in list <==> x == list[0] || x in list[1..]
  {
    assert list == [list[0]] + list[1..];
  }

  lemma FrontSorted(b: BlockOwner, list: seq<BlockOwner>)
    requires SortedByHash(list) && forall x :: x in list ==> b.hash < x.hash
    ensures SortedByHash([b] + list) && forall x :: x in [b] + list <==> x == b || x in list
  {
    assert forall i :: 0 <= i < |list| ==> list[i] in list;
  }

  /** `block_owners.extend(shard.iter())`, kept sorted by hash. */
  method ExtendFrom(list: seq<BlockOwner>, shard: Shard) returns (next: seq<BlockOwner>)
    requires SortedByHash(list) && forall b :: b in list ==> b.hash !in shard
    ensures SortedByHash(next) && forall b :: b in next <==> b in list || InShard(b, shard)
  {
    next := list;
    var keys := shard.Keys;
    while keys != {}
      invariant keys <= shard.Keys && SortedByHash(next)
      invariant forall b :: b in next <==> b in list || (InShard(b, shard) && b.hash !in keys)
      decreases keys
    {
      var hash :| hash in keys;
      next := InsertByHash(next, BlockOwner(hash, shard[hash]));
      keys := keys - {hash};
    }
  }

  /** `block_owners`: the entries of all shards, sorted by hash; keys are distinct across shards,
      so the order is strict. */
  method BlockOwners(indexer: ShardedBlockIndexer) returns (list: seq<BlockOwner>)
    requires indexer.Valid()
    ensures SortedByHash(list)
    ensures forall b :: b in list ==> b.hash in indexer.State().flat && indexer.State().flat[b.hash] == b.owners.Pods()
    ensures forall h :: h in indexer.State().flat ==> exists b :: b in list && b.hash == h
  {
    hide FlatOf, HostBitmap.Pods, ShardFor, InShard, SortedByHash;
    list := [];
    var shards := indexer.shards[..];
    EmptySorted();
    for i := 0 to |shards|
      invariant SortedByHash(list)
      invariant forall b :: b in list <==> Stored(b, shards[..i])
    {
      assert shards[..i + 1] == shards[..i] + [shards[i]];
      OwnShardOnly(shards, i);
      StoredNext(shards[..i], shards[i]);
      list := ExtendFrom(list, shards[i]);
    }
    assert shards[..|shards|] == shards;
    StoredIsFlat(shards);
    forall h | h in FlatOf(shards) ensures exists b :: b in list && b.hash == h {
      FlatAt(shards, h);
      var b := BlockOwner(h, Entry(shards[ShardFor(h, |shards|)], h));
      assert Stored(b, shards);
    }
  }

  /** The flat entries of a hash as its shard's read finds them. */
  ghost function FoundBy(s: Registry, others: nat -> seq<Step>, hash: u64): map<u64, set<nat>> {
    Run(s, Interleaved(others, ShardFor(hash, s.shardCount) + 1)).flat
  }

  /** What the reads of the first k shards put on the list. */
  ghost predicate ListsUpTo(list: seq<BlockOwner>, s: Registry, others: nat -> seq<Step>, k: nat) {
    && (forall b :: b in list ==>
          && ShardFor(b.hash, s.shardCount) < k
          && b.hash in FoundBy(s, others, b.hash) && FoundBy(s, others, b.hash)[b.hash] == b.owners.Pods())
    && (forall h: u64 :: ShardFor(h, s.shardCount) < k && h in FoundBy(s, others, h) ==> Lists(list, h))
  }

  ghost predicate Lists(list: seq<BlockOwner>, hash: u64) {
    exists b :: b in list && b.hash == hash
  }

  /** `block_owners` while other threads take the steps `others(i)` before shard i is read: each hash
      appears once, with the owners that its shard's read found. */
  method BlockOwnersAmid(indexer: ShardedBlockIndexer, others: nat -> seq<Step>) returns (list: seq<BlockOwner>)
    requires indexer.Valid()
    requires forall k :: ShardsInRange(others(k), indexer.shards.Length)
    modifies indexer, indexer.shards
    ensures indexer.Valid() && indexer.State() == Run(old(indexer.State()), Interleaved(others, indexer.shards.Length))
    ensures SortedByHash(list)
    ensures ListsUpTo(list, old(indexer.State()), others, indexer.shards.Length)
  {
    hide FlatOf, HostBitmap.Pods, Run, ShardsInRange, SortedByHash, ListsUpTo, InShard, ShardFor;
    ghost var s := indexer.State();
    RunNone(s);
    list := [];
    EmptySorted();
    ListsNothing(s, others);
    for i := 0 to indexer.shards.Length
      invariant indexer.Valid() && indexer.State() == Run(s, Interleaved(others, i))
      invariant SortedByHash(list) && ListsUpTo(list, s, others, i)
    {
      InterleavedNext(s, others, i);
      indexer.Interfere(others(i));
      ghost var before := list;
      NotListedYet(list, s, others, i, indexer.shards[..]);
      list := ExtendFrom(list, indexer.shards[i]);
      ListsNext(before, list, s, others, i, indexer.shards[..]);
    }
  }

  lemma ListsNothing(s: Registry, others: nat -> seq<Step>)
    ensures ListsUpTo([], s, others, 0)
  {
    hide FoundBy, HostBitmap.Pods;
  }

  lemma NotListedYet(list: seq<BlockOwner>, s: Registry, others: nat -> seq<Step>, i: nat, shards: seq<Shard>)
    requires ListsUpTo(list, s, others, i) && Placed(shards) && i < |shards| == s.shardCount
    ensures forall b :: b in list ==> b.hash !in shards[i]
  {
    hide FoundBy, HostBitmap.Pods, ShardFor;
  }

  lemma ListsNext(before: seq<BlockOwner>, list: seq<BlockOwner>, s: Registry, others: nat -> seq<Step>, i: nat,
                  shards: seq<Shard>)
    requires ListsUpTo(before, s, others, i) && Placed(shards) && i < |shards| == s.shardCount
    requires FlatOf(shards) == Run(s, Interleaved(others, i + 1)).flat
    requires forall b :: b in list <==> b in before || InShard(b, shards[i])
    ensures ListsUpTo(list, s, others, i + 1)
  {
    hide HostBitmap.Pods, ShardFor, FlatOf, Run;
    forall b | b in list
      ensures ShardFor(b.hash, s.shardCount) < i + 1
      ensures b.hash in FoundBy(s, others, b.hash) && FoundBy(s, others, b.hash)[b.hash] == b.owners.Pods()
    {
      if b !in before {
        assert ShardFor(b.hash, |shards|) == i;
        FlatAt(shards, b.hash);
      }
    }
    forall h: u64 | ShardFor(h, s.shardCount) < i + 1 && h in FoundBy(s, others, h) ensures Lists(list, h) {
      if ShardFor(h, s.shardCount) == i {
        FlatAt(shards, h);
        assert InShard(BlockOwner(h, shards[i][h]), shards[i]);
        assert BlockOwner(h, shards[i][h]) in list;
      } else {
        assert Lists(before, h);
      }
    }
  }

  lemma EmptySorted()
    ensures SortedByHash([])
  {
  }

  lemma OwnShardOnly(shards: seq<Shard>, i: nat)
    requires Placed(shards) && i < |shards|
    ensures forall b :: Stored(b, shards[..i]) ==> b.hash !in shards[i]
  {
    hide ShardFor;
    forall b | Stored(b, shards[..i]) ensures b.hash !in shards[i] {
      var j :| 0 <= j < i && InShard(b, shards[..i][j]);
      assert b.hash in shards[j];
      assert ShardFor(b.hash, |shards|) == j;
    }
  }

  lemma StoredNext(before: seq<Shard>, shard: Shard)
    ensures forall b :: Stored(b, before + [shard]) <==> Stored(b, before) || InShard(b, shard)
  {
    hide InShard;
    var more := before + [shard];
    forall b ensures Stored(b, more) <==> Stored(b, before) || InShard(b, shard) {
      if Stored(b, before) {
        var i :| 0 <= i < |before| && InShard(b, before[i]);
        assert InShard(b, more[i]);
      }
      if InShard(b, shard) {
        assert InShard(b, more[|before|]);
      }
    }
  }

  /** The stored entries are those of the flat relation. */
  lemma StoredIsFlat(shards: seq<Shard>)
    requires Placed(shards)
    ensures forall b :: Stored(b, shards) ==> b.hash in FlatOf(shards) && FlatOf(shards)[b.hash] == b.owners.Pods()
    ensures forall h :: h in FlatOf(shards) ==> Stored(BlockOwner(h, Entry(shards[ShardFor(h, |shards|)], h)), shards)
  {
    hide ShardFor, HostBitmap.Pods, FlatOf;
    forall b | Stored(b, shards) ensures b.hash in FlatOf(shards) && FlatOf(shards)[b.hash] == b.owners.Pods() {
      var i :| 0 <= i < |shards| && InShard(b, shards[i]);
      assert ShardFor(b.hash, |shards|) == i;
      FlatAt(shards, b.hash);
    }
    forall h | h in FlatOf(shards) ensures Stored(BlockOwner(h, Entry(shards[ShardFor(h, |shards|)], h)), shards) {
      FlatAt(shards, h);
      assert InShard(BlockOwner(h, Entry(shards[ShardFor(h, |shards|)], h)), shards[ShardFor(h, |shards|)]);
    }
  }
}
