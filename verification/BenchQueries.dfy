/** The searches of src/base/bench_part2.rs and src/base/indexer.rs: the naive scan, the search on
    bitmaps, on sorted lists and on arrays of flags, and the earlier search that pushes empty
    frames.  Each is proved against the same specification, so they agree. */
module BenchQueries {
  import opened Integers
  import opened Bitmap
  import opened PrefixSearch
  import opened CountedSearch
  import opened FlatRegistry
  import opened ShardedIndex
  import opened FrameStack
  import opened PrefixQuery

  datatype QueryCounters = QueryCounters(shardLookups: nat, bitmapIntersections: nat, searchFrames: nat)

  /** `owners_alive` along the chain. */
  ghost function AliveView(s: Registry, chain: seq<u64>): View {
    seq(|chain|, i requires 0 <= i < |chain| => s.AliveOwners(chain[i]))
  }

  /** The answer of a counted search for the alive candidates `root`. */
  ghost predicate Answered(view: View, root: set<nat>, depths: seq<nat>, c: QueryCounters) {
    && (forall p :: 0 <= p < |depths| ==> depths[p] == if p in root then Depth(view, p) else 0)
    && c.shardLookups == Lookups(view, Frame(0, |view|, root))
    && c.bitmapIntersections == 1 + 2 * c.shardLookups
    && c.searchFrames == FramesOf(view)(Frame(0, |view|, root))
  }

  // The naive scan

  function Min(a: nat, b: nat): nat {
    if a < b then a else b
  }

  /** Every pod of `done` has been tested on hash i, the others on the hashes before it. */
  ghost predicate Scanned(view: View, root: set<nat>, still: set<nat>, depths: seq<nat>, i: nat, done: set<nat>) {
    && (forall p :: p in still <==> p in root && Tested(i, p, done) <= NaiveDepth(view, p, 0))
    && (forall p :: 0 <= p < |depths| ==>
          depths[p] == if p in root then Min(NaiveDepth(view, p, 0), Tested(i, p, done)) else 0)
  }

  function Tested(i: nat, pod: nat, done: set<nat>): nat {
    if pod in done then i + 1 else i
  }

  lemma ScanStart(view: View, root: set<nat>, depths: seq<nat>)
    requires forall p :: 0 <= p < |depths| ==> depths[p] == 0
    ensures Scanned(view, root, root, depths, 0, {})
  {
  }

  /** Testing one more pod: its depth grows if it matches so far and owns hash i, and it stops
      matching if it does not own it. */
  lemma ScanVisit(view: View, root: set<nat>, still: set<nat>, depths: seq<nat>, i: nat, done: set<nat>, pod: nat)
    requires Scanned(view, root, still, depths, i, done) && i < |view|
    requires pod in root && pod !in done && pod < |depths|
    ensures var matches := pod in still && pod in view[i];
      Scanned(view, root, if pod in view[i] then still else still - {pod},
              if matches then depths[pod := i + 1] else depths, i, done + {pod})
    ensures pod !in still ==> still - {pod} == still
  {
    assert i <= NaiveDepth(view, pod, 0) ==> (pod in view[i] <==> i < NaiveDepth(view, pod, 0));
    if pod !in still {
      assert still - {pod} == still;
    }
  }

  lemma ScanNext(view: View, root: set<nat>, still: set<nat>, depths: seq<nat>, i: nat, done: set<nat>)
    requires Scanned(view, root, still, depths, i, done) && done == root
    ensures Scanned(view, root, still, depths, i + 1, {})
  {
    hide NaiveDepth;
  }

  lemma ScanDone(view: View, root: set<nat>, still: set<nat>, depths: seq<nat>)
    requires Scanned(view, root, still, depths, |view|, {})
    ensures forall p :: 0 <= p < |depths| ==> depths[p] == if p in root then NaiveDepth(view, p, 0) else 0
  {
  }

  /** The pods that own the first i hashes, and so are tested on hash i. */
  ghost function StillMatching(view: View, root: set<nat>, i: nat): set<nat> {
    set p | p in root && i <= NaiveDepth(view, p, 0)
  }

  /** The tests made on the first i hashes. */
  ghost function TestsUpTo(view: View, root: set<nat>, i: nat): nat {
    if i == 0 then 0 else TestsUpTo(view, root, i - 1) + |StillMatching(view, root, i - 1)|
  }

  /** What each pod below k is tested on: the hashes it owns and the first one it does not. */
  ghost function TestsPerPod(view: View, root: set<nat>, k: nat): nat {
    if k == 0 then 0
    else TestsPerPod(view, root, k - 1)
         + if k - 1 in root then Min(NaiveDepth(view, k - 1, 0) + 1, |view|) else 0
  }

  lemma OneMoreMatching(view: View, root: set<nat>, pod: nat, i: nat)
    requires pod !in root
    ensures |StillMatching(view, root + {pod}, i)| ==
      |StillMatching(view, root, i)| + if i <= NaiveDepth(view, pod, 0) then 1 else 0
  {
    hide NaiveDepth;
    var before, after := StillMatching(view, root, i), StillMatching(view, root + {pod}, i);
    assert after == if i <= NaiveDepth(view, pod, 0) then before + {pod} else before;
  }

  lemma {:induction false} OnePodsTests(view: View, root: set<nat>, pod: nat, i: nat)
    requires pod !in root
    ensures TestsUpTo(view, root + {pod}, i) == TestsUpTo(view, root, i) + Min(NaiveDepth(view, pod, 0) + 1, i)
  {
    hide NaiveDepth, StillMatching;
    if i > 0 {
      OnePodsTests(view, root, pod, i - 1);
      OneMoreMatching(view, root, pod, i - 1);
    }
  }

  /** Counting the tests hash by hash or pod by pod gives the same number. */
  lemma {:induction false} TestsCountedTwice(view: View, root: set<nat>, k: nat)
    requires forall p :: p in root ==> p < k
    ensures TestsUpTo(view, root, |view|) == TestsPerPod(view, root, k)
    decreases k
  {
    hide NaiveDepth;
    if k == 0 {
      NoPodsNoTests(view, root, |view|);
    } else {
      var rest := root - {k - 1};
      TestsCountedTwice(view, rest, k - 1);
      SamePodsSameTests(view, root, rest, k - 1);
      if k - 1 in root {
        OnePodsTests(view, rest, k - 1, |view|);
        assert rest + {k - 1} == root;
      } else {
        assert rest == root;
      }
    }
  }

  lemma {:induction false} NoPodsNoTests(view: View, root: set<nat>, i: nat)
    requires root == {}
    ensures TestsUpTo(view, root, i) == 0
  {
    if i > 0 {
      NoPodsNoTests(view, root, i - 1);
      assert StillMatching(view, root, i - 1) == {};
    }
  }

  lemma {:induction false} SamePodsSameTests(view: View, a: set<nat>, b: set<nat>, k: nat)
    requires forall p :: p < k ==> (p in a <==> p in b)
    ensures TestsPerPod(view, a, k) == TestsPerPod(view, b, k)
  {
    if k > 0 {
      SamePodsSameTests(view, a, b, k - 1);
    }
  }

  /** The tests made so far, in the middle of hash i. */
  ghost predicate TestsMade(view: View, root: set<nat>, i: nat, done: set<nat>, tests: nat) {
    tests == TestsUpTo(view, root, i) + |StillMatching(view, done, i)|
  }

  lemma TestsStart(view: View, root: set<nat>, i: nat)
    ensures TestsMade(view, root, i, {}, TestsUpTo(view, root, i))
  {
    assert StillMatching(view, {}, i) == {};
  }

  /** A pod is tested exactly while it matches. */
  lemma TestsVisit(view: View, root: set<nat>, still: set<nat>, depths: seq<nat>, i: nat, done: set<nat>, pod: nat,
                   tests: nat)
    requires TestsMade(view, root, i, done, tests) && Scanned(view, root, still, depths, i, done)
    requires pod in root && pod !in done
    ensures TestsMade(view, root, i, done + {pod}, if pod in still then tests + 1 else tests)
  {
    hide NaiveDepth;
    var before, after := StillMatching(view, done, i), StillMatching(view, done + {pod}, i);
    assert after == if pod in still then before + {pod} else before;
  }

  lemma TestsNext(view: View, root: set<nat>, i: nat, tests: nat)
    requires TestsMade(view, root, i, root, tests)
    ensures TestsMade(view, root, i + 1, {}, tests)
  {
    TestsStart(view, root, i + 1);
  }

  lemma TestsDone(view: View, root: set<nat>, tests: nat)
    requires TestsMade(view, root, |view|, {}, tests)
    requires forall p :: p in root ==> p < MAX_PODS
    ensures tests == TestsPerPod(view, root, MAX_PODS)
  {
    assert StillMatching(view, {}, |view|) == {};
    TestsCountedTwice(view, root, MAX_PODS);
  }

  datatype NaiveCounters = NaiveCounters(shardLookups: nat, podBitTests: nat)

  /** `query_prefix_depths_naive_into`: one lookup per hash, every pod tested until it fails. */
  method QueryPrefixDepthsNaive(indexer: ShardedBlockIndexer, chain: seq<u64>, candidates: HostBitmap, depths: array<nat>)
    returns (counters: NaiveCounters)
    requires indexer.Valid() && depths.Length >= MAX_PODS
    modifies depths
    ensures var view := AliveView(indexer.State(), chain);
      var root := candidates.Pods() * indexer.alive.Pods();
      && (forall p :: 0 <= p < depths.Length ==> depths[p] == if p in root then NaiveDepth(view, p, 0) else 0)
      && counters.shardLookups == |chain|
      && counters.podBitTests == TestsPerPod(view, root, MAX_PODS)
  {
    hide HostBitmap.Pods, HostBitmap.And, HostBitmap.Clear, HostBitmap.Contains, FlatOf, NaiveDepth, Scanned, TestsMade,
      ShardedBlockIndexer.State, ShardedBlockIndexer.OwnersAlive, Registry.AliveOwners;
    ghost var view := AliveView(indexer.State(), chain);
    var aliveCandidatePods := candidates.And(indexer.alive);
    ghost var root := aliveCandidatePods.Pods();
    var stillMatchingPods := aliveCandidatePods;
    counters := NaiveCounters(0, 0);
    FillZero(depths);
    ScanStart(view, root, depths[..]);
    TestsStart(view, root, 0);
    for blockIndex := 0 to |chain|
      invariant counters.shardLookups == blockIndex
      invariant Scanned(view, root, stillMatchingPods.Pods(), depths[..], blockIndex, {})
      invariant TestsMade(view, root, blockIndex, {}, counters.podBitTests)
    {
      var podsOwningBlock := indexer.OwnersAlive(chain[blockIndex]);
      counters := counters.(shardLookups := counters.shardLookups + 1);
      var visited := aliveCandidatePods.IterSetBits();
      ghost var done: set<nat> := {};
      for v := 0 to |visited|
        invariant forall p :: p in done <==> p in visited[..v]
        invariant counters.shardLookups == blockIndex + 1
        invariant Scanned(view, root, stillMatchingPods.Pods(), depths[..], blockIndex, done)
        invariant TestsMade(view, root, blockIndex, done, counters.podBitTests)
      {
        var pod := visited[v];
        NotYetVisited(visited, v);
        PodInRange(aliveCandidatePods, pod);
        ContainsIsMember(stillMatchingPods, pod);
        ContainsIsMember(podsOwningBlock, pod);
        ScanVisit(view, root, stillMatchingPods.Pods(), depths[..], blockIndex, done, pod);
        TestsVisit(view, root, stillMatchingPods.Pods(), depths[..], blockIndex, done, pod, counters.podBitTests);
        done := done + {pod};
        if stillMatchingPods.Contains(pod) {
          counters := counters.(podBitTests := counters.podBitTests + 1);
          if podsOwningBlock.Contains(pod) {
            depths[pod] := blockIndex + 1;
          } else {
            stillMatchingPods := stillMatchingPods.Clear(pod);
          }
        }
      }
      assert visited[..|visited|] == visited;
      assert done == root;
      ScanNext(view, root, stillMatchingPods.Pods(), depths[..], blockIndex, done);
      TestsNext(view, root, blockIndex, counters.podBitTests);
    }
    ScanDone(view, root, stillMatchingPods.Pods(), depths[..]);
    forall p | p in root ensures p < MAX_PODS {
      PodInRange(aliveCandidatePods, p);
    }
    TestsDone(view, root, counters.podBitTests);
  }

  lemma NotYetVisited(visited: seq<nat>, v: nat)
    requires Ascending(visited) && v < |visited|
    ensures visited[v] !in visited[..v] && visited[v] in visited
    ensures forall p :: p in visited[..v + 1] <==> p in visited[..v] || p == visited[v]
  {
    assert visited[..v + 1] == visited[..v] + [visited[v]];
  }

  // The counted searches

  /** The state of a counted search with a plain `Vec` as its stack. */
  ghost predicate InSearch(st: seq<Frame>, view: View, root: set<nat>, depths: seq<nat>, c: QueryCounters) {
    && Counting(st, view, root, depths, c.shardLookups, c.searchFrames, FramesOf(view))
    && c.bitmapIntersections == 1 + 2 * c.shardLookups
  }

  lemma InSearchStart(view: View, root: set<nat>, depths: seq<nat>)
    requires forall p :: 0 <= p < |depths| ==> depths[p] == 0
    ensures InSearch([Frame(0, |view|, root)], view, root, depths, QueryCounters(0, 1, 0))
  {
    hide Counting;
    CountingStart(view, root, depths, FramesOf(view));
  }

  lemma InSearchTop(rest: seq<Frame>, f: Frame, view: View, root: set<nat>, depths: seq<nat>, c: QueryCounters)
    requires InSearch(rest + [f], view, root, depths, c)
    ensures f.Within(|view|) && f.pods <= root
  {
    hide Counting;
    CountingTop(rest, f, view, root, depths, c.shardLookups, c.searchFrames, FramesOf(view));
  }

  lemma InSearchLeaf(rest: seq<Frame>, f: Frame, view: View, root: set<nat>, before: seq<nat>, after: seq<nat>, c: QueryCounters)
    requires InSearch(rest + [f], view, root, before, c) && (f.pods == {} || f.lo == f.hi)
    requires |after| == |before|
    requires forall p :: 0 <= p < |after| ==> after[p] == if p in f.pods then f.lo else before[p]
    ensures InSearch(rest, view, root, after, c.(searchFrames := c.searchFrames + 1))
    ensures Sum(rest, Work) < Sum(rest + [f], Work)
  {
    hide Counting, Sum, FramesOf;
    InSearchTop(rest, f, view, root, before, c);
    LeafWeight(view, f);
    CountingLeaf(rest, f, view, root, before, after, c.shardLookups, c.searchFrames, FramesOf(view));
  }

  lemma InSearchSplit(rest: seq<Frame>, f: Frame, view: View, root: set<nat>, depths: seq<nat>, c: QueryCounters)
    requires InSearch(rest + [f], view, root, depths, c) && f.pods != {} && f.lo < f.hi <= |view|
    ensures var owners := view[Probe(f.lo, f.hi) - 1];
      var next := PushNonEmpty(PushNonEmpty(rest, f.Upper(owners)), f.Lower(owners));
      && InSearch(next, view, root, depths,
                  QueryCounters(c.shardLookups + 1, c.bitmapIntersections + 2, c.searchFrames + 1))
      && Sum(next, Work) < Sum(rest + [f], Work)
  {
    hide Counting, Sum, FramesOf, Probe, PushNonEmpty;
    CountingSplit(rest, f, view, root, depths, c.shardLookups, c.searchFrames);
  }

  /** `query_prefix_depths_binary_into`: pods as bitmaps. */
  method QueryPrefixDepthsBinary(indexer: ShardedBlockIndexer, chain: seq<u64>, candidates: HostBitmap, depths: array<nat>)
    returns (counters: QueryCounters)
    requires indexer.Valid() && depths.Length >= MAX_PODS
    modifies depths
    ensures Answered(AliveView(indexer.State(), chain), candidates.Pods() * indexer.alive.Pods(), depths[..], counters)
  {
    hide HostBitmap.Pods, HostBitmap.And, HostBitmap.Minus, HostBitmap.IsEmpty, FlatOf, InSearch, Answered, Sum, Probe,
      PushNonEmpty, AbsAll, ShardedBlockIndexer.State, ShardedBlockIndexer.OwnersAlive, Registry.AliveOwners;
    ghost var view := AliveView(indexer.State(), chain);
    FillZero(depths);
    var start := candidates.And(indexer.alive);
    ghost var root := start.Pods();
    var stack := [SearchFrame(0, |chain|, start)];
    counters := QueryCounters(0, 1, 0);
    OneFrame(stack[0]);
    InSearchStart(view, root, depths[..]);
    while stack != []
      invariant InSearch(AbsAll(stack), view, root, depths[..], counters)
      decreases Sum(AbsAll(stack), Work)
    {
      var frame := stack[|stack| - 1];
      var others := stack[..|stack| - 1];
      ghost var f, rest := frame.Abs(), AbsAll(others);
      assert stack == others + [frame];
      AbsPush(others, frame);
      InSearchTop(rest, f, view, root, depths[..], counters);
      if frame.candidatePods.IsEmpty() {
        InSearchLeaf(rest, f, view, root, depths[..], depths[..], counters);
        stack, counters := others, counters.(searchFrames := counters.searchFrames + 1);
        continue;
      }
      if frame.minPrefixDepth == frame.maxPrefixDepth {
        ghost var before := depths[..];
        SetLengths(depths, frame.candidatePods, frame.minPrefixDepth);
        InSearchLeaf(rest, f, view, root, before, depths[..], counters);
        stack, counters := others, counters.(searchFrames := counters.searchFrames + 1);
        continue;
      }

      var probePrefixDepth := (frame.minPrefixDepth + frame.maxPrefixDepth + 1) / 2;
      ProbeIs(frame.minPrefixDepth, frame.maxPrefixDepth, probePrefixDepth);
      var podsWithProbePrefix := indexer.OwnersAlive(chain[probePrefixDepth - 1]);
      var podsAtOrAboveProbe := frame.candidatePods.And(podsWithProbePrefix);
      var podsBelowProbe := frame.candidatePods.Minus(podsAtOrAboveProbe);
      assert podsBelowProbe.Pods() == f.pods - podsWithProbePrefix.Pods();
      InSearchSplit(rest, f, view, root, depths[..], counters);
      stack := PushVec(others, SearchFrame(probePrefixDepth, frame.maxPrefixDepth, podsAtOrAboveProbe));
      stack := PushVec(stack, SearchFrame(frame.minPrefixDepth, probePrefixDepth - 1, podsBelowProbe));
      counters := QueryCounters(counters.shardLookups + 1, counters.bitmapIntersections + 2, counters.searchFrames + 1);
    }
    assert AbsAll([]) == [];
    AllAnswered(view, root, depths[..], counters);
  }

  lemma AllAnswered(view: View, root: set<nat>, depths: seq<nat>, c: QueryCounters)
    requires InSearch([], view, root, depths, c)
    ensures Answered(view, root, depths, c)
  {
    hide Depth, Lookups, FramesOf;
    CountingDone(view, root, depths, c.shardLookups, c.searchFrames, FramesOf(view));
  }

  /** `if !pods.is_empty() { stack.push(..) }` */
  function PushVec(stack: seq<SearchFrame>, frame: SearchFrame): (next: seq<SearchFrame>)
    ensures AbsAll(next) == PushNonEmpty(AbsAll(stack), frame.Abs())
  {
    hide HostBitmap.Pods;
    if frame.candidatePods.IsEmpty() then stack
    else
      AbsPush(stack, frame);
      stack + [frame]
  }

  /** The comparison of `bench_part2_compare`: the scan and the search fill equal arrays exactly
      when every alive candidate has a clear path, so in particular on closed ownership. */
  method CompareWithNaive(indexer: ShardedBlockIndexer, chain: seq<u64>, candidates: HostBitmap)
    returns (naiveDepths: array<nat>, binaryDepths: array<nat>, naive: NaiveCounters, counters: QueryCounters)
    requires indexer.Valid()
    ensures counters.shardLookups <= naive.shardLookups == |chain|
    ensures (forall p :: p in candidates.Pods() * indexer.alive.Pods() ==> PrefixClosed(AliveView(indexer.State(), chain), p))
      ==> naiveDepths[..] == binaryDepths[..]
    ensures naiveDepths[..] == binaryDepths[..] <==>
      forall p :: p in candidates.Pods() * indexer.alive.Pods() ==> ClearPath(AliveView(indexer.State(), chain), p)
  {
    hide HostBitmap.Pods, NaiveDepth, Depth, PrefixClosed, ClearPath, CeilLog2, ShardedBlockIndexer.State,
      Registry.AliveOwners, Lookups, FramesOf;
    ghost var view := AliveView(indexer.State(), chain);
    ghost var root := candidates.Pods() * indexer.alive.Pods();
    naiveDepths := new nat[MAX_PODS](_ => 0);
    binaryDepths := new nat[MAX_PODS](_ => 0);
    naive := QueryPrefixDepthsNaive(indexer, chain, candidates, naiveDepths);
    counters := QueryPrefixDepthsBinary(indexer, chain, candidates, binaryDepths);
    LookupsWithinWidth(view, Frame(0, |chain|, root));
    forall p | p in root && PrefixClosed(view, p) ensures Depth(view, p) == NaiveDepth(view, p, 0) {
      DepthOfClosed(view, p);
    }
    forall p | p in root
      ensures p < MAX_PODS && (ClearPath(view, p) <==> naiveDepths[p] == binaryDepths[p])
    {
      PodInRange(candidates, p);
      SearchIsScanExactly(view, p);
    }
    assert forall p :: p in root ==>
      p < MAX_PODS && naiveDepths[..][p] == naiveDepths[p] && binaryDepths[..][p] == binaryDepths[p];
  }

  // The earlier search

  /** `longest_prefix_lengths_debug` of src/base/indexer.rs, which pushes both children whether
      or not anybody is in them: the same depths and lookups, and two frames per lookup. */
  method EarlierPrefixLengthsDebug(indexer: ShardedBlockIndexer, chain: seq<u64>, candidates: HostBitmap)
    returns (lengths: array<nat>, framesProcessed: nat, shardLookups: nat, bitmapIntersections: nat)
    requires indexer.Valid()
    ensures var view := AliveView(indexer.State(), chain);
      var root := candidates.Pods() * indexer.alive.Pods();
      && lengths.Length == MAX_PODS
      && (forall p :: 0 <= p < MAX_PODS ==> lengths[p] == if p in root then Depth(view, p) else 0)
      && shardLookups == Lookups(view, Frame(0, |chain|, root))
      && framesProcessed == bitmapIntersections == 1 + 2 * shardLookups
  {
    hide HostBitmap.Pods, HostBitmap.And, HostBitmap.Minus, HostBitmap.IsEmpty, FlatOf, Counting, Sum, Probe, AbsAll,
      ShardedBlockIndexer.State, ShardedBlockIndexer.OwnersAlive, Registry.AliveOwners, Lookups, Depth, AllFramesOf;
    ghost var view := AliveView(indexer.State(), chain);
    lengths := new nat[MAX_PODS](_ => 0);
    framesProcessed, shardLookups, bitmapIntersections := 0, 0, 1;
    var start := candidates.And(indexer.alive);
    ghost var root := start.Pods();
    var stack := [SearchFrame(0, |chain|, start)];
    OneFrame(stack[0]);
    CountingStart(view, root, lengths[..], AllFramesOf(view));
    while stack != []
      invariant Counting(AbsAll(stack), view, root, lengths[..], shardLookups, framesProcessed, AllFramesOf(view))
      invariant bitmapIntersections == 1 + 2 * shardLookups
      decreases Sum(AbsAll(stack), Work)
    {
      var frame := stack[|stack| - 1];
      var others := stack[..|stack| - 1];
      ghost var f, rest := frame.Abs(), AbsAll(others);
      assert stack == others + [frame];
      AbsPush(others, frame);
      CountingTop(rest, f, view, root, lengths[..], shardLookups, framesProcessed, AllFramesOf(view));
      if frame.candidatePods.IsEmpty() || frame.minPrefixDepth == frame.maxPrefixDepth {
        ghost var before := lengths[..];
        if !frame.candidatePods.IsEmpty() {
          SetLengths(lengths, frame.candidatePods, frame.minPrefixDepth);
        }
        LeafWeight(view, f);
        CountingLeaf(rest, f, view, root, before, lengths[..], shardLookups, framesProcessed, AllFramesOf(view));
        framesProcessed := framesProcessed + 1;
        stack := others;
        continue;
      }

      var probePrefixDepth := (frame.minPrefixDepth + frame.maxPrefixDepth + 1) / 2;
      ProbeIs(frame.minPrefixDepth, frame.maxPrefixDepth, probePrefixDepth);
      var podsWithProbePrefix := indexer.OwnersAlive(chain[probePrefixDepth - 1]);
      var podsAtOrAboveProbe := frame.candidatePods.And(podsWithProbePrefix);
      var podsBelowProbe := frame.candidatePods.Minus(podsAtOrAboveProbe);
      assert podsBelowProbe.Pods() == f.pods - podsWithProbePrefix.Pods();
      CountingSplitAll(rest, f, view, root, lengths[..], shardLookups, framesProcessed);
      var above := SearchFrame(probePrefixDepth, frame.maxPrefixDepth, podsAtOrAboveProbe);
      var below := SearchFrame(frame.minPrefixDepth, probePrefixDepth - 1, podsBelowProbe);
      AbsPush(others, above);
      AbsPush(others + [above], below);
      stack := others + [above] + [below];
      framesProcessed := framesProcessed + 1;
      shardLookups := shardLookups + 1;
      bitmapIntersections := bitmapIntersections + 2;
    }
    OneFrame(SearchFrame(0, 0, start));
    CountingDone(view, root, lengths[..], shardLookups, framesProcessed, AllFramesOf(view));
    AllFramesTotal(view, root);
  }

  lemma AllFramesTotal(view: View, root: set<nat>)
    ensures AllFramesOf(view)(Frame(0, |view|, root)) == 1 + 2 * Lookups(view, Frame(0, |view|, root))
  {
    AllFramesIsTwiceLookups(view, Frame(0, |view|, root));
  }

  /** Masking owners by the alive pods changes no candidate's depth. */
  lemma MaskedViewSameDepth(s: Registry, chain: seq<u64>, pod: nat)
    requires pod in s.alive
    ensures Depth(AliveView(s, chain), pod) == Depth(s.ViewOf(chain), pod)
  {
    DepthIndependent(AliveView(s, chain), s.ViewOf(chain), pod);
  }
}
