/** The prefix queries of src/calinix/cache_registry/prefix_query.rs as loops over the sharded
    index, a `SearchStack` and pod bitmaps. */
module PrefixQuery {
  import opened Integers
  import opened Wrappers
  import opened Bitmap
  import opened PrefixSearch
  import opened FlatRegistry
  import opened ShardedIndex
  import opened FrameStack
  import opened Interleavings
  import opened SearchState

  /** The visitor of a leaf frame: `if pod_id < lengths.len() { lengths[pod_id] = depth }`. */
  method SetLengths(lengths: array<nat>, pods: HostBitmap, depth: nat)
    modifies lengths
    ensures forall p :: 0 <= p < lengths.Length ==>
      lengths[p] == if p in pods.Pods() then depth else old(lengths[p])
  {
    hide HostBitmap.Pods;
    var visited := pods.IterSetBits();
    for i := 0 to |visited|
      invariant forall p :: 0 <= p < lengths.Length ==>
        lengths[p] == if p in visited[..i] then depth else old(lengths[p])
    {
      if visited[i] < lengths.Length {
        lengths[visited[i]] := depth;
      }
    }
    assert visited[..|visited|] == visited;
  }

  method FillZero(lengths: array<nat>)
    modifies lengths
    ensures forall p :: 0 <= p < lengths.Length ==> lengths[p] == 0
  {
    for i := 0 to lengths.Length
      invariant forall p :: 0 <= p < i ==> lengths[p] == 0
    {
      lengths[i] := 0;
    }
  }

  lemma MaskedOwners(f: set<nat>, owners: set<nat>, alive: set<nat>)
    requires f <= alive
    ensures f * (owners * alive) == f * owners
    ensures f - f * (owners * alive) == f - owners
  {
  }

  /** One lookup: the pods of a frame are divided by who owns the probed hash.  The query loops
      share this step. */
  method SplitFrame(indexer: ShardedBlockIndexer, hash: u64, frame: SearchFrame, probePrefixDepth: nat, alive: HostBitmap)
    returns (above: SearchFrame, below: SearchFrame)
    requires indexer.Valid()
    requires frame.minPrefixDepth < frame.maxPrefixDepth
    requires probePrefixDepth == Probe(frame.minPrefixDepth, frame.maxPrefixDepth)
    requires frame.candidatePods.Pods() <= alive.Pods()
    ensures above.Abs() == frame.Abs().Upper(indexer.State().Owners(hash))
    ensures below.Abs() == frame.Abs().Lower(indexer.State().Owners(hash))
  {
    hide HostBitmap.Pods, HostBitmap.And, HostBitmap.Minus, FlatOf, Probe, ShardedBlockIndexer.Owners;
    var podsWithProbePrefix := indexer.Owners(hash).And(alive);
    var podsAtOrAboveProbe := frame.candidatePods.And(podsWithProbePrefix);
    var podsBelowProbe := frame.candidatePods.Minus(podsAtOrAboveProbe);
    MaskedOwners(frame.candidatePods.Pods(), indexer.State().Owners(hash), alive.Pods());
    above := SearchFrame(probePrefixDepth, frame.maxPrefixDepth, podsAtOrAboveProbe);
    below := SearchFrame(frame.minPrefixDepth, probePrefixDepth - 1, podsBelowProbe);
  }

  /** The k-th lookup of a query, after the steps that other threads take before it. */
  method ProbeFrame(indexer: ShardedBlockIndexer, hash: u64, frame: SearchFrame, probePrefixDepth: nat, alive: HostBitmap,
                    others: nat -> seq<Step>, k: nat, ghost start: Registry)
    returns (above: SearchFrame, below: SearchFrame)
    requires indexer.Valid() && indexer.State() == Run(start, Interleaved(others, k))
    requires ShardsInRange(others(k), indexer.shards.Length)
    requires frame.minPrefixDepth < frame.maxPrefixDepth
    requires probePrefixDepth == Probe(frame.minPrefixDepth, frame.maxPrefixDepth)
    requires frame.candidatePods.Pods() <= alive.Pods()
    modifies indexer, indexer.shards
    ensures indexer.Valid() && indexer.State() == Run(start, Interleaved(others, k + 1))
    ensures above.Abs() == frame.Abs().Upper(indexer.State().Owners(hash))
    ensures below.Abs() == frame.Abs().Lower(indexer.State().Owners(hash))
  {
    hide HostBitmap.Pods, FlatOf, Run, Interleaved, Probe, Registry.Owners, ShardedBlockIndexer.State, Placed,
      Frame.Upper, Frame.Lower, ShardsInRange;
    InterleavedNext(start, others, k);
    indexer.Interfere(others(k));
    above, below := SplitFrame(indexer, hash, frame, probePrefixDepth, alive);
  }

  lemma ProbeIs(lo: nat, hi: nat, mid: nat)
    requires lo < hi && mid == (lo + hi + 1) / 2
    ensures mid == Probe(lo, hi)
  {
  }

  /** A stack that holds the whole query. */
  method StartStack(frame: SearchFrame) returns (stack: SearchStack)
    ensures fresh(stack) && fresh(stack.frames) && stack.Valid() && stack.heap.None?
    ensures stack.Frames() == [frame.Abs()]
  {
    stack := new SearchStack();
    stack.Push(frame);
    OneFrame(frame);
    assert [] + [frame] == [frame];
  }

  method PopFrame(stack: SearchStack) returns (top: Option<SearchFrame>)
    requires stack.Valid()
    modifies stack
    ensures stack.Valid() && (stack.heap.None? <==> old(stack.heap).None?)
    ensures top.None? ==> stack.Frames() == old(stack.Frames()) == []
    ensures top.Some? ==> stack.Frames() + [top.value.Abs()] == old(stack.Frames())
  {
    hide HostBitmap.Pods;
    top := stack.Pop();
    if top.Some? {
      AbsPush(stack.Contents(), top.value);
    }
  }

  /** The two conditional pushes at the end of a round. */
  method PushFrames(stack: SearchStack, first: SearchFrame, second: SearchFrame)
    requires stack.Valid()
    modifies stack, stack.frames
    ensures stack.Valid()
    ensures stack.Frames() == PushNonEmpty(PushNonEmpty(old(stack.Frames()), first.Abs()), second.Abs())
    ensures old(stack.heap).None? && |stack.Frames()| <= INLINE_SEARCH_FRAMES ==> stack.heap.None?
  {
    hide HostBitmap.Pods;
    if !first.candidatePods.IsEmpty() {
      AbsPush(stack.Contents(), first);
      stack.Push(first);
    }
    if !second.candidatePods.IsEmpty() {
      AbsPush(stack.Contents(), second);
      stack.Push(second);
    }
  }

  lemma OneFrame(f: SearchFrame)
    ensures AbsAll([f]) == [f.Abs()] && AbsAll([]) == []
  {
  }

  /** `longest_prefix_lengths_into` while other threads take the steps `others(k)` just before
      the k-th lookup.  Every candidate of the alive snapshot ends with one depth that the lookups
      justify; what they found lost or gained bounds it by the pod's own binary search at the
      start from either side.  No hash is looked up twice. */
  method LongestPrefixLengthsInto(indexer: ShardedBlockIndexer, chain: seq<u64>, candidates: HostBitmap,
                                  lengths: array<nat>, others: nat -> seq<Step>)
    returns (ghost probes: seq<Lookup>, ghost peak: nat, ghost spilled: bool)
    requires indexer.Valid()
    requires forall k :: ShardsInRange(others(k), indexer.shards.Length)
    modifies indexer, indexer.shards, lengths
    ensures indexer.Valid()
    ensures indexer.State() == Run(old(indexer.State()), Interleaved(others, |probes|))
    ensures History(probes, others, old(indexer.State()), |chain|) && DistinctLookups(probes)
    ensures |probes| <= |chain|
    ensures ZeroOutside(candidates.Pods() * old(indexer.alive).Pods(), lengths[..])
    ensures forall p :: 0 <= p < lengths.Length && p in candidates.Pods() * old(indexer.alive).Pods() ==>
      Answers(probes, chain, old(indexer.State()), p, lengths[p])
    ensures peak <= 1 + CeilLog2(|chain| + 1)
    ensures |chain| + 1 <= 0x8000_0000 ==> !spilled
  {
    hide HostBitmap.Pods, FlatOf, Answers, CeilLog2, Run, DistinctLookups, ZeroOutside, Interleaved, HostBitmap.And,
      HostBitmap.IsEmpty, History, ShardsInRange, ShardedBlockIndexer.State, Placed;
    FillZero(lengths);
    var alive := indexer.alive;
    var aliveCandidates := candidates.And(alive);
    if chain == [] || aliveCandidates.IsEmpty() {
      probes, peak, spilled := [], 0, false;
      HistoryNone(indexer.State(), others, |chain|);
      NothingToSearch(chain, indexer.State(), lengths[..], aliveCandidates.Pods());
      return;
    }
    probes, peak, spilled := SearchInto(indexer, chain, aliveCandidates, alive, lengths, others);
  }

  /** The loop of `longest_prefix_lengths_into`. */
  method SearchInto(indexer: ShardedBlockIndexer, chain: seq<u64>, aliveCandidates: HostBitmap, alive: HostBitmap,
                    lengths: array<nat>, others: nat -> seq<Step>)
    returns (ghost probes: seq<Lookup>, ghost peak: nat, ghost spilled: bool)
    requires indexer.Valid() && chain != []
    requires forall k :: ShardsInRange(others(k), indexer.shards.Length)
    requires aliveCandidates.Pods() != {} && aliveCandidates.Pods() <= alive.Pods()
    requires forall p :: 0 <= p < lengths.Length ==> lengths[p] == 0
    modifies indexer, indexer.shards, lengths
    ensures indexer.Valid()
    ensures indexer.State() == Run(old(indexer.State()), Interleaved(others, |probes|))
    ensures History(probes, others, old(indexer.State()), |chain|) && DistinctLookups(probes)
    ensures |probes| <= |chain|
    ensures ZeroOutside(aliveCandidates.Pods(), lengths[..])
    ensures forall p :: 0 <= p < lengths.Length && p in aliveCandidates.Pods() ==>
      Answers(probes, chain, old(indexer.State()), p, lengths[p])
    ensures peak <= 1 + CeilLog2(|chain| + 1)
    ensures |chain| + 1 <= 0x8000_0000 ==> !spilled
  {
    hide HostBitmap.Pods, FlatOf, Searching, Answers, CeilLog2, Apply, Run, Sum, Probe, DistinctLookups, ZeroOutside,
      SearchStack.Frames, Interleaved, HostBitmap.And, HostBitmap.Minus, HostBitmap.IsEmpty, PushNonEmpty,
      History, Frame.Upper, Frame.Lower, ShardsInRange, Registry.Owners, ShardedBlockIndexer.State, Placed,
      SearchStack.Valid;
    probes, peak := [], 0;
    ghost var start, n, root := indexer.State(), |chain|, aliveCandidates.Pods();
    HistoryNone(start, others, n);
    var lookups := 0;
    var stack := StartStack(SearchFrame(0, |chain|, aliveCandidates));
    SearchingStart(chain, start, root, lengths[..]);
    while true
      invariant stack.Valid() && fresh(stack) && fresh(stack.frames)
      invariant indexer.Valid() && indexer.State() == Run(start, Interleaved(others, lookups))
      invariant Searching(stack.Frames(), probes, chain, start, root, lengths[..])
      invariant |probes| == lookups && History(probes, others, start, n)
      invariant peak <= 1 + CeilLog2(n + 1)
      invariant n + 1 <= 0x8000_0000 ==> stack.heap.None?
      decreases Sum(stack.Frames(), Work)
    {
      var top := PopFrame(stack);
      if top.None? {
        break;
      }
      var frame := top.value;
      ghost var f, rest := frame.Abs(), stack.Frames();
      SearchingTop(rest, f, probes, chain, start, root, lengths[..]);
      if frame.minPrefixDepth == frame.maxPrefixDepth {
        ghost var before := lengths[..];
        SetLengths(lengths, frame.candidatePods, frame.minPrefixDepth);
        SearchingLeaf(rest, f, probes, chain, start, root, before, lengths[..]);
        continue;
      }

      var probePrefixDepth := (frame.minPrefixDepth + frame.maxPrefixDepth + 1) / 2;
      ProbeIs(frame.minPrefixDepth, frame.maxPrefixDepth, probePrefixDepth);
      var above, below :=
        ProbeFrame(indexer, chain[probePrefixDepth - 1], frame, probePrefixDepth, alive, others, lookups, start);
      ghost var at := indexer.State();
      SearchingSplit(rest, f, at, probes, chain, start, root, lengths[..]);
      HistoryNext(probes, others, start, n, Lookup(probePrefixDepth - 1, at));
      probes := probes + [Lookup(probePrefixDepth - 1, at)];
      lookups := lookups + 1;
      PushFrames(stack, above, below);
      peak := if |stack.Frames()| > peak then |stack.Frames()| else peak;
    }
    spilled := stack.heap.Some?;
    SearchingDone(probes, chain, start, root, lengths[..]);
  }

  /** `longest_prefix_lengths_for_candidates`: no other thread interferes, and the result has a
      slot for every candidate. */
  method LongestPrefixLengthsForCandidates(indexer: ShardedBlockIndexer, chain: seq<u64>, candidates: HostBitmap)
    returns (lengths: seq<nat>)
    requires indexer.Valid()
    modifies indexer, indexer.shards
    ensures indexer.Valid() && indexer.State() == old(indexer.State())
    ensures forall p :: p in candidates.Pods() ==> p < |lengths|
    ensures forall p :: 0 <= p < |lengths| ==>
      lengths[p] == if p in candidates.Pods() * old(indexer.alive).Pods()
                    then Depth(old(indexer.State()).ViewOf(chain), p) else 0
  {
    hide HostBitmap.Pods, FlatOf, CeilLog2, Depth, Run, Registry.ViewOf, ShardedBlockIndexer.State, Justified,
      NotLost, NotGained;
    var highest := candidates.HighestSetBitPlusOne();
    var resultSize := if indexer.podCount > highest then indexer.podCount else highest;
    var slots := new nat[resultSize](_ => 0);
    ghost var start := indexer.State();
    var alone: nat -> seq<Step> := (k: nat) => [];
    ghost var probes, peak, spilled := LongestPrefixLengthsInto(indexer, chain, candidates, slots, alone);
    AloneIsSteady(probes, alone, start, chain);
    lengths := slots[..];
  }

  // The counting version

  datatype PrefixMatchDebug = PrefixMatchDebug(lengths: seq<nat>, framesProcessed: nat, shardLookups: nat,
                                               bitmapIntersections: nat)

  /** `longest_prefix_lengths_debug`: the same search among other threads, with its work counted. */
  method LongestPrefixLengthsDebug(indexer: ShardedBlockIndexer, chain: seq<u64>, candidates: HostBitmap,
                                   others: nat -> seq<Step>)
    returns (debug: PrefixMatchDebug, ghost probes: seq<Lookup>)
    requires indexer.Valid()
    requires forall k :: ShardsInRange(others(k), indexer.shards.Length)
    modifies indexer, indexer.shards
    ensures indexer.Valid()
    ensures indexer.State() == Run(old(indexer.State()), Interleaved(others, |probes|))
    ensures History(probes, others, old(indexer.State()), |chain|) && DistinctLookups(probes)
    ensures var root := candidates.Pods() * old(indexer.alive).Pods();
      var depths := DepthsFound(debug.lengths, root);
      && (forall p :: p in candidates.Pods() ==> p < |debug.lengths|)
      && ZeroOutside(root, debug.lengths)
      && (forall p :: 0 <= p < |debug.lengths| && p in root ==>
            Answers(probes, chain, old(indexer.State()), p, debug.lengths[p]))
      && debug.shardLookups == |probes| <= |chain|
      && debug.bitmapIntersections == 1 + 2 * debug.shardLookups
      && (chain == [] || root == {} ==> debug.shardLookups == debug.framesProcessed == 0)
      && (chain != [] && root != {} ==>
            && debug.shardLookups <= |depths| * CeilLog2(|chain| + 1)
            && debug.framesProcessed == debug.shardLookups + |depths|)
  {
    hide HostBitmap.Pods, FlatOf, Answers, CeilLog2, Run, DistinctLookups, ZeroOutside, Interleaved, HostBitmap.And,
      HostBitmap.IsEmpty, History, ShardsInRange, ShardedBlockIndexer.State, Placed, DepthsFound;
    var highest := candidates.HighestSetBitPlusOne();
    var resultSize := if indexer.podCount > highest then indexer.podCount else highest;
    var lengths := new nat[resultSize](_ => 0);
    var alive := indexer.alive;
    var aliveCandidates := candidates.And(alive);
    if chain == [] || aliveCandidates.IsEmpty() {
      probes := [];
      HistoryNone(indexer.State(), others, |chain|);
      NothingToSearch(chain, indexer.State(), lengths[..], aliveCandidates.Pods());
      return PrefixMatchDebug(lengths[..], 0, 0, 1), probes;
    }
    var framesProcessed, shardLookups, bitmapIntersections;
    framesProcessed, shardLookups, bitmapIntersections, probes :=
      SearchAndCount(indexer, chain, aliveCandidates, alive, lengths, others);
    debug := PrefixMatchDebug(lengths[..], framesProcessed, shardLookups, bitmapIntersections);
  }

  /** The loop of `longest_prefix_lengths_debug`. */
  method SearchAndCount(indexer: ShardedBlockIndexer, chain: seq<u64>, aliveCandidates: HostBitmap, alive: HostBitmap,
                        lengths: array<nat>, others: nat -> seq<Step>)
    returns (framesProcessed: nat, shardLookups: nat, bitmapIntersections: nat, ghost probes: seq<Lookup>)
    requires indexer.Valid() && chain != []
    requires forall k :: ShardsInRange(others(k), indexer.shards.Length)
    requires aliveCandidates.Pods() != {} && aliveCandidates.Pods() <= alive.Pods()
    requires forall p :: p in aliveCandidates.Pods() ==> p < lengths.Length
    requires forall p :: 0 <= p < lengths.Length ==> lengths[p] == 0
    modifies indexer, indexer.shards, lengths
    ensures indexer.Valid()
    ensures indexer.State() == Run(old(indexer.State()), Interleaved(others, |probes|))
    ensures History(probes, others, old(indexer.State()), |chain|) && DistinctLookups(probes)
    ensures ZeroOutside(aliveCandidates.Pods(), lengths[..])
    ensures forall p :: 0 <= p < lengths.Length && p in aliveCandidates.Pods() ==>
      Answers(probes, chain, old(indexer.State()), p, lengths[p])
    ensures shardLookups == |probes| <= |chain| && bitmapIntersections == 1 + 2 * shardLookups
    ensures var depths := DepthsFound(lengths[..], aliveCandidates.Pods());
      shardLookups <= |depths| * CeilLog2(|chain| + 1) && framesProcessed == shardLookups + |depths|
  {
    hide HostBitmap.Pods, FlatOf, Answers, CeilLog2, Apply, Run, Sum, Probe, DistinctLookups, ZeroOutside,
      SearchStack.Frames, Interleaved, HostBitmap.And, HostBitmap.Minus, HostBitmap.IsEmpty, PushNonEmpty,
      History, Frame.Upper, Frame.Lower, ShardsInRange, Registry.Owners, ShardedBlockIndexer.State, Placed,
      SearchStack.Valid, Tallied, DepthsFound;
    framesProcessed, shardLookups, bitmapIntersections := 0, 0, 1;
    probes := [];
    ghost var start, n, root := indexer.State(), |chain|, aliveCandidates.Pods();
    HistoryNone(start, others, n);
    ghost var found: set<nat> := {};
    var stack := StartStack(SearchFrame(0, |chain|, aliveCandidates));
    TalliedStart(chain, start, root, lengths[..]);
    while true
      invariant stack.Valid() && fresh(stack) && fresh(stack.frames)
      invariant indexer.Valid() && indexer.State() == Run(start, Interleaved(others, shardLookups))
      invariant Tallied(stack.Frames(), probes, chain, start, root, lengths[..], found, framesProcessed)
      invariant |probes| == shardLookups && History(probes, others, start, n)
      invariant bitmapIntersections == 1 + 2 * shardLookups
      decreases Sum(stack.Frames(), Work)
    {
      var top := PopFrame(stack);
      if top.None? {
        break;
      }
      var frame := top.value;
      ghost var f, rest := frame.Abs(), stack.Frames();
      TalliedTop(rest, f, probes, chain, start, root, lengths[..], found, framesProcessed);
      if frame.minPrefixDepth == frame.maxPrefixDepth {
        ghost var before := lengths[..];
        SetLengths(lengths, frame.candidatePods, frame.minPrefixDepth);
        TalliedLeaf(rest, f, probes, chain, start, root, before, lengths[..], found, framesProcessed);
        found := found + {f.lo};
        framesProcessed := framesProcessed + 1;
        continue;
      }

      var probePrefixDepth := (frame.minPrefixDepth + frame.maxPrefixDepth + 1) / 2;
      ProbeIs(frame.minPrefixDepth, frame.maxPrefixDepth, probePrefixDepth);
      var above, below :=
        ProbeFrame(indexer, chain[probePrefixDepth - 1], frame, probePrefixDepth, alive, others, shardLookups, start);
      ghost var at := indexer.State();
      TalliedSplit(rest, f, at, probes, chain, start, root, lengths[..], found, framesProcessed);
      HistoryNext(probes, others, start, n, Lookup(probePrefixDepth - 1, at));
      probes := probes + [Lookup(probePrefixDepth - 1, at)];
      framesProcessed := framesProcessed + 1;
      shardLookups := shardLookups + 1;
      bitmapIntersections := bitmapIntersections + 2;
      PushFrames(stack, above, below);
    }

    TalliedDone(probes, chain, start, root, lengths[..], found, framesProcessed);
  }

  /** Without other threads the depths are the binary searches of the pods, and so are the depths
      that the work is measured by. */
  method LongestPrefixLengthsDebugUndisturbed(indexer: ShardedBlockIndexer, chain: seq<u64>, candidates: HostBitmap)
    returns (debug: PrefixMatchDebug)
    requires indexer.Valid()
    modifies indexer, indexer.shards
    ensures indexer.Valid() && indexer.State() == old(indexer.State())
    ensures var root := candidates.Pods() * old(indexer.alive).Pods();
      var view := old(indexer.State()).ViewOf(chain);
      var depths := Depths(view, Frame(0, |chain|, root));
      && (forall p :: p in candidates.Pods() ==> p < |debug.lengths|)
      && (forall p :: 0 <= p < |debug.lengths| ==>
            debug.lengths[p] == if p in root then Depth(view, p) else 0)
      && debug.bitmapIntersections == 1 + 2 * debug.shardLookups
      && (chain == [] || root == {} ==> debug.shardLookups == debug.framesProcessed == 0)
      && (chain != [] && root != {} ==>
            && debug.shardLookups <= |chain|
            && debug.shardLookups <= |depths| * CeilLog2(|chain| + 1)
            && debug.framesProcessed == debug.shardLookups + |depths|)
  {
    hide HostBitmap.Pods, FlatOf, CeilLog2, Depth, Run, ShardedBlockIndexer.State, Justified, NotLost, NotGained,
      DepthsFound, Depths, History, Interleaved;
    ghost var start, root := indexer.State(), candidates.Pods() * indexer.alive.Pods();
    var alone: nat -> seq<Step> := (k: nat) => [];
    ghost var probes;
    debug, probes := LongestPrefixLengthsDebug(indexer, chain, candidates, alone);
    AloneIsSteady(probes, alone, start, chain);
    SameDepths(start.ViewOf(chain), root, debug.lengths);
  }

  lemma SameDepths(view: View, root: set<nat>, lengths: seq<nat>)
    requires forall p :: p in root ==> p < |lengths| && lengths[p] == Depth(view, p)
    ensures DepthsFound(lengths, root) == Depths(view, Frame(0, |view|, root))
  {
  }
}
