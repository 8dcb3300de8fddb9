/** The list and array forms of pod sets benchmarked against the bitmap in
    src/base/bench_part2.rs, with their indexes and searches. */
module Representations {
  import opened Integers
  import opened Bitmap
  import opened Fibonacci
  import opened PrefixSearch
  import opened CountedSearch
  import opened FlatRegistry
  import opened Sets
  import opened ShardedIndex
  import opened PrefixQuery
  import opened BenchQueries

  ghost function Members(pods: seq<nat>): set<nat> {
    set p | p in pods
  }

  // Sorted lists

  /** `list_intersection`: a merge of two ascending lists. */
  method ListIntersection(left: seq<nat>, right: seq<nat>) returns (out: seq<nat>)
    requires Ascending(left) && Ascending(right)
    ensures Ascending(out) && Members(out) == Members(left) * Members(right)
  {
    out := [];
    var l, r := 0, 0;
    while l < |left| && r < |right|
      invariant l <= |left| && r <= |right|
      invariant forall i, j :: 0 <= i < l && r <= j < |right| ==> left[i] < right[j]
      invariant forall i, j :: l <= i < |left| && 0 <= j < r ==> right[j] < left[i]
      invariant forall p :: p in out <==> p in left[..l] && p in right[..r]
      invariant Ascending(out)
    {
      PrefixNext(left, l);
      PrefixNext(right, r);
      if left[l] == right[r] {
        AppendGreater(out, left[l]);
        out := out + [left[l]];
        l, r := l + 1, r + 1;
      } else if left[l] < right[r] {
        l := l + 1;
      } else {
        r := r + 1;
      }
    }
    forall p ensures p in out <==> p in left && p in right {
      Split(left, l, p);
      Split(right, r, p);
    }
  }

  lemma AppendGreater(pods: seq<nat>, pod: nat)
    requires Ascending(pods) && forall p :: p in pods ==> p < pod
    ensures Ascending(pods + [pod])
  {
    assert forall i :: 0 <= i < |pods| ==> pods[i] in pods;
  }

  lemma PrefixNext(a: seq<nat>, i: nat)
    requires i < |a|
    ensures forall p :: p in a[..i + 1] <==> p in a[..i] || p == a[i]
  {
    assert a[..i + 1] == a[..i] + [a[i]];
  }

  lemma Split(a: seq<nat>, i: nat, p: nat)
    requires i <= |a|
    ensures p in a <==> p in a[..i] || exists j :: i <= j < |a| && a[j] == p
  {
    if p in a {
      var j :| 0 <= j < |a| && a[j] == p;
      if j < i {
        assert a[..i][j] == p;
      }
    }
  }

  /** `list_minus` */
  method ListMinus(left: seq<nat>, right: seq<nat>) returns (out: seq<nat>)
    requires Ascending(left) && Ascending(right)
    ensures Ascending(out) && Members(out) == Members(left) - Members(right)
  {
    out := [];
    var r := 0;
    for l := 0 to |left|
      invariant r <= |right|
      invariant forall i, j :: l <= i < |left| && 0 <= j < r ==> right[j] < left[i]
      invariant forall p :: p in out <==> p in left[..l] && p !in right
      invariant Ascending(out)
    {
      while r < |right| && right[r] < left[l]
        invariant r <= |right|
        invariant forall j :: 0 <= j < r ==> right[j] < left[l]
      {
        r := r + 1;
      }
      PrefixNext(left, l);
      Split(right, r, left[l]);
      assert left[l] in right <==> r < |right| && right[r] == left[l];
      if r >= |right| || right[r] != left[l] {
        assert forall p :: p in out ==> p in left[..l];
        AppendGreater(out, left[l]);
        out := out + [left[l]];
      }
    }
    assert left[..|left|] == left;
  }

  ghost function ListAliveOwners(shards: seq<map<u64, seq<nat>>>, alive: seq<nat>, hash: u64): set<nat>
    requires |shards| == DEFAULT_SHARD_COUNT
  {
    var shard := shards[ShardFor(hash, DEFAULT_SHARD_COUNT)];
    if hash in shard then Members(shard[hash]) * Members(alive) else {}
  }

  class ListBlockIndexer {
    const shards: array<map<u64, seq<nat>>>
    var alive: seq<nat>

    ghost predicate Valid()
      reads this, shards
    {
      && shards.Length == DEFAULT_SHARD_COUNT
      && Ascending(alive) && (forall p :: p in alive ==> p < MAX_PODS)
      && forall i, h :: 0 <= i < shards.Length && h in shards[i] ==> Ascending(shards[i][h])
    }

    ghost function AliveOwners(hash: u64): set<nat>
      reads this, shards
      requires Valid()
    {
      ListAliveOwners(shards[..], alive, hash)
    }

    constructor (pods: nat)
      ensures Valid() && fresh(shards)
      ensures forall p: nat :: p in Members(alive) <==> p < MAX_PODS && p < pods
      ensures forall hash :: AliveOwners(hash) == {}
    {
      hide ShardFor;
      shards := new map<u64, seq<nat>>[DEFAULT_SHARD_COUNT](_ => map[]);
      var count := if pods < MAX_PODS then pods else MAX_PODS;
      alive := UpTo(count);
    }

    /** `register`: push and sort unless `binary_search` finds the pod. */
    method Register(pod: nat, hash: u64)
      requires Valid()
      modifies shards
      ensures Valid()
      ensures AliveOwners(hash) == old(AliveOwners(hash)) + {pod} * Members(alive)
      ensures forall h :: h != hash ==> AliveOwners(h) == old(AliveOwners(h))
    {
      hide ShardFor;
      var shard := ShardFor(hash, DEFAULT_SHARD_COUNT);
      var owners := if hash in shards[shard] then shards[shard][hash] else [];
      if pod !in owners {
        owners := Inserted(owners, pod);
      }
      shards[shard] := shards[shard][hash := owners];
      assert forall p :: p in Members(owners) <==> p == pod || p in old(if hash in shards[shard] then shards[shard][hash] else []);
    }

    method OwnersAlive(hash: u64) returns (owners: seq<nat>)
      requires Valid()
      ensures Ascending(owners) && Members(owners) == AliveOwners(hash)
    {
      hide ShardFor;
      var shard := ShardFor(hash, DEFAULT_SHARD_COUNT);
      if hash in shards[shard] {
        owners := ListIntersection(shards[shard][hash], alive);
      } else {
        owners := [];
      }
    }
  }

  /** The new pod at its sorted place. */
  function Inserted(owners: seq<nat>, pod: nat): (next: seq<nat>)
    requires Ascending(owners) && pod !in owners
    ensures Ascending(next) && forall p :: p in next <==> p == pod || p in owners
  {
    if owners == [] then [pod]
    else
      TailGreater(owners);
      if pod < owners[0] then
        PrependLess(pod, owners);
        [pod] + owners
      else
        var tail := Inserted(owners[1..], pod);
        PrependLess(owners[0], tail);
        [owners[0]] + tail
  }

  lemma PrependLess(x: nat, pods: seq<nat>)
    requires Ascending(pods) && forall p :: p in pods ==> x < p
    ensures Ascending([x] + pods) && forall p :: p in [x] + pods <==> p == x || p in pods
  {
    assert forall i :: 0 <= i < |pods| ==> pods[i] in pods;
  }

  /** `(0..count).collect()` */
  function UpTo(count: nat): (pods: seq<nat>)
    ensures Ascending(pods) && forall p: nat :: p in pods <==> p < count
  {
    if count == 0 then []
    else
      var init := UpTo(count - 1);
      AppendGreater(init, count - 1);
      init + [count - 1]
  }

  lemma TailGreater(owners: seq<nat>)
    requires Ascending(owners) && owners != []
    ensures Ascending(owners[1..])
    ensures forall p :: p in owners[1..] ==> owners[0] < p
    ensures forall p :: p in owners <==> p == owners[0] || p in owners[1..]
  {
    assert owners == [owners[0]] + owners[1..];
  }

  ghost function ListView(shards: seq<map<u64, seq<nat>>>, alive: seq<nat>, chain: seq<u64>): View
    requires |shards| == DEFAULT_SHARD_COUNT
  {
    seq(|chain|, i requires 0 <= i < |chain| => ListAliveOwners(shards, alive, chain[i]))
  }

  datatype ListSearchFrame = ListSearchFrame(minPrefixDepth: nat, maxPrefixDepth: nat, candidatePods: seq<nat>) {
    ghost function Abs(): Frame {
      Frame(minPrefixDepth, maxPrefixDepth, Members(candidatePods))
    }
  }

  ghost function AbsLists(stack: seq<ListSearchFrame>): seq<Frame> {
    seq(|stack|, i requires 0 <= i < |stack| => stack[i].Abs())
  }

  lemma AbsListsPush(stack: seq<ListSearchFrame>, frame: ListSearchFrame)
    ensures AbsLists(stack + [frame]) == AbsLists(stack) + [frame.Abs()]
  {
  }

  lemma OneList(frame: ListSearchFrame)
    ensures AbsLists([frame]) == [frame.Abs()] && AbsLists([]) == []
  {
  }

  predicate Sorted(stack: seq<ListSearchFrame>) {
    forall i :: 0 <= i < |stack| ==> Ascending(stack[i].candidatePods)
  }

  function PushList(stack: seq<ListSearchFrame>, frame: ListSearchFrame): (next: seq<ListSearchFrame>)
    requires Sorted(stack) && Ascending(frame.candidatePods)
    ensures AbsLists(next) == PushNonEmpty(AbsLists(stack), frame.Abs()) && Sorted(next)
  {
    AbsListsPush(stack, frame);
    assert frame.candidatePods != [] ==> frame.candidatePods[0] in Members(frame.candidatePods);
    if frame.candidatePods == [] then stack else stack + [frame]
  }

  method SetListed(depths: array<nat>, pods: seq<nat>, depth: nat)
    requires forall p :: p in pods ==> p < depths.Length
    modifies depths
    ensures forall p :: 0 <= p < depths.Length ==> depths[p] == if p in Members(pods) then depth else old(depths[p])
  {
    for i := 0 to |pods|
      invariant forall p :: 0 <= p < depths.Length ==> depths[p] == if p in pods[..i] then depth else old(depths[p])
    {
      PrefixNext(pods, i);
      assert pods[i] in pods;
      depths[pods[i]] := depth;
    }
    assert pods[..|pods|] == pods;
  }

  /** `query_prefix_depths_binary_list_into`; the candidates come sorted. */
  method QueryPrefixDepthsBinaryList(indexer: ListBlockIndexer, chain: seq<u64>, candidates: seq<nat>, depths: array<nat>)
    returns (counters: QueryCounters)
    requires indexer.Valid() && depths.Length >= MAX_PODS && Ascending(candidates)
    modifies depths
    ensures Answered(ListView(indexer.shards[..], indexer.alive, chain), Members(candidates) * Members(indexer.alive), depths[..], counters)
  {
    hide Members, InSearch, Answered, Sum, Probe, PushNonEmpty, AbsLists, ListAliveOwners, Ascending;
    ghost var view := ListView(indexer.shards[..], indexer.alive, chain);
    FillZero(depths);
    var start := ListIntersection(candidates, indexer.alive);
    ghost var root := Members(start);
    var stack := [ListSearchFrame(0, |chain|, start)];
    counters := QueryCounters(0, 1, 0);
    OneList(stack[0]);
    InSearchStart(view, root, depths[..]);
    while stack != []
      invariant InSearch(AbsLists(stack), view, root, depths[..], counters) && Sorted(stack)
      decreases Sum(AbsLists(stack), Work)
    {
      var frame := stack[|stack| - 1];
      var others := stack[..|stack| - 1];
      ghost var f, rest := frame.Abs(), AbsLists(others);
      assert stack == others + [frame];
      AbsListsPush(others, frame);
      InSearchTop(rest, f, view, root, depths[..], counters);
      if frame.candidatePods == [] {
        NoMembers(frame.candidatePods);
        InSearchLeaf(rest, f, view, root, depths[..], depths[..], counters);
        stack, counters := others, counters.(searchFrames := counters.searchFrames + 1);
        continue;
      }
      if frame.minPrefixDepth == frame.maxPrefixDepth {
        ghost var before := depths[..];
        MembersAlive(frame.candidatePods, indexer.alive);
        SetListed(depths, frame.candidatePods, frame.minPrefixDepth);
        InSearchLeaf(rest, f, view, root, before, depths[..], counters);
        stack, counters := others, counters.(searchFrames := counters.searchFrames + 1);
        continue;
      }

      var probePrefixDepth := (frame.minPrefixDepth + frame.maxPrefixDepth + 1) / 2;
      ProbeIs(frame.minPrefixDepth, frame.maxPrefixDepth, probePrefixDepth);
      var podsWithProbePrefix := indexer.OwnersAlive(chain[probePrefixDepth - 1]);
      var podsAtOrAboveProbe := ListIntersection(frame.candidatePods, podsWithProbePrefix);
      var podsBelowProbe := ListMinus(frame.candidatePods, podsAtOrAboveProbe);
      assert Members(podsBelowProbe) == f.pods - Members(podsWithProbePrefix);
      NoMembers(frame.candidatePods);
      InSearchSplit(rest, f, view, root, depths[..], counters);
      stack := PushList(others, ListSearchFrame(probePrefixDepth, frame.maxPrefixDepth, podsAtOrAboveProbe));
      stack := PushList(stack, ListSearchFrame(frame.minPrefixDepth, probePrefixDepth - 1, podsBelowProbe));
      counters := QueryCounters(counters.shardLookups + 1, counters.bitmapIntersections + 2, counters.searchFrames + 1);
    }
    OneList(ListSearchFrame(0, 0, []));
    AllAnswered(view, root, depths[..], counters);
  }

  lemma NoMembers(pods: seq<nat>)
    ensures pods == [] <==> Members(pods) == {}
  {
    assert pods != [] ==> pods[0] in Members(pods);
  }

  lemma MembersAlive(pods: seq<nat>, alive: seq<nat>)
    requires Members(pods) <= Members(alive) && forall p :: p in alive ==> p < MAX_PODS
    ensures forall p :: p in pods ==> p < MAX_PODS
  {
    assert forall p :: p in pods ==> p in Members(pods);
  }

  // Arrays of flags

  type Flags = pods: seq<bool> | |pods| == MAX_PODS witness seq(MAX_PODS, i => false)

  datatype PodArray = PodArray(pods: Flags) {
    ghost function Pods(): set<nat> {
      set p: nat | p < MAX_PODS && pods[p]
    }

    static function Empty(): (a: PodArray)
      ensures a.Pods() == {}
    {
      PodArray(seq(MAX_PODS, i => false))
    }

    /** `full_for_count` */
    static method FullForCount(count: nat) returns (out: PodArray)
      ensures forall p: nat :: p in out.Pods() <==> p < MAX_PODS && p < count
    {
      out := PodArray.Empty();
      for pod := 0 to if count < MAX_PODS then count else MAX_PODS
        invariant forall p: nat :: p in out.Pods() <==> p < pod
      {
        out := out.Set(pod);
      }
    }

    function Set(pod: nat): (a: PodArray)
      ensures a.Pods() == if pod < MAX_PODS then Pods() + {pod} else Pods()
    {
      if pod < MAX_PODS then PodArray(pods[pod := true]) else this
    }

    method IsEmpty() returns (empty: bool)
      ensures empty <==> Pods() == {}
    {
      for pod := 0 to MAX_PODS
        invariant forall p: nat :: p < pod ==> !pods[p]
      {
        if pods[pod] {
          assert pod in Pods();
          return false;
        }
      }
      empty := true;
    }

    method And(other: PodArray) returns (out: PodArray)
      ensures out.Pods() == Pods() * other.Pods()
    {
      var flags: seq<bool> := [];
      for pod := 0 to MAX_PODS
        invariant |flags| == pod && forall p: nat :: p < pod ==> (flags[p] <==> pods[p] && other.pods[p])
      {
        flags := flags + [pods[pod] && other.pods[pod]];
      }
      out := PodArray(flags);
    }

    method Minus(other: PodArray) returns (out: PodArray)
      ensures out.Pods() == Pods() - other.Pods()
    {
      var flags: seq<bool> := [];
      for pod := 0 to MAX_PODS
        invariant |flags| == pod && forall p: nat :: p < pod ==> (flags[p] <==> pods[p] && !other.pods[p])
      {
        flags := flags + [pods[pod] && !other.pods[pod]];
      }
      out := PodArray(flags);
    }
  }

  ghost function ArrayAliveOwners(shards: seq<map<u64, PodArray>>, alive: PodArray, hash: u64): set<nat>
    requires |shards| == DEFAULT_SHARD_COUNT
  {
    var shard := shards[ShardFor(hash, DEFAULT_SHARD_COUNT)];
    if hash in shard then shard[hash].Pods() * alive.Pods() else {}
  }

  ghost function ArrayView(shards: seq<map<u64, PodArray>>, alive: PodArray, chain: seq<u64>): View
    requires |shards| == DEFAULT_SHARD_COUNT
  {
    seq(|chain|, i requires 0 <= i < |chain| => ArrayAliveOwners(shards, alive, chain[i]))
  }

  class ArrayBlockIndexer {
    const shards: array<map<u64, PodArray>>
    var alive: PodArray

    ghost predicate Valid()
      reads this
    {
      shards.Length == DEFAULT_SHARD_COUNT
    }

    constructor (pods: nat)
      ensures Valid() && fresh(shards)
      ensures forall p: nat :: p in alive.Pods() <==> p < MAX_PODS && p < pods
      ensures forall hash :: ArrayAliveOwners(shards[..], alive, hash) == {}
    {
      shards := new map<u64, PodArray>[DEFAULT_SHARD_COUNT](_ => map[]);
      var flags := PodArray.FullForCount(pods);
      alive := flags;
    }

    method Register(pod: nat, hash: u64)
      requires Valid()
      modifies shards
      ensures Valid()
      ensures ArrayAliveOwners(shards[..], alive, hash) ==
        ArrayAliveOwners(old(shards[..]), alive, hash) + {pod} * alive.Pods()
      ensures forall h :: h != hash ==>
        ArrayAliveOwners(shards[..], alive, h) == ArrayAliveOwners(old(shards[..]), alive, h)
    {
      hide ShardFor;
      var shard := ShardFor(hash, DEFAULT_SHARD_COUNT);
      var owners := if hash in shards[shard] then shards[shard][hash] else PodArray.Empty();
      shards[shard] := shards[shard][hash := owners.Set(pod)];
    }

    method OwnersAlive(hash: u64) returns (owners: PodArray)
      requires Valid()
      ensures owners.Pods() == ArrayAliveOwners(shards[..], alive, hash)
    {
      hide ShardFor;
      var shard := ShardFor(hash, DEFAULT_SHARD_COUNT);
      if hash in shards[shard] {
        owners := shards[shard][hash].And(alive);
      } else {
        owners := PodArray.Empty();
      }
    }
  }

  datatype ArraySearchFrame = ArraySearchFrame(minPrefixDepth: nat, maxPrefixDepth: nat, candidatePods: PodArray) {
    ghost function Abs(): Frame {
      Frame(minPrefixDepth, maxPrefixDepth, candidatePods.Pods())
    }
  }

  ghost function AbsArrays(stack: seq<ArraySearchFrame>): seq<Frame> {
    seq(|stack|, i requires 0 <= i < |stack| => stack[i].Abs())
  }

  lemma AbsArraysPush(stack: seq<ArraySearchFrame>, frame: ArraySearchFrame)
    ensures AbsArrays(stack + [frame]) == AbsArrays(stack) + [frame.Abs()]
    ensures AbsArrays([frame]) == [frame.Abs()] && AbsArrays([]) == []
  {
  }

  method PushArray(stack: seq<ArraySearchFrame>, frame: ArraySearchFrame) returns (next: seq<ArraySearchFrame>)
    ensures AbsArrays(next) == PushNonEmpty(AbsArrays(stack), frame.Abs())
  {
    AbsArraysPush(stack, frame);
    var empty := frame.candidatePods.IsEmpty();
    next := if empty then stack else stack + [frame];
  }

  method SetFlagged(depths: array<nat>, pods: PodArray, depth: nat)
    requires depths.Length >= MAX_PODS
    modifies depths
    ensures forall p :: 0 <= p < depths.Length ==> depths[p] == if p in pods.Pods() then depth else old(depths[p])
  {
    for pod := 0 to MAX_PODS
      invariant forall p :: 0 <= p < depths.Length ==>
        depths[p] == if p < pod && p in pods.Pods() then depth else old(depths[p])
    {
      if pods.pods[pod] {
        depths[pod] := depth;
      }
    }
  }

  /** `query_prefix_depths_binary_array_into` */
  method QueryPrefixDepthsBinaryArray(indexer: ArrayBlockIndexer, chain: seq<u64>, candidates: PodArray, depths: array<nat>)
    returns (counters: QueryCounters)
    requires indexer.Valid() && depths.Length >= MAX_PODS
    modifies depths
    ensures Answered(ArrayView(indexer.shards[..], indexer.alive, chain), candidates.Pods() * indexer.alive.Pods(),
                     depths[..], counters)
  {
    hide PodArray.Pods, InSearch, Answered, Sum, Probe, PushNonEmpty, AbsArrays, ArrayAliveOwners;
    ghost var view := ArrayView(indexer.shards[..], indexer.alive, chain);
    FillZero(depths);
    var start := candidates.And(indexer.alive);
    ghost var root := start.Pods();
    var stack := [ArraySearchFrame(0, |chain|, start)];
    counters := QueryCounters(0, 1, 0);
    AbsArraysPush([], stack[0]);
    InSearchStart(view, root, depths[..]);
    while stack != []
      invariant InSearch(AbsArrays(stack), view, root, depths[..], counters)
      decreases Sum(AbsArrays(stack), Work)
    {
      var frame := stack[|stack| - 1];
      var others := stack[..|stack| - 1];
      ghost var f, rest := frame.Abs(), AbsArrays(others);
      assert stack == others + [frame];
      AbsArraysPush(others, frame);
      InSearchTop(rest, f, view, root, depths[..], counters);
      var empty := frame.candidatePods.IsEmpty();
      if empty {
        InSearchLeaf(rest, f, view, root, depths[..], depths[..], counters);
        stack, counters := others, counters.(searchFrames := counters.searchFrames + 1);
        continue;
      }
      if frame.minPrefixDepth == frame.maxPrefixDepth {
        ghost var before := depths[..];
        SetFlagged(depths, frame.candidatePods, frame.minPrefixDepth);
        InSearchLeaf(rest, f, view, root, before, depths[..], counters);
        stack, counters := others, counters.(searchFrames := counters.searchFrames + 1);
        continue;
      }

      var probePrefixDepth := (frame.minPrefixDepth + frame.maxPrefixDepth + 1) / 2;
      ProbeIs(frame.minPrefixDepth, frame.maxPrefixDepth, probePrefixDepth);
      var podsWithProbePrefix := indexer.OwnersAlive(chain[probePrefixDepth - 1]);
      var podsAtOrAboveProbe := frame.candidatePods.And(podsWithProbePrefix);
      var podsBelowProbe := frame.candidatePods.Minus(podsAtOrAboveProbe);
      assert podsBelowProbe.Pods() == f.pods - podsWithProbePrefix.Pods();
      InSearchSplit(rest, f, view, root, depths[..], counters);
      stack := PushArray(others, ArraySearchFrame(probePrefixDepth, frame.maxPrefixDepth, podsAtOrAboveProbe));
      stack := PushArray(stack, ArraySearchFrame(frame.minPrefixDepth, probePrefixDepth - 1, podsBelowProbe));
      counters := QueryCounters(counters.shardLookups + 1, counters.bitmapIntersections + 2, counters.searchFrames + 1);
    }
    AbsArraysPush([], ArraySearchFrame(0, 0, PodArray.Empty()));
    AllAnswered(view, root, depths[..], counters);
  }

  /** An answer fixes the depths of the first 256 pods and all three counters, so searches over
      indexes with the same alive owners agree whatever the pod sets are made of. */
  lemma RepresentationsAgree(view: View, root: set<nat>, depths: seq<nat>, c: QueryCounters, others: seq<nat>, d: QueryCounters)
    requires Answered(view, root, depths, c) && Answered(view, root, others, d)
    ensures c == d
    ensures forall p :: 0 <= p < |depths| && p < |others| ==> depths[p] == others[p]
  {
    hide Depth, Lookups, FramesOf;
  }

  /** The three searches on indexes with the same alive owners give one answer. */
  method QueryRepresentations(bitmaps: ShardedBlockIndexer, lists: ListBlockIndexer, arrays: ArrayBlockIndexer,
                              chain: seq<u64>, candidates: HostBitmap)
    returns (bitmapDepths: array<nat>, listDepths: array<nat>, arrayDepths: array<nat>,
             bitmapCounters: QueryCounters, listCounters: QueryCounters, arrayCounters: QueryCounters)
    requires bitmaps.Valid() && lists.Valid() && arrays.Valid()
    requires bitmaps.alive.Pods() == Members(lists.alive) == arrays.alive.Pods()
    requires AliveView(bitmaps.State(), chain) == ListView(lists.shards[..], lists.alive, chain)
      == ArrayView(arrays.shards[..], arrays.alive, chain)
    ensures bitmapDepths[..] == listDepths[..] == arrayDepths[..]
    ensures bitmapCounters == listCounters == arrayCounters
    ensures fresh(bitmapDepths) && fresh(listDepths) && fresh(arrayDepths)
    ensures Answered(AliveView(bitmaps.State(), chain), candidates.Pods() * bitmaps.alive.Pods(), bitmapDepths[..],
                     bitmapCounters)
    ensures bitmapDepths.Length == MAX_PODS
  {
    hide HostBitmap.Pods, PodArray.Pods, Members, Answered, AliveView, ListView, ArrayView, ShardedBlockIndexer.State;
    bitmapDepths := new nat[MAX_PODS](_ => 0);
    listDepths := new nat[MAX_PODS](_ => 0);
    arrayDepths := new nat[MAX_PODS](_ => 0);
    var list := candidates.IterSetBits();
    var flags := FlagsOf(candidates);
    SameMembers(list, candidates.Pods());
    bitmapCounters := QueryPrefixDepthsBinary(bitmaps, chain, candidates, bitmapDepths);
    listCounters := QueryPrefixDepthsBinaryList(lists, chain, list, listDepths);
    arrayCounters := QueryPrefixDepthsBinaryArray(arrays, chain, flags, arrayDepths);
    ghost var view, root := AliveView(bitmaps.State(), chain), candidates.Pods() * bitmaps.alive.Pods();
    RepresentationsAgree(view, root, bitmapDepths[..], bitmapCounters, listDepths[..], listCounters);
    RepresentationsAgree(view, root, bitmapDepths[..], bitmapCounters, arrayDepths[..], arrayCounters);
  }

  // One list of depths registered in three indexes

  /** How many hashes p has registered when the pods below `pod` are done and `pod` has i. */
  ghost function Registered(chain: seq<u64>, depths: seq<nat>, pod: nat, i: nat, p: nat): (count: nat)
    requires i <= |chain|
    ensures count <= |chain|
  {
    if p < pod && p < |depths| then Min(depths[p], |chain|) else if p == pod then i else 0
  }

  /** The pods registered for the hash when the pods below `pod` have registered their leading
      hashes and `pod` the first i. */
  ghost function Built(chain: seq<u64>, depths: seq<nat>, pod: nat, i: nat, hash: u64): set<nat>
    requires i <= |chain|
  {
    set p: nat | p <= pod && hash in chain[..Registered(chain, depths, pod, i, p)]
  }

  lemma BuiltHash(chain: seq<u64>, depths: seq<nat>, pod: nat, i: nat, hash: u64)
    requires i < |chain|
    ensures Built(chain, depths, pod, i + 1, hash) ==
      Built(chain, depths, pod, i, hash) + if hash == chain[i] then {pod} else {}
  {
    assert chain[..i + 1] == chain[..i] + [chain[i]];
  }

  lemma BuiltPod(chain: seq<u64>, depths: seq<nat>, pod: nat, hash: u64)
    requires pod < |depths|
    ensures Built(chain, depths, pod, Min(depths[pod], |chain|), hash) == Built(chain, depths, pod + 1, 0, hash)
  {
  }

  lemma BuiltNothing(chain: seq<u64>, depths: seq<nat>, hash: u64)
    ensures Built(chain, depths, 0, 0, hash) == {}
  {
  }

  ghost function BuiltView(chain: seq<u64>, depths: seq<nat>, pods: nat): View {
    seq(|chain|, i requires 0 <= i < |chain| => Built(chain, depths, pods, 0, chain[i]))
  }

  /** On a chain without repetitions the search finds the depths that were registered. */
  lemma BuiltDepth(chain: seq<u64>, depths: seq<nat>, pods: nat, pod: nat)
    requires Distinct(chain) && pod < pods && pod < |depths|
    ensures Depth(BuiltView(chain, depths, pods), pod) == Min(depths[pod], |chain|)
  {
    var view, m := BuiltView(chain, depths, pods), Min(depths[pod], |chain|);
    forall i | 0 <= i < |chain| ensures pod in view[i] <==> i < m {
      if i < m {
        assert chain[..m][i] == chain[i];
      }
    }
    DepthOfClosed(view, pod);
  }

  /** The registry holds what has been built so far. */
  ghost predicate Holds(s: Registry, chain: seq<u64>, depths: seq<nat>, pod: nat, i: nat)
    requires i <= |chain|
  {
    forall hash: u64 :: s.AliveOwners(hash) == Built(chain, depths, pod, i, hash)
  }

  lemma HoldsNothing(s: Registry, chain: seq<u64>, depths: seq<nat>)
    requires s.flat == map[]
    ensures Holds(s, chain, depths, 0, 0)
  {
  }

  lemma HoldsHash(s: Registry, chain: seq<u64>, depths: seq<nat>, pod: nat, i: nat)
    requires i < |chain| && Holds(s, chain, depths, pod, i) && pod < MAX_PODS && pod in s.alive
    ensures Holds(Run(s, [ObservePod(pod), AddOwner(pod, chain[i])]), chain, depths, pod, i + 1)
  {
    hide Built, Run;
    RunTwo(s, ObservePod(pod), AddOwner(pod, chain[i]));
    forall hash: u64 ensures Apply(Apply(s, ObservePod(pod)), AddOwner(pod, chain[i])).AliveOwners(hash)
      == s.AliveOwners(hash) + (if hash == chain[i] then {pod} else {}) == Built(chain, depths, pod, i + 1, hash)
    {
      BuiltHash(chain, depths, pod, i, hash);
    }
  }

  lemma HoldsPod(s: Registry, chain: seq<u64>, depths: seq<nat>, pod: nat)
    requires pod < |depths| && Holds(s, chain, depths, pod, Min(depths[pod], |chain|))
    ensures Holds(s, chain, depths, pod + 1, 0)
  {
    hide Built;
    forall hash: u64 ensures s.AliveOwners(hash) == Built(chain, depths, pod + 1, 0, hash) {
      BuiltPod(chain, depths, pod, hash);
    }
  }

  /** The loop of `build_synthetic_state` that registers the leading hashes of every pod. */
  method BuildIndexer(chain: seq<u64>, depths: seq<nat>, pods: nat) returns (indexer: ShardedBlockIndexer)
    requires pods <= MAX_PODS && pods <= |depths|
    ensures fresh(indexer) && fresh(indexer.shards) && indexer.Valid() && indexer.alive.Pods() == Ids(0, pods)
    ensures AliveView(indexer.State(), chain) == BuiltView(chain, depths, pods)
  {
    hide HostBitmap.Pods, FlatOf, Built, Run, Holds;
    var all := HostBitmap.FullForCount(pods);
    indexer := new ShardedBlockIndexer(pods, DEFAULT_SHARD_COUNT, all);
    HoldsNothing(indexer.State(), chain, depths);
    for pod := 0 to pods
      invariant fresh(indexer) && fresh(indexer.shards) && indexer.Valid() && indexer.alive == all
      invariant Holds(indexer.State(), chain, depths, pod, 0)
    {
      for i := 0 to Min(depths[pod], |chain|)
        invariant fresh(indexer) && fresh(indexer.shards) && indexer.Valid() && indexer.alive == all
        invariant Holds(indexer.State(), chain, depths, pod, i)
      {
        HoldsHash(indexer.State(), chain, depths, pod, i);
        var added := indexer.Register(pod, chain[i]);
      }
      HoldsPod(indexer.State(), chain, depths, pod);
    }
    HeldView(indexer.State(), chain, depths, pods);
  }

  lemma HeldView(s: Registry, chain: seq<u64>, depths: seq<nat>, pods: nat)
    requires Holds(s, chain, depths, pods, 0)
    ensures AliveView(s, chain) == BuiltView(chain, depths, pods)
  {
    hide Built;
  }

  /** `build_list_indexer` */
  method BuildListIndexer(chain: seq<u64>, depths: seq<nat>, pods: nat) returns (indexer: ListBlockIndexer)
    requires pods <= MAX_PODS && pods <= |depths|
    ensures fresh(indexer) && fresh(indexer.shards) && indexer.Valid() && Members(indexer.alive) == Ids(0, pods)
    ensures ListView(indexer.shards[..], indexer.alive, chain) == BuiltView(chain, depths, pods)
  {
    hide Built, ListAliveOwners;
    indexer := new ListBlockIndexer(pods);
    forall hash: u64 ensures indexer.AliveOwners(hash) == Built(chain, depths, 0, 0, hash) {
      BuiltNothing(chain, depths, hash);
    }
    for pod := 0 to pods
      invariant fresh(indexer) && fresh(indexer.shards) && indexer.Valid() && Members(indexer.alive) == Ids(0, pods)
      invariant forall hash: u64 :: indexer.AliveOwners(hash) == Built(chain, depths, pod, 0, hash)
    {
      for i := 0 to Min(depths[pod], |chain|)
        invariant fresh(indexer) && fresh(indexer.shards) && indexer.Valid() && Members(indexer.alive) == Ids(0, pods)
        invariant forall hash: u64 :: indexer.AliveOwners(hash) == Built(chain, depths, pod, i, hash)
      {
        indexer.Register(pod, chain[i]);
        forall hash: u64 ensures indexer.AliveOwners(hash) == Built(chain, depths, pod, i + 1, hash) {
          BuiltHash(chain, depths, pod, i, hash);
        }
      }
      forall hash: u64 ensures indexer.AliveOwners(hash) == Built(chain, depths, pod + 1, 0, hash) {
        BuiltPod(chain, depths, pod, hash);
      }
    }
  }

  /** `build_array_indexer` */
  method BuildArrayIndexer(chain: seq<u64>, depths: seq<nat>, pods: nat) returns (indexer: ArrayBlockIndexer)
    requires pods <= MAX_PODS && pods <= |depths|
    ensures fresh(indexer) && fresh(indexer.shards) && indexer.Valid() && indexer.alive.Pods() == Ids(0, pods)
    ensures ArrayView(indexer.shards[..], indexer.alive, chain) == BuiltView(chain, depths, pods)
  {
    hide Built, ArrayAliveOwners, PodArray.Pods;
    indexer := new ArrayBlockIndexer(pods);
    ghost var all := indexer.alive;
    forall hash: u64 ensures ArrayAliveOwners(indexer.shards[..], all, hash) == Built(chain, depths, 0, 0, hash) {
      BuiltNothing(chain, depths, hash);
    }
    for pod := 0 to pods
      invariant fresh(indexer) && fresh(indexer.shards) && indexer.Valid() && indexer.alive == all
      invariant forall hash: u64 :: ArrayAliveOwners(indexer.shards[..], all, hash) == Built(chain, depths, pod, 0, hash)
    {
      for i := 0 to Min(depths[pod], |chain|)
        invariant fresh(indexer) && fresh(indexer.shards) && indexer.Valid() && indexer.alive == all
        invariant forall hash: u64 :: ArrayAliveOwners(indexer.shards[..], all, hash) == Built(chain, depths, pod, i, hash)
      {
        indexer.Register(pod, chain[i]);
        forall hash: u64 ensures ArrayAliveOwners(indexer.shards[..], all, hash) == Built(chain, depths, pod, i + 1, hash) {
          BuiltHash(chain, depths, pod, i, hash);
        }
      }
      forall hash: u64 ensures ArrayAliveOwners(indexer.shards[..], all, hash) == Built(chain, depths, pod + 1, 0, hash) {
        BuiltPod(chain, depths, pod, hash);
      }
    }
  }

  /** The comparison of `bench_part2_repr`: the same depths registered in three indexes give the
      same answers and counters, and the depths registered are found again. */
  method CompareRepresentations(chain: seq<u64>, depths: seq<nat>, pods: nat)
    returns (bitmapDepths: array<nat>, listDepths: array<nat>, arrayDepths: array<nat>,
             bitmapCounters: QueryCounters, listCounters: QueryCounters, arrayCounters: QueryCounters)
    requires pods <= MAX_PODS && pods <= |depths|
    ensures bitmapDepths[..] == listDepths[..] == arrayDepths[..]
    ensures bitmapCounters == listCounters == arrayCounters
    ensures bitmapDepths.Length == MAX_PODS
    ensures Distinct(chain) ==> forall p :: 0 <= p < MAX_PODS ==>
      bitmapDepths[p] == if p < pods then Min(depths[p], |chain|) else 0
  {
    hide HostBitmap.Pods, FlatOf, PodArray.Pods, Members, AliveView, ListView, ArrayView, ShardedBlockIndexer.State,
      BuiltView, Depth, Lookups, FramesOf;
    var bitmaps := BuildIndexer(chain, depths, pods);
    var lists := BuildListIndexer(chain, depths, pods);
    var arrays := BuildArrayIndexer(chain, depths, pods);
    var candidates := HostBitmap.FullForCount(pods);
    bitmapDepths, listDepths, arrayDepths, bitmapCounters, listCounters, arrayCounters :=
      QueryRepresentations(bitmaps, lists, arrays, chain, candidates);
    if Distinct(chain) {
      forall p | 0 <= p < MAX_PODS ensures bitmapDepths[p] == if p < pods then Min(depths[p], |chain|) else 0 {
        if p < pods {
          BuiltDepth(chain, depths, pods, p);
        }
        assert bitmapDepths[..][p] == bitmapDepths[p];
      }
    }
  }

  lemma SameMembers(list: seq<nat>, pods: set<nat>)
    requires forall p :: p in list <==> p in pods
    ensures Members(list) == pods
  {
  }

  /** `pod_array_from_bitmap` */
  method FlagsOf(bitmap: HostBitmap) returns (out: PodArray)
    ensures out.Pods() == bitmap.Pods()
  {
    hide HostBitmap.Pods, PodArray.Pods;
    out := PodArray.Empty();
    var visited := bitmap.IterSetBits();
    for i := 0 to |visited|
      invariant forall p :: p in out.Pods() <==> p in visited[..i]
    {
      PrefixNext(visited, i);
      assert visited[i] in visited;
      PodInRange(bitmap, visited[i]);
      out := out.Set(visited[i]);
    }
    assert visited[..|visited|] == visited;
  }
}
