/** The cache registry as one flat relation between pods and hashes, and its steps.  One step is
    one lock region or atomic operation of src/calinix/cache_registry/sharded_index.rs, so a list
    of steps is an interleaving of any number of threads. */
module FlatRegistry {
  import opened Integers
  import opened Bitmap
  import opened Fibonacci
  import opened PrefixSearch
  import opened Sets

  datatype Registry = Registry(flat: map<u64, set<nat>>, alive: set<nat>, podCount: nat, shardCount: nat) {

    function Owners(hash: u64): set<nat> {
      if hash in flat then flat[hash] else {}
    }

    function AliveOwners(hash: u64): set<nat> {
      Owners(hash) * alive
    }

    /** The owners along a query chain. */
    function ViewOf(chain: seq<u64>): View {
      seq(|chain|, i requires 0 <= i < |chain| => Owners(chain[i]))
    }

    /** No hash is kept without an owner. */
    ghost predicate NoEmptyEntry() {
      forall h :: h in flat ==> flat[h] != {}
    }
  }

  datatype Step =
    | ObservePod(pod: nat)
    | AddOwner(pod: nat, hash: u64)
    | RemoveOwner(pod: nat, hash: u64)
    | SetAlive(pod: nat)
    | ClearAlive(pod: nat)
    | CleanShard(shard: nat, pod: nat)
    | RetainAlive(shard: nat, snapshot: HostBitmap)

  /** Bitmaps hold pods below 256 only; larger ids are ignored. */
  function Storable(pod: nat): set<nat> {
    if pod < MAX_PODS then {pod} else {}
  }

  /** The entries left when every owner set of one shard is cut down to `keep`. */
  ghost function Retain(s: Registry, shard: nat, keep: set<nat> -> set<nat>): map<u64, set<nat>> {
    map h | h in s.flat && (ShardFor(h, s.shardCount) == shard ==> keep(s.flat[h]) != {}) ::
      if ShardFor(h, s.shardCount) == shard then keep(s.flat[h]) else s.flat[h]
  }

  ghost function Apply(s: Registry, step: Step): Registry {
    match step
    case ObservePod(pod) => s.(podCount := if pod + 1 > s.podCount then pod + 1 else s.podCount)
    case AddOwner(pod, hash) => s.(flat := s.flat[hash := s.Owners(hash) + Storable(pod)])
    case RemoveOwner(pod, hash) =>
      if s.Owners(hash) - {pod} == {} then s.(flat := s.flat - {hash})
      else s.(flat := s.flat[hash := s.Owners(hash) - {pod}])
    case SetAlive(pod) => s.(alive := s.alive + Storable(pod))
    case ClearAlive(pod) => s.(alive := s.alive - {pod})
    case CleanShard(shard, pod) => s.(flat := Retain(s, shard, owners => owners - {pod}))
    case RetainAlive(shard, snapshot) => s.(flat := Retain(s, shard, owners => owners * snapshot.Pods()))
  }

  ghost function Run(s: Registry, steps: seq<Step>): Registry {
    if steps == [] then s else Apply(Run(s, steps[..|steps| - 1]), steps[|steps| - 1])
  }

  lemma {:induction false} RunConcat(s: Registry, a: seq<Step>, b: seq<Step>)
    ensures Run(s, a + b) == Run(Run(s, a), b)
    decreases |b|
  {
    hide Apply;
    if b == [] {
      assert a + b == a;
    } else {
      assert (a + b)[..|a + b| - 1] == a + b[..|b| - 1];
      RunConcat(s, a, b[..|b| - 1]);
    }
  }

  lemma RunOne(s: Registry, step: Step)
    ensures Run(s, [step]) == Apply(s, step)
  {
    hide Apply;
    assert [step][..0] == [];
  }

  lemma RunPush(s: Registry, steps: seq<Step>, step: Step)
    ensures Run(s, steps + [step]) == Apply(Run(s, steps), step)
  {
    hide Apply;
    assert (steps + [step])[..|steps|] == steps;
  }

  // Ownership over whole runs

  /** The step decides whether the pod owns the hash. */
  ghost predicate Affects(step: Step, pod: nat, hash: u64, shardCount: nat) {
    match step
    case AddOwner(p, h) => p == pod && h == hash && pod < MAX_PODS
    case RemoveOwner(p, h) => p == pod && h == hash
    case CleanShard(shard, p) => p == pod && shard == ShardFor(hash, shardCount)
    case RetainAlive(shard, snapshot) => shard == ShardFor(hash, shardCount) && pod !in snapshot.Pods()
    case _ => false
  }

  lemma StepOwnership(s: Registry, step: Step, pod: nat, hash: u64)
    ensures pod in Apply(s, step).Owners(hash) <==>
      if Affects(step, pod, hash, s.shardCount) then step.AddOwner? else pod in s.Owners(hash)
    ensures Apply(s, step).shardCount == s.shardCount
  {
    hide ShardFor, HostBitmap.Pods;
  }

  /** The pair was last decided by a registration at position k. */
  ghost predicate RegisteredAt(steps: seq<Step>, k: nat, pod: nat, hash: u64, shardCount: nat) {
    && k < |steps| && steps[k] == AddOwner(pod, hash) && pod < MAX_PODS
    && forall j :: k < j < |steps| ==> !Affects(steps[j], pod, hash, shardCount)
  }

  ghost predicate Untouched(steps: seq<Step>, pod: nat, hash: u64, shardCount: nat) {
    forall j :: 0 <= j < |steps| ==> !Affects(steps[j], pod, hash, shardCount)
  }

  /** On every interleaving a pod owns a hash exactly when the last step that affects the pair is
      a registration, or none does and it owned the hash at the start. */
  lemma {:induction false} LastStepDecides(s: Registry, steps: seq<Step>, pod: nat, hash: u64)
    ensures Run(s, steps).shardCount == s.shardCount
    ensures pod in Run(s, steps).Owners(hash) <==>
      || (exists k: nat :: RegisteredAt(steps, k, pod, hash, s.shardCount))
      || (Untouched(steps, pod, hash, s.shardCount) && pod in s.Owners(hash))
    decreases |steps|
  {
    hide Apply, Affects;
    if steps != [] {
      var n := |steps| - 1;
      var init, last := steps[..n], steps[n];
      var count := s.shardCount;
      LastStepDecides(s, init, pod, hash);
      StepOwnership(Run(s, init), last, pod, hash);
      if Affects(last, pod, hash, count) {
        if last.AddOwner? {
          AffectsOnlyOwn(last, pod, hash, count);
          assert RegisteredAt(steps, n, pod, hash, count);
        }
      } else {
        forall k: nat
          ensures RegisteredAt(steps, k, pod, hash, count) <==> RegisteredAt(init, k, pod, hash, count)
        {
          AddAffects(pod, hash, count);
        }
      }
    }
  }

  lemma AffectsOnlyOwn(step: Step, pod: nat, hash: u64, count: nat)
    requires Affects(step, pod, hash, count) && step.AddOwner?
    ensures step == AddOwner(pod, hash) && pod < MAX_PODS
  {
  }

  lemma AddAffects(pod: nat, hash: u64, count: nat)
    ensures Affects(AddOwner(pod, hash), pod, hash, count) <==> pod < MAX_PODS
  {
  }

  lemma {:induction false} PodCountIsMaximum(s: Registry, steps: seq<Step>)
    ensures Run(s, steps).podCount >= s.podCount
    ensures forall k :: 0 <= k < |steps| && steps[k].ObservePod? ==> Run(s, steps).podCount > steps[k].pod
    ensures Run(s, steps).podCount == s.podCount
      || exists k :: 0 <= k < |steps| && steps[k].ObservePod? && Run(s, steps).podCount == steps[k].pod + 1
    decreases |steps|
  {
    if steps != [] {
      PodCountIsMaximum(s, steps[..|steps| - 1]);
    }
  }

  /** Registering a pod that no bitmap can hold leaves an entry without owners behind, unless the
      hash was present; no other step creates one. */
  lemma EmptyEntryExactly(s: Registry, step: Step)
    requires s.NoEmptyEntry()
    ensures Apply(s, step).NoEmptyEntry() <==>
      (step.AddOwner? ==> step.pod < MAX_PODS || step.hash in s.flat)
  {
    hide ShardFor, HostBitmap.Pods;
    if step.AddOwner? {
      assert step.hash in Apply(s, step).flat;
    }
  }

  lemma {:induction false} RunsKeepNoEmptyEntry(s: Registry, steps: seq<Step>)
    requires s.NoEmptyEntry()
    requires forall k :: 0 <= k < |steps| && steps[k].AddOwner? ==> steps[k].pod < MAX_PODS
    ensures Run(s, steps).NoEmptyEntry()
    decreases |steps|
  {
    hide Apply, Registry.NoEmptyEntry;
    if steps != [] {
      var n := |steps| - 1;
      RunsKeepNoEmptyEntry(s, steps[..n]);
      EmptyEntryExactly(Run(s, steps[..n]), steps[n]);
    }
  }

  ghost predicate NeverEmptyEntry(s: Registry, steps: seq<Step>) {
    forall k :: 0 <= k <= |steps| ==> Run(s, steps[..k]).NoEmptyEntry()
  }

  /** A registration of an id that cannot be stored finds the hash present. */
  ghost predicate LeavesNoEmpty(s: Registry, step: Step) {
    step.AddOwner? ==> step.pod < MAX_PODS || step.hash in s.flat
  }

  ghost predicate AllLeaveNoEmpty(s: Registry, steps: seq<Step>) {
    forall k :: 0 <= k < |steps| ==> LeavesNoEmpty(Run(s, steps[..k]), steps[k])
  }

  /** No empty owner set is stored at any point of a run if and only if every registration of an id
      of 256 or more finds its hash present. */
  lemma {:induction false} NeverEmptyExactly(s: Registry, steps: seq<Step>)
    requires s.NoEmptyEntry()
    ensures NeverEmptyEntry(s, steps) <==> AllLeaveNoEmpty(s, steps)
    decreases |steps|
  {
    hide Apply, Registry.NoEmptyEntry, LeavesNoEmpty;
    if steps != [] {
      var n := |steps| - 1;
      var init := steps[..n];
      assert forall k :: 0 <= k <= n ==> init[..k] == steps[..k];
      assert steps[..n + 1] == steps;
      NeverEmptyExactly(s, init);
      assert NeverEmptyEntry(s, steps) <==> NeverEmptyEntry(s, init) && Run(s, steps).NoEmptyEntry();
      assert AllLeaveNoEmpty(s, steps) <==> AllLeaveNoEmpty(s, init) && LeavesNoEmpty(Run(s, init), steps[n]);
      if NeverEmptyEntry(s, init) {
        assert Run(s, init[..n]).NoEmptyEntry() && init[..n] == init;
        LeavesNoEmptyExactly(Run(s, init), steps[n]);
      }
    } else {
      assert steps[..0] == [];
    }
  }

  lemma LeavesNoEmptyExactly(s: Registry, step: Step)
    requires s.NoEmptyEntry()
    ensures Apply(s, step).NoEmptyEntry() <==> LeavesNoEmpty(s, step)
  {
    hide Apply, Registry.NoEmptyEntry;
    EmptyEntryExactly(s, step);
  }

  // Steps and query answers

  /** Registering a hash never lowers a pod's depth, evicting one never raises it. */
  lemma DepthFollowsOwnership(s: Registry, chain: seq<u64>, pod: nat, other: nat, hash: u64)
    ensures Depth(s.ViewOf(chain), pod) <= Depth(Apply(s, AddOwner(other, hash)).ViewOf(chain), pod)
    ensures Depth(Apply(s, RemoveOwner(other, hash)).ViewOf(chain), pod) <= Depth(s.ViewOf(chain), pod)
  {
    var view := s.ViewOf(chain);
    SoloMonotone(view, Apply(s, AddOwner(other, hash)).ViewOf(chain), pod, 0, |chain|);
    SoloMonotone(Apply(s, RemoveOwner(other, hash)).ViewOf(chain), view, pod, 0, |chain|);
  }

  // Whole operations

  /** `cleanup_dead_pod`: one step per shard. */
  function CleanSteps(shardCount: nat, pod: nat): seq<Step> {
    seq(shardCount, i requires 0 <= i < shardCount => CleanShard(i, pod))
  }

  /** `cleanup_not_alive`, with the alive bitmap read once. */
  function RetainSteps(shardCount: nat, snapshot: HostBitmap): seq<Step> {
    seq(shardCount, i requires 0 <= i < shardCount => RetainAlive(i, snapshot))
  }

  /** `register_chain`: hash by hash, in order. */
  function ChainSteps(pod: nat, chain: seq<u64>): seq<Step> {
    if chain == [] then []
    else ChainSteps(pod, chain[..|chain| - 1]) + [ObservePod(pod), AddOwner(pod, chain[|chain| - 1])]
  }

  /** `evict_chain` */
  function EvictSteps(pod: nat, chain: seq<u64>): seq<Step> {
    seq(|chain|, i requires 0 <= i < |chain| => RemoveOwner(pod, chain[i]))
  }

  lemma {:induction false} AfterChain(s: Registry, pod: nat, chain: seq<u64>, hash: u64)
    ensures var t := Run(s, ChainSteps(pod, chain));
      && t.Owners(hash) == s.Owners(hash) + (if hash in chain && pod < 256 then {pod} else {})
      && t.alive == s.alive && t.shardCount == s.shardCount
      && t.podCount == (if chain == [] || pod < s.podCount then s.podCount else pod + 1)
    decreases |chain|
  {
    if chain != [] {
      var init, last := chain[..|chain| - 1], chain[|chain| - 1];
      AfterChain(s, pod, init, hash);
      var mid := Run(s, ChainSteps(pod, init));
      RunConcat(s, ChainSteps(pod, init), [ObservePod(pod), AddOwner(pod, last)]);
      RunPush(mid, [ObservePod(pod)], AddOwner(pod, last));
      RunOne(mid, ObservePod(pod));
      assert [ObservePod(pod)] + [AddOwner(pod, last)] == [ObservePod(pod), AddOwner(pod, last)];
      assert chain == init + [last];
    }
  }

  /** An evicted chain takes the pod off exactly its hashes, and drops those it alone owned. */
  lemma {:induction false} AfterEvict(s: Registry, pod: nat, chain: seq<u64>, hash: u64)
    ensures var t := Run(s, EvictSteps(pod, chain));
      && t.Owners(hash) == s.Owners(hash) - (if hash in chain then {pod} else {})
      && (hash in t.flat <==> hash in s.flat && (hash in chain ==> s.flat[hash] - {pod} != {}))
      && t.alive == s.alive && t.shardCount == s.shardCount && t.podCount == s.podCount
    decreases |chain|
  {
    hide Run;
    if chain == [] {
      RunNone(s);
    } else {
      var init, last := chain[..|chain| - 1], chain[|chain| - 1];
      AfterEvict(s, pod, init, hash);
      assert EvictSteps(pod, chain) == EvictSteps(pod, init) + [RemoveOwner(pod, last)];
      RunPush(s, EvictSteps(pod, init), RemoveOwner(pod, last));
      assert chain == init + [last];
    }
  }

  /** After a pod's whole chain is registered, a query for it finds the full depth. */
  lemma RegisteredChainIsFound(s: Registry, pod: nat, chain: seq<u64>)
    requires pod < MAX_PODS
    ensures Depth(Run(s, ChainSteps(pod, chain)).ViewOf(chain), pod) == |chain|
  {
    var view := Run(s, ChainSteps(pod, chain)).ViewOf(chain);
    forall i | 0 <= i < |chain| ensures pod in view[i] {
      AfterChain(s, pod, chain, chain[i]);
    }
    FullOwnerFullDepth(view, pod, 0, |chain|);
  }

  /** What cutting down one shard does to one hash. */
  lemma RetainAt(s: Registry, shard: nat, keep: set<nat> -> set<nat>, hash: u64)
    ensures var t := s.(flat := Retain(s, shard, keep));
      && (hash in t.flat <==> hash in s.flat && (ShardFor(hash, s.shardCount) == shard ==> keep(s.flat[hash]) != {}))
      && (hash in t.flat ==>
            t.flat[hash] == if ShardFor(hash, s.shardCount) == shard then keep(s.flat[hash]) else s.flat[hash])
  {
    hide ShardFor;
  }

  lemma CleanAt(s: Registry, shard: nat, pod: nat, hash: u64)
    ensures var t := Apply(s, CleanShard(shard, pod));
      && (hash in t.flat <==> hash in s.flat && (ShardFor(hash, s.shardCount) == shard ==> s.flat[hash] - {pod} != {}))
      && t.Owners(hash) == (if ShardFor(hash, s.shardCount) == shard then s.Owners(hash) - {pod} else s.Owners(hash))
      && t.alive == s.alive && t.shardCount == s.shardCount
  {
    hide ShardFor, Retain;
    RetainAt(s, shard, owners => owners - {pod}, hash);
  }

  /** Cleaning the first k shards removes the pod from the hashes of those shards only. */
  lemma {:induction false} AfterCleanPrefix(s: Registry, pod: nat, k: nat, hash: u64)
    requires k <= s.shardCount
    ensures var t := Run(s, CleanSteps(s.shardCount, pod)[..k]);
      && t.Owners(hash) == (if ShardFor(hash, s.shardCount) < k then s.Owners(hash) - {pod} else s.Owners(hash))
      && (hash in t.flat <==> hash in s.flat && (ShardFor(hash, s.shardCount) < k ==> s.flat[hash] - {pod} != {}))
      && t.alive == s.alive && t.shardCount == s.shardCount
  {
    hide ShardFor, Apply, Run;
    var steps := CleanSteps(s.shardCount, pod);
    if k > 0 {
      AfterCleanPrefix(s, pod, k - 1, hash);
      assert steps[..k] == steps[..k - 1] + [CleanShard(k - 1, pod)];
      RunPush(s, steps[..k - 1], CleanShard(k - 1, pod));
      CleanAt(Run(s, steps[..k - 1]), k - 1, pod, hash);
    } else {
      assert steps[..0] == [];
      RunNone(s);
    }
  }

  lemma RunNone(s: Registry)
    ensures Run(s, []) == s
  {
  }

  lemma RetainAliveAt(s: Registry, shard: nat, snapshot: HostBitmap, hash: u64)
    ensures var t := Apply(s, RetainAlive(shard, snapshot));
      && (hash in t.flat <==>
            hash in s.flat && (ShardFor(hash, s.shardCount) == shard ==> s.flat[hash] * snapshot.Pods() != {}))
      && t.Owners(hash) ==
         (if ShardFor(hash, s.shardCount) == shard then s.Owners(hash) * snapshot.Pods() else s.Owners(hash))
      && t.alive == s.alive && t.shardCount == s.shardCount
  {
    hide ShardFor, Retain, HostBitmap.Pods;
    RetainAt(s, shard, owners => owners * snapshot.Pods(), hash);
  }

  lemma {:induction false} AfterRetainPrefix(s: Registry, snapshot: HostBitmap, k: nat, hash: u64)
    requires k <= s.shardCount
    ensures var t := Run(s, RetainSteps(s.shardCount, snapshot)[..k]);
      && t.Owners(hash) ==
         (if ShardFor(hash, s.shardCount) < k then s.Owners(hash) * snapshot.Pods() else s.Owners(hash))
      && (hash in t.flat <==>
            hash in s.flat && (ShardFor(hash, s.shardCount) < k ==> s.flat[hash] * snapshot.Pods() != {}))
      && t.alive == s.alive && t.shardCount == s.shardCount
  {
    hide ShardFor, HostBitmap.Pods, Apply, Run;
    var steps := RetainSteps(s.shardCount, snapshot);
    if k > 0 {
      AfterRetainPrefix(s, snapshot, k - 1, hash);
      assert steps[..k] == steps[..k - 1] + [RetainAlive(k - 1, snapshot)];
      RunPush(s, steps[..k - 1], RetainAlive(k - 1, snapshot));
      RetainAliveAt(Run(s, steps[..k - 1]), k - 1, snapshot, hash);
    } else {
      assert steps[..0] == [];
      RunNone(s);
    }
  }

  /** What cleaning one pod out of every shard leaves. */
  lemma AfterClean(s: Registry, pod: nat, hash: u64)
    requires s.shardCount > 0
    ensures var t := Run(s, CleanSteps(s.shardCount, pod));
      && t.Owners(hash) == s.Owners(hash) - {pod}
      && (hash in t.flat <==> hash in s.flat && s.flat[hash] - {pod} != {})
      && t.alive == s.alive && t.shardCount == s.shardCount
  {
    AfterCleanPrefix(s, pod, s.shardCount, hash);
    assert CleanSteps(s.shardCount, pod)[..s.shardCount] == CleanSteps(s.shardCount, pod);
  }

  lemma AfterRetain(s: Registry, snapshot: HostBitmap, hash: u64)
    requires s.shardCount > 0
    ensures var t := Run(s, RetainSteps(s.shardCount, snapshot));
      && t.Owners(hash) == s.Owners(hash) * snapshot.Pods()
      && (hash in t.flat <==> hash in s.flat && s.flat[hash] * snapshot.Pods() != {})
      && t.alive == s.alive && t.shardCount == s.shardCount
  {
    AfterRetainPrefix(s, snapshot, s.shardCount, hash);
    assert RetainSteps(s.shardCount, snapshot)[..s.shardCount] == RetainSteps(s.shardCount, snapshot);
  }

  /** Queries see no difference: alive owners and alive pods' depths agree on every chain. */
  ghost predicate SameAnswers(s: Registry, t: Registry) {
    && (forall hash :: t.AliveOwners(hash) == s.AliveOwners(hash))
    && (forall chain, pod :: pod in s.alive ==> Depth(t.ViewOf(chain), pod) == Depth(s.ViewOf(chain), pod))
  }

  lemma SameAliveOwnersSameAnswers(s: Registry, t: Registry)
    requires t.alive == s.alive
    requires forall hash :: t.AliveOwners(hash) == s.AliveOwners(hash)
    ensures SameAnswers(s, t)
  {
    forall chain, pod | pod in s.alive ensures Depth(t.ViewOf(chain), pod) == Depth(s.ViewOf(chain), pod) {
      forall i | 0 <= i < |chain| ensures pod in t.ViewOf(chain)[i] <==> pod in s.ViewOf(chain)[i] {
        assert pod in t.AliveOwners(chain[i]) <==> pod in s.AliveOwners(chain[i]);
      }
      DepthIndependent(t.ViewOf(chain), s.ViewOf(chain), pod);
    }
  }

  /** Cleanup of a pod is invisible at every point of its sweep exactly when the pod is not
      alive or owns nothing in the shards swept so far. */
  lemma CleanupInvisible(s: Registry, pod: nat, k: nat)
    requires k <= s.shardCount
    ensures SameAnswers(s, Run(s, CleanSteps(s.shardCount, pod)[..k])) <==>
      (pod in s.alive ==> forall hash :: ShardFor(hash, s.shardCount) < k ==> pod !in s.Owners(hash))
  {
    hide ShardFor, Depth;
    var t := Run(s, CleanSteps(s.shardCount, pod)[..k]);
    AfterCleanPrefix(s, pod, k, 0);
    forall hash
      ensures t.Owners(hash) ==
        if ShardFor(hash, s.shardCount) < k then s.Owners(hash) - {pod} else s.Owners(hash)
    {
      AfterCleanPrefix(s, pod, k, hash);
    }
    if pod in s.alive {
      if hash :| ShardFor(hash, s.shardCount) < k && pod in s.Owners(hash) {
        assert pod in s.AliveOwners(hash) && pod !in t.AliveOwners(hash);
      } else {
        SameAliveOwnersSameAnswers(s, t);
      }
    } else {
      SameAliveOwnersSameAnswers(s, t);
    }
  }

  /** Sweeping out the pods outside an alive snapshot is invisible exactly while every alive owner
      of a swept hash is in the snapshot; a pod that came alive since can lose its entries. */
  lemma RetainInvisible(s: Registry, snapshot: HostBitmap, k: nat)
    requires k <= s.shardCount
    ensures SameAnswers(s, Run(s, RetainSteps(s.shardCount, snapshot)[..k])) <==>
      (forall hash :: ShardFor(hash, s.shardCount) < k ==> s.AliveOwners(hash) <= snapshot.Pods())
  {
    hide ShardFor, Depth, HostBitmap.Pods;
    var t := Run(s, RetainSteps(s.shardCount, snapshot)[..k]);
    AfterRetainPrefix(s, snapshot, k, 0);
    forall hash
      ensures t.Owners(hash) ==
        if ShardFor(hash, s.shardCount) < k then s.Owners(hash) * snapshot.Pods() else s.Owners(hash)
    {
      AfterRetainPrefix(s, snapshot, k, hash);
    }
    if hash :| ShardFor(hash, s.shardCount) < k && !(s.AliveOwners(hash) <= snapshot.Pods()) {
      var p :| p in s.AliveOwners(hash) && p !in snapshot.Pods();
      assert p !in t.AliveOwners(hash);
    } else {
      forall hash ensures t.AliveOwners(hash) == s.AliveOwners(hash) {
        assert ShardFor(hash, s.shardCount) < k ==> s.AliveOwners(hash) <= snapshot.Pods();
      }
      SameAliveOwnersSameAnswers(s, t);
    }
  }

  /** The entries that nobody owns once only the pods satisfying `keep` are left. */
  ghost function Orphaned(flat: map<u64, set<nat>>, keep: nat -> bool): set<u64> {
    set h | h in flat && NobodyIn(flat[h], keep)
  }

  ghost predicate NobodyIn(owners: set<nat>, keep: nat -> bool) {
    forall q :: q in owners ==> !keep(q)
  }

  ghost function OtherThan(pod: nat): nat -> bool {
    (q: nat) => q != pod
  }

  ghost function MemberOf(snapshot: HostBitmap): nat -> bool {
    (q: nat) => q in snapshot.Pods()
  }

  /** The entries a cleanup of one pod removes are the hashes owned by nobody else. */
  lemma CleanupRemoves(s: Registry, pod: nat)
    requires s.shardCount > 0
    ensures var t := Run(s, CleanSteps(s.shardCount, pod));
      && |t.flat| <= |s.flat|
      && |s.flat| - |t.flat| == |Orphaned(s.flat, OtherThan(pod))|
  {
    hide ShardFor, Run, CleanSteps;
    var t := Run(s, CleanSteps(s.shardCount, pod));
    var keep := OtherThan(pod);
    forall h: u64 ensures h in t.flat <==> h in s.flat && !NobodyIn(s.flat[h], keep) {
      AfterClean(s, pod, h);
      if h in s.flat {
        var rest := s.flat[h] - {pod};
        if rest != {} {
          var q :| q in rest;
          assert q in s.flat[h] && keep(q);
        } else {
          assert forall q :: q in s.flat[h] ==> q in rest || q == pod;
        }
      }
    }
    KeysLeft(s.flat, t.flat, keep);
  }

  /** Cleaning out every pod outside a snapshot removes the hashes owned by nobody inside it. */
  lemma RetainRemoves(s: Registry, snapshot: HostBitmap)
    requires s.shardCount > 0
    ensures var t := Run(s, RetainSteps(s.shardCount, snapshot));
      && |t.flat| <= |s.flat|
      && |s.flat| - |t.flat| == |Orphaned(s.flat, MemberOf(snapshot))|
  {
    hide ShardFor, Run, RetainSteps, HostBitmap.Pods;
    var t := Run(s, RetainSteps(s.shardCount, snapshot));
    var keep := MemberOf(snapshot);
    forall h: u64 ensures h in t.flat <==> h in s.flat && !NobodyIn(s.flat[h], keep) {
      AfterRetain(s, snapshot, h);
      if h in s.flat {
        var rest := s.flat[h] * snapshot.Pods();
        if rest != {} {
          var q :| q in rest;
          assert q in s.flat[h] && keep(q);
        } else {
          assert forall q :: q in s.flat[h] && q in snapshot.Pods() ==> q in rest;
        }
      }
    }
    KeysLeft(s.flat, t.flat, keep);
  }

  lemma KeysLeft(before: map<u64, set<nat>>, after: map<u64, set<nat>>, keep: nat -> bool)
    requires forall h :: h in after <==> h in before && !NobodyIn(before[h], keep)
    ensures |after| <= |before|
    ensures |before| - |after| == |Orphaned(before, keep)|
  {
    hide NobodyIn;
    var removed := Orphaned(before, keep);
    var a, b := before.Keys, after.Keys;
    assert removed <= a;
    assert b == a - removed;
    DifferenceSize(a, removed);
  }
}
