/** Operations that take one lock after another, with the steps of other threads between them. */
module Interleavings {
  import opened Integers
  import opened Bitmap
  import opened Fibonacci
  import opened PrefixSearch
  import opened FlatRegistry
  import opened Sets

  /** What other threads do before the k-th lock region of an operation, all of it in order. */
  ghost function Interleaved(others: nat -> seq<Step>, k: nat): seq<Step> {
    if k == 0 then [] else Interleaved(others, k - 1) + others(k - 1)
  }

  lemma InterleavedNext(start: Registry, others: nat -> seq<Step>, k: nat)
    ensures Run(Run(start, Interleaved(others, k)), others(k)) == Run(start, Interleaved(others, k + 1))
  {
    RunConcat(start, Interleaved(others, k), others(k));
  }

  lemma {:induction false} NothingInterleaved(others: nat -> seq<Step>, k: nat)
    requires forall k :: others(k) == []
    ensures Interleaved(others, k) == []
  {
    if k > 0 {
      NothingInterleaved(others, k - 1);
    }
  }

  /** The lock regions `own` of an operation, each after what other threads do before it. */
  ghost function Woven(others: nat -> seq<Step>, own: nat -> Step, k: nat): seq<Step> {
    if k == 0 then [] else Woven(others, own, k - 1) + others(k - 1) + [own(k - 1)]
  }

  lemma WovenNext(start: Registry, others: nat -> seq<Step>, own: nat -> Step, k: nat)
    ensures Run(start, Woven(others, own, 0)) == start
    ensures Run(start, Woven(others, own, k) + others(k)) == Run(Run(start, Woven(others, own, k)), others(k))
    ensures Run(start, Woven(others, own, k + 1)) == Apply(Run(start, Woven(others, own, k) + others(k)), own(k))
  {
    hide Apply;
    RunConcat(start, Woven(others, own, k), others(k));
    RunPush(start, Woven(others, own, k) + others(k), own(k));
  }

  lemma UntouchedKeeps(start: Registry, steps: seq<Step>, pod: nat, hash: u64)
    requires Untouched(steps, pod, hash, start.shardCount)
    ensures pod in Run(start, steps).Owners(hash) <==> pod in start.Owners(hash)
    ensures Run(start, steps).shardCount == start.shardCount
  {
    hide Run, Affects;
    LastStepDecides(start, steps, pod, hash);
    AddAffects(pod, hash, start.shardCount);
  }

  // Steps of one pod and the other pods

  /** The step leaves this pod's ownership and everybody's liveness alone. */
  ghost predicate Harmless(step: Step, pod: nat) {
    match step
    case ObservePod(_) => true
    case AddOwner(p, _) => p != pod
    case RemoveOwner(p, _) => p != pod
    case CleanShard(_, p) => p != pod
    case RetainAlive(_, snapshot) => pod in snapshot.Pods()
    case _ => false
  }

  ghost function Kept(steps: seq<Step>, drop: Step -> bool): seq<Step> {
    if steps == [] then []
    else
      var n := |steps| - 1;
      Kept(steps[..n], drop) + if drop(steps[n]) then [] else [steps[n]]
  }

  /** The pod cannot tell the two registries apart at this hash. */
  ghost predicate SameFor(t: Registry, u: Registry, pod: nat, hash: u64) {
    && (pod in t.Owners(hash) <==> pod in u.Owners(hash))
    && t.alive == u.alive && t.shardCount == u.shardCount
  }

  lemma SameStep(t: Registry, u: Registry, step: Step, pod: nat, hash: u64)
    requires SameFor(t, u, pod, hash)
    ensures SameFor(Apply(t, step), Apply(u, step), pod, hash)
  {
    StepOwnership(t, step, pod, hash);
    StepOwnership(u, step, pod, hash);
    StepLiveness(t, u, step);
    hide Apply, Affects, Registry.Owners;
  }

  lemma StepLiveness(t: Registry, u: Registry, step: Step)
    requires t.alive == u.alive
    ensures Apply(t, step).alive == Apply(u, step).alive
  {
    hide ShardFor, HostBitmap.Pods;
  }

  lemma DroppedStep(t: Registry, step: Step, pod: nat, hash: u64)
    requires Harmless(step, pod)
    ensures SameFor(Apply(t, step), t, pod, hash)
  {
    hide ShardFor, HostBitmap.Pods;
    StepOwnership(t, step, pod, hash);
  }

  /** Dropping any steps that are harmless to a pod from an interleaving, a whole cleanup of another
      pod among them, changes nothing of its ownership and nobody's liveness. */
  lemma {:induction false} HarmlessStepsDropped(s: Registry, steps: seq<Step>, drop: Step -> bool, pod: nat, hash: u64)
    requires forall step :: drop(step) ==> Harmless(step, pod)
    ensures SameFor(Run(s, steps), Run(s, Kept(steps, drop)), pod, hash)
    decreases |steps|
  {
    hide Apply, Harmless, Registry.Owners;
    if steps != [] {
      var n := |steps| - 1;
      var init, last := steps[..n], steps[n];
      HarmlessStepsDropped(s, init, drop, pod, hash);
      var t, u := Run(s, init), Run(s, Kept(init, drop));
      if drop(last) {
        DroppedStep(t, last, pod, hash);
        assert Kept(steps, drop) == Kept(init, drop);
      } else {
        SameStep(t, u, last, pod, hash);
        RunPush(s, Kept(init, drop), last);
      }
    }
  }

  /** So the pod is found at the same depth of every chain. */
  lemma HarmlessStepsSameDepth(s: Registry, steps: seq<Step>, drop: Step -> bool, pod: nat, chain: seq<u64>)
    requires forall step :: drop(step) ==> Harmless(step, pod)
    ensures Depth(Run(s, steps).ViewOf(chain), pod) == Depth(Run(s, Kept(steps, drop)).ViewOf(chain), pod)
  {
    hide Run, Kept, Depth, Harmless;
    var t, u := Run(s, steps), Run(s, Kept(steps, drop));
    forall i | 0 <= i < |chain| ensures pod in t.ViewOf(chain)[i] <==> pod in u.ViewOf(chain)[i] {
      HarmlessStepsDropped(s, steps, drop, pod, chain[i]);
    }
    DepthIndependent(t.ViewOf(chain), u.ViewOf(chain), pod);
  }

  /** Another thread registers the pod for the hash once the sweep has passed its shard. */
  ghost predicate Readded(others: nat -> seq<Step>, pod: nat, hash: u64, shard: nat, n: nat) {
    exists k: nat, i: nat :: shard < k < n && i < |others(k)| && others(k)[i] == AddOwner(pod, hash)
  }

  /** A sweep takes the pod off a hash unless it is registered there again behind the sweep. */
  lemma {:induction false} SweptOrReadded(s: Registry, others: nat -> seq<Step>, own: nat -> Step, pod: nat, hash: u64, n: nat)
    requires ShardFor(hash, s.shardCount) < n && forall k :: !own(k).AddOwner?
    requires Affects(own(ShardFor(hash, s.shardCount)), pod, hash, s.shardCount)
    ensures pod in Run(s, Woven(others, own, n)).Owners(hash) ==>
      Readded(others, pod, hash, ShardFor(hash, s.shardCount), n)
  {
    hide ShardFor, Run, Woven, Affects, Apply, Registry.Owners;
    var shard, last := ShardFor(hash, s.shardCount), n - 1;
    var before := Run(s, Woven(others, own, last));
    SameCount(s, Woven(others, own, last));
    WovenNext(s, others, own, last);
    SameCount(before, others(last));
    StepOwnership(Run(before, others(last)), own(last), pod, hash);
    if shard < last {
      LastStepDecides(before, others(last), pod, hash);
      SweptOrReadded(s, others, own, pod, hash, last);
      if i: nat :| RegisteredAt(others(last), i, pod, hash, s.shardCount) {
        assert others(last)[i] == AddOwner(pod, hash);
      }
    }
  }

  // Counting entries shard by shard

  ghost function KeysIn(s: Registry, shard: nat): set<u64> {
    set h | h in s.flat && ShardFor(h, s.shardCount) == shard
  }

  ghost function KeysBelow(s: Registry, k: nat): set<u64> {
    set h | h in s.flat && ShardFor(h, s.shardCount) < k
  }

  /** The sizes of the first k shards, each as its own lock region finds it. */
  ghost function SizesSeen(s: Registry, others: nat -> seq<Step>, k: nat): nat {
    if k == 0 then 0 else SizesSeen(s, others, k - 1) + |KeysIn(Run(s, Interleaved(others, k)), k - 1)|
  }

  lemma KeysBelowNext(s: Registry, k: nat)
    ensures |KeysBelow(s, k + 1)| == |KeysBelow(s, k)| + |KeysIn(s, k)|
  {
    hide ShardFor;
    assert KeysBelow(s, k + 1) == KeysBelow(s, k) + KeysIn(s, k);
    assert KeysBelow(s, k) !! KeysIn(s, k);
  }

  lemma KeysBelowAll(s: Registry)
    requires s.shardCount > 0
    ensures |KeysBelow(s, s.shardCount)| == |s.flat|
  {
    assert KeysBelow(s, s.shardCount) == s.flat.Keys;
  }

  /** The entries of each registry found are among those of the next. */
  ghost predicate KeysGrow(s: Registry, others: nat -> seq<Step>, n: nat) {
    forall k: nat :: k < n ==> GrowsAt(s, others, k)
  }

  ghost predicate GrowsAt(s: Registry, others: nat -> seq<Step>, k: nat) {
    Run(s, Interleaved(others, k)).flat.Keys <= Run(s, Interleaved(others, k + 1)).flat.Keys
  }

  ghost predicate KeysShrink(s: Registry, others: nat -> seq<Step>, n: nat) {
    forall k: nat :: k < n ==> ShrinksAt(s, others, k)
  }

  ghost predicate ShrinksAt(s: Registry, others: nat -> seq<Step>, k: nat) {
    Run(s, Interleaved(others, k + 1)).flat.Keys <= Run(s, Interleaved(others, k)).flat.Keys
  }

  /** A count under interference: entries only created meanwhile are counted or not. */
  lemma {:induction false} SizesWhileGrowing(s: Registry, others: nat -> seq<Step>, k: nat)
    requires KeysGrow(s, others, k)
    ensures var t := Run(s, Interleaved(others, k));
      && t.shardCount == s.shardCount && s.flat.Keys <= t.flat.Keys
      && |KeysBelow(s, k)| <= SizesSeen(s, others, k) <= |KeysBelow(t, k)|
  {
    hide ShardFor, KeysIn, KeysBelow, Run, Interleaved;
    SameCount(s, Interleaved(others, k));
    if k == 0 {
      InterleavedStart(s, others);
      NoKeysBelow(s);
    } else {
      var before, t := Run(s, Interleaved(others, k - 1)), Run(s, Interleaved(others, k));
      SizesWhileGrowing(s, others, k - 1);
      assert GrowsAt(s, others, k - 1);
      KeysBelowNext(s, k - 1);
      KeysBelowNext(t, k - 1);
      MoreKeys(before, t, k - 1);
      MoreKeys(s, t, k - 1);
    }
  }

  /** So are entries only deleted. */
  lemma {:induction false} SizesWhileShrinking(s: Registry, others: nat -> seq<Step>, k: nat)
    requires KeysShrink(s, others, k)
    ensures var t := Run(s, Interleaved(others, k));
      && t.shardCount == s.shardCount && t.flat.Keys <= s.flat.Keys
      && |KeysBelow(t, k)| <= SizesSeen(s, others, k) <= |KeysBelow(s, k)|
  {
    hide ShardFor, KeysIn, KeysBelow, Run, Interleaved;
    SameCount(s, Interleaved(others, k));
    if k == 0 {
      InterleavedStart(s, others);
      NoKeysBelow(s);
    } else {
      var before, t := Run(s, Interleaved(others, k - 1)), Run(s, Interleaved(others, k));
      SizesWhileShrinking(s, others, k - 1);
      assert ShrinksAt(s, others, k - 1);
      KeysBelowNext(s, k - 1);
      KeysBelowNext(t, k - 1);
      MoreKeys(t, before, k - 1);
      MoreKeys(t, s, k - 1);
    }
  }

  lemma InterleavedStart(s: Registry, others: nat -> seq<Step>)
    ensures Run(s, Interleaved(others, 0)) == s
  {
  }

  lemma SameCount(s: Registry, steps: seq<Step>)
    ensures Run(s, steps).shardCount == s.shardCount
  {
    LastStepDecides(s, steps, 0, 0);
  }

  lemma NoKeysBelow(s: Registry)
    ensures KeysBelow(s, 0) == {}
  {
  }

  lemma MoreKeys(s: Registry, t: Registry, k: nat)
    requires s.shardCount == t.shardCount && s.flat.Keys <= t.flat.Keys
    ensures |KeysBelow(s, k)| <= |KeysBelow(t, k)| && |KeysIn(s, k)| <= |KeysIn(t, k)|
  {
    hide ShardFor;
    SubsetSize(KeysBelow(s, k), KeysBelow(t, k));
    SubsetSize(KeysIn(s, k), KeysIn(t, k));
  }

  /** Registrations never delete an entry, and nothing else creates one. */
  lemma {:induction false} KeysOneWay(s: Registry, steps: seq<Step>)
    ensures OnlyCreates(steps) ==> s.flat.Keys <= Run(s, steps).flat.Keys
    ensures OnlyDeletes(steps) ==> Run(s, steps).flat.Keys <= s.flat.Keys
    decreases |steps|
  {
    hide Apply;
    if steps != [] {
      var n := |steps| - 1;
      KeysOneWay(s, steps[..n]);
      StepKeys(Run(s, steps[..n]), steps[n]);
    }
  }

  lemma StepKeys(s: Registry, step: Step)
    ensures !step.RemoveOwner? && !step.CleanShard? && !step.RetainAlive? ==> s.flat.Keys <= Apply(s, step).flat.Keys
    ensures !step.AddOwner? ==> Apply(s, step).flat.Keys <= s.flat.Keys
  {
    hide ShardFor, HostBitmap.Pods;
  }

  ghost predicate OnlyCreates(steps: seq<Step>) {
    forall k :: 0 <= k < |steps| ==> !steps[k].RemoveOwner? && !steps[k].CleanShard? && !steps[k].RetainAlive?
  }

  ghost predicate OnlyDeletes(steps: seq<Step>) {
    forall k :: 0 <= k < |steps| ==> !steps[k].AddOwner?
  }

  lemma OneWayKeys(s: Registry, others: nat -> seq<Step>, n: nat)
    ensures (forall k :: OnlyCreates(others(k))) ==> KeysGrow(s, others, n)
    ensures (forall k :: OnlyDeletes(others(k))) ==> KeysShrink(s, others, n)
  {
    hide Run, OnlyCreates, OnlyDeletes;
    forall k: nat
      ensures OnlyCreates(others(k)) ==> GrowsAt(s, others, k)
      ensures OnlyDeletes(others(k)) ==> ShrinksAt(s, others, k)
    {
      InterleavedNext(s, others, k);
      KeysOneWay(Run(s, Interleaved(others, k)), others(k));
    }
  }

  /** The whole count: between the numbers of entries at its start and at its end while entries only
      come or only go, so exact while neither happens. */
  lemma CountBracket(s: Registry, others: nat -> seq<Step>)
    requires s.shardCount > 0
    ensures var (n, t) := (s.shardCount, Run(s, Interleaved(others, s.shardCount)));
      && (KeysGrow(s, others, n) ==> |s.flat| <= SizesSeen(s, others, n) <= |t.flat|)
      && (KeysShrink(s, others, n) ==> |t.flat| <= SizesSeen(s, others, n) <= |s.flat|)
      && (KeysGrow(s, others, n) && KeysShrink(s, others, n) ==> SizesSeen(s, others, n) == |s.flat| == |t.flat|)
  {
    hide Run, KeysGrow, KeysShrink, KeysBelow, Interleaved, SizesSeen;
    if KeysGrow(s, others, s.shardCount) {
      SizesWhileGrowing(s, others, s.shardCount);
    }
    if KeysShrink(s, others, s.shardCount) {
      SizesWhileShrinking(s, others, s.shardCount);
    }
    SameCount(s, Interleaved(others, s.shardCount));
    KeysBelowAll(s);
    KeysBelowAll(Run(s, Interleaved(others, s.shardCount)));
  }
}
