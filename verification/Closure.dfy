/** Prefix closure of the index.  Over runs of whole operations it survives whenever pods only ever
    register prefixes of prompt chains, and then the binary search answers what the linear scan
    would.  Step by step it survives exactly while every lock region leaves no gap behind. */
module Closure {
  import opened Integers
  import opened Bitmap
  import opened Fibonacci
  import opened PrefixSearch
  import opened FlatRegistry
  import opened Sets
  import Hashing

  /** Equal hashes occur only at equal positions of a shared prefix. */
  ghost predicate Consistent(chains: iset<seq<u64>>) {
    forall a, b, i, j ::
      a in chains && b in chains && 0 <= i < |a| && 0 <= j < |b| && a[i] == b[j] ==>
        i == j && a[..i + 1] == b[..j + 1]
  }

  ghost function PromptChains(prompts: iset<seq<Hashing.Token>>, blockSize: nat): iset<seq<u64>> {
    iset t | t in prompts :: Hashing.Chain(t, blockSize)
  }

  /** The byte strings hashed for any two of the prompts neither collide nor hash to 0. */
  ghost predicate GoodHashing(prompts: iset<seq<Hashing.Token>>, size: nat)
    requires size > 0
  {
    forall s, t :: s in prompts && t in prompts ==>
      && Hashing.WellFormed(s)
      && Hashing.CollisionFree(Hashing.HashedInputs(s, size) + Hashing.HashedInputs(t, size))
      && Hashing.NeverZero(Hashing.HashedInputs(s, size) + Hashing.HashedInputs(t, size))
  }

  /** Prompt chains are consistent as long as the hash function behaves on their inputs. */
  lemma PromptChainsConsistent(prompts: iset<seq<Hashing.Token>>, blockSize: nat)
    requires GoodHashing(prompts, Hashing.BlockSize(blockSize))
    ensures Consistent(PromptChains(prompts, blockSize))
  {
    hide Hashing.HashedInputs, Hashing.CollisionFree, Hashing.NeverZero, Hashing.WellFormed, Hashing.Chain;
    forall a, b, i, j | a in PromptChains(prompts, blockSize) && b in PromptChains(prompts, blockSize)
        && 0 <= i < |a| && 0 <= j < |b| && a[i] == b[j]
      ensures i == j && a[..i + 1] == b[..j + 1]
    {
      var s :| s in prompts && Hashing.Chain(s, blockSize) == a;
      var t :| t in prompts && Hashing.Chain(t, blockSize) == b;
      EqualHashEqualChain(s, t, blockSize, i, j);
    }
  }

  lemma EqualHashEqualChain(s: seq<Hashing.Token>, t: seq<Hashing.Token>, blockSize: nat, i: nat, j: nat)
    requires var size := Hashing.BlockSize(blockSize);
      && Hashing.WellFormed(s) && Hashing.WellFormed(t)
      && Hashing.CollisionFree(Hashing.HashedInputs(s, size) + Hashing.HashedInputs(t, size))
      && Hashing.NeverZero(Hashing.HashedInputs(s, size) + Hashing.HashedInputs(t, size))
    requires var (a, b) := (Hashing.Chain(s, blockSize), Hashing.Chain(t, blockSize));
      i < |a| && j < |b| && a[i] == b[j]
    ensures i == j && Hashing.Chain(s, blockSize)[..i + 1] == Hashing.Chain(t, blockSize)[..i + 1]
  {
    hide Hashing.HashedInputs, Hashing.CollisionFree, Hashing.NeverZero, Hashing.WellFormed, Hashing.PrefixHash,
      Hashing.HashBlock;
    Hashing.HashTellsPosition(s, t, Hashing.BlockSize(blockSize), i + 1, j + 1);
  }

  /** A pod that owns a hash of the chain owns the hashes before it. */
  ghost predicate PodClosedOn(s: Registry, pod: nat, chain: seq<u64>) {
    forall i, j :: 0 <= i < j < |chain| && pod in s.Owners(chain[j]) ==> pod in s.Owners(chain[i])
  }

  ghost predicate ClosedOn(s: Registry, chain: seq<u64>) {
    forall pod: nat :: PodClosedOn(s, pod, chain)
  }

  ghost predicate Closed(s: Registry, chains: iset<seq<u64>>) {
    forall chain :: chain in chains ==> ClosedOn(s, chain)
  }

  datatype Operation =
    | RegisterPrefix(pod: nat, chain: seq<u64>, k: nat)
    | MarkAlive(pod: nat)
    | Shutdown(pod: nat)
    | CleanupPod(pod: nat)
    | CleanupNotAlive(snapshot: HostBitmap)

  ghost predicate Allowed(op: Operation, chains: iset<seq<u64>>) {
    op.RegisterPrefix? ==> op.chain in chains && op.k <= |op.chain|
  }

  function StepsOf(op: Operation, shardCount: nat): seq<Step>
    requires op.RegisterPrefix? ==> op.k <= |op.chain|
  {
    match op
    case RegisterPrefix(pod, chain, k) => ChainSteps(pod, chain[..k])
    case MarkAlive(pod) => [ObservePod(pod), SetAlive(pod)]
    case Shutdown(pod) => [ClearAlive(pod)]
    case CleanupPod(pod) => CleanSteps(shardCount, pod)
    case CleanupNotAlive(snapshot) => RetainSteps(shardCount, snapshot)
  }

  /** What an operation does to the owners of one hash. */
  ghost function OwnersAfter(op: Operation, owners: set<nat>, hash: u64): set<nat>
    requires op.RegisterPrefix? ==> op.k <= |op.chain|
  {
    match op
    case RegisterPrefix(pod, chain, k) => if hash in chain[..k] && pod < 256 then owners + {pod} else owners
    case CleanupPod(pod) => owners - {pod}
    case CleanupNotAlive(snapshot) => owners * snapshot.Pods()
    case _ => owners
  }

  ghost function AliveAfter(op: Operation, alive: set<nat>): set<nat> {
    match op
    case MarkAlive(pod) => if pod < 256 then alive + {pod} else alive
    case Shutdown(pod) => alive - {pod}
    case _ => alive
  }

  ghost predicate AllAllowed(ops: seq<Operation>, chains: iset<seq<u64>>) {
    forall i :: 0 <= i < |ops| ==> Allowed(ops[i], chains)
  }

  ghost function RunOperations(s: Registry, ops: seq<Operation>, chains: iset<seq<u64>>): Registry
    requires AllAllowed(ops, chains)
  {
    if ops == [] then s
    else
      var before := RunOperations(s, ops[..|ops| - 1], chains);
      Run(before, StepsOf(ops[|ops| - 1], before.shardCount))
  }

  lemma OperationKeepsClosed(s: Registry, op: Operation, chains: iset<seq<u64>>)
    requires Consistent(chains) && Allowed(op, chains) && Closed(s, chains) && s.shardCount > 0
    ensures var t := Run(s, StepsOf(op, s.shardCount)); Closed(t, chains) && t.shardCount == s.shardCount
  {
    hide HostBitmap.Pods, Run, CleanSteps, RetainSteps, ChainSteps;
    var t := Run(s, StepsOf(op, s.shardCount));
    forall hash
      ensures t.shardCount == s.shardCount
      ensures t.Owners(hash) == OwnersAfter(op, s.Owners(hash), hash)
    {
      OperationOwners(s, op, hash);
    }
    OperationOwners(s, op, 0);
    forall chain, pod: nat | chain in chains ensures PodClosedOn(t, pod, chain) {
      assert ClosedOn(s, chain) && PodClosedOn(s, pod, chain);
      if op.RegisterPrefix? {
        forall i, j | 0 <= i < j < |chain| && pod in t.Owners(chain[j])
          ensures pod in t.Owners(chain[i])
        {
          if pod !in s.Owners(chain[j]) {
            SharedPrefixRegistered(chain, op.chain, op.k, i, j, chains);
          }
        }
      }
    }
  }

  lemma OperationOwners(s: Registry, op: Operation, hash: u64)
    requires s.shardCount > 0 && (op.RegisterPrefix? ==> op.k <= |op.chain|)
    ensures var t := Run(s, StepsOf(op, s.shardCount));
      && t.shardCount == s.shardCount
      && t.Owners(hash) == OwnersAfter(op, s.Owners(hash), hash)
      && t.alive == AliveAfter(op, s.alive)
  {
    hide HostBitmap.Pods;
    match op
    case RegisterPrefix(pod, chain, k) =>
      AfterChain(s, pod, chain[..k], hash);
    case MarkAlive(pod) =>
      assert [ObservePod(pod), SetAlive(pod)] == [ObservePod(pod)] + [SetAlive(pod)];
      RunPush(s, [ObservePod(pod)], SetAlive(pod));
      RunOne(s, ObservePod(pod));
    case Shutdown(pod) =>
      RunOne(s, ClearAlive(pod));
    case CleanupPod(pod) =>
      AfterClean(s, pod, hash);
    case CleanupNotAlive(snapshot) =>
      AfterRetain(s, snapshot, hash);
  }

  lemma SamePrefix(chains: iset<seq<u64>>, a: seq<u64>, b: seq<u64>, m: nat, j: nat, i: nat)
    requires Consistent(chains) && a in chains && b in chains
    requires m < |a| && j < |b| && a[m] == b[j] && i <= j
    ensures m == j && a[i] == b[i]
  {
    assert a[..m + 1] == b[..j + 1];
    assert a[i] == a[..m + 1][i] && b[i] == b[..j + 1][i];
  }

  lemma SharedPrefixRegistered(chain: seq<u64>, registered: seq<u64>, k: nat, i: nat, j: nat, chains: iset<seq<u64>>)
    requires Consistent(chains) && chain in chains && registered in chains
    requires i < j < |chain| && k <= |registered| && chain[j] in registered[..k]
    ensures chain[i] in registered[..k]
  {
    hide Consistent;
    var m :| 0 <= m < k && registered[..k][m] == chain[j];
    assert registered[m] == chain[j];
    SamePrefix(chains, registered, chain, m, j, i);
    assert registered[..k][i] == registered[i];
  }

  /** Closure survives every run of chain registrations, liveness changes and cleanups. */
  lemma {:induction false} RunsKeepClosed(s: Registry, ops: seq<Operation>, chains: iset<seq<u64>>)
    requires Consistent(chains) && AllAllowed(ops, chains) && Closed(s, chains) && s.shardCount > 0
    ensures var t := RunOperations(s, ops, chains); Closed(t, chains) && t.shardCount == s.shardCount
  {
    hide Closed, StepsOf, Run, Consistent;
    if ops != [] {
      var init := ops[..|ops| - 1];
      RunsKeepClosed(s, init, chains);
      OperationKeepsClosed(RunOperations(s, init, chains), ops[|ops| - 1], chains);
    }
  }

  /** From an empty index, search and scan agree on every prompt after every such run. */
  lemma SearchIsScanOnRuns(s: Registry, ops: seq<Operation>, prompts: iset<seq<Hashing.Token>>, blockSize: nat,
                           prompt: seq<Hashing.Token>, pod: nat)
    requires GoodHashing(prompts, Hashing.BlockSize(blockSize)) && prompt in prompts
    requires AllAllowed(ops, PromptChains(prompts, blockSize)) && s.shardCount > 0 && s.flat == map[]
    ensures var view := RunOperations(s, ops, PromptChains(prompts, blockSize)).ViewOf(Hashing.Chain(prompt, blockSize));
      Depth(view, pod) == NaiveDepth(view, pod, 0)
  {
    hide Run, StepsOf, RunOperations, Consistent, Hashing.Chain, GoodHashing;
    var chains, chain := PromptChains(prompts, blockSize), Hashing.Chain(prompt, blockSize);
    PromptChainsConsistent(prompts, blockSize);
    RunsKeepClosed(s, ops, chains);
    var t := RunOperations(s, ops, chains);
    assert ClosedOn(t, chain) && PodClosedOn(t, pod, chain);
    DepthOfClosed(t.ViewOf(chain), pod);
  }

  // One lock region at a time

  /** What the lock region finds: a registration of a hash finds the pod on every hash before it,
      and a removal leaves the pod on no hash after one that it removes. */
  ghost predicate KeepsOrder(s: Registry, step: Step, pod: nat, chain: seq<u64>) {
    forall i, j :: 0 <= i < j < |chain| ==>
      if step.AddOwner? then Affects(step, pod, chain[j], s.shardCount) ==> pod in s.Owners(chain[i])
      else Affects(step, pod, chain[i], s.shardCount) && pod in s.Owners(chain[j]) ==>
        Affects(step, pod, chain[j], s.shardCount)
  }

  lemma StepKeepsClosedExactly(s: Registry, step: Step, pod: nat, chain: seq<u64>)
    requires Distinct(chain) && PodClosedOn(s, pod, chain)
    ensures PodClosedOn(Apply(s, step), pod, chain) <==> KeepsOrder(s, step, pod, chain)
  {
    hide Apply, Affects;
    var t := Apply(s, step);
    forall i | 0 <= i < |chain|
      ensures pod in t.Owners(chain[i]) <==>
        if Affects(step, pod, chain[i], s.shardCount) then step.AddOwner? else pod in s.Owners(chain[i])
    {
      StepOwnership(s, step, pod, chain[i]);
    }
    forall i, j | 0 <= i < j < |chain| && step.AddOwner?
      ensures !(Affects(step, pod, chain[i], s.shardCount) && Affects(step, pod, chain[j], s.shardCount))
    {
      OneHashAdded(step, pod, chain[i], chain[j], s.shardCount);
    }
  }

  lemma OneHashAdded(step: Step, pod: nat, a: u64, b: u64, shardCount: nat)
    requires step.AddOwner? && a != b
    ensures !(Affects(step, pod, a, shardCount) && Affects(step, pod, b, shardCount))
  {
  }

  ghost predicate ClosedThroughout(s: Registry, steps: seq<Step>, pod: nat, chain: seq<u64>) {
    forall k :: 0 <= k <= |steps| ==> PodClosedOn(Run(s, steps[..k]), pod, chain)
  }

  ghost predicate AllKeepOrder(s: Registry, steps: seq<Step>, pod: nat, chain: seq<u64>) {
    forall k :: 0 <= k < |steps| ==> KeepsOrder(Run(s, steps[..k]), steps[k], pod, chain)
  }

  lemma NothingTaken(s: Registry, pod: nat, chain: seq<u64>)
    requires PodClosedOn(s, pod, chain)
    ensures ClosedThroughout(s, [], pod, chain) && AllKeepOrder(s, [], pod, chain)
  {
    hide PodClosedOn;
  }

  lemma PrefixesNext(steps: seq<Step>, n: nat)
    requires n + 1 == |steps|
    ensures steps[..n][..n] == steps[..n] && steps[..n + 1] == steps
    ensures forall k :: 0 <= k <= n ==> steps[..n][..k] == steps[..k]
    ensures forall k :: 0 <= k < n ==> steps[..n][k] == steps[k]
  {
  }

  lemma ClosedNext(s: Registry, steps: seq<Step>, n: nat, pod: nat, chain: seq<u64>)
    requires n + 1 == |steps|
    ensures ClosedThroughout(s, steps, pod, chain) <==>
      ClosedThroughout(s, steps[..n], pod, chain) && PodClosedOn(Run(s, steps), pod, chain)
    ensures ClosedThroughout(s, steps[..n], pod, chain) ==> PodClosedOn(Run(s, steps[..n]), pod, chain)
  {
    hide Run, PodClosedOn;
    PrefixesNext(steps, n);
    var init := steps[..n];
    if ClosedThroughout(s, steps, pod, chain) {
      forall k | 0 <= k <= n ensures PodClosedOn(Run(s, init[..k]), pod, chain) {
        assert PodClosedOn(Run(s, steps[..k]), pod, chain);
      }
      assert PodClosedOn(Run(s, steps[..n + 1]), pod, chain);
    }
    if ClosedThroughout(s, init, pod, chain) {
      assert PodClosedOn(Run(s, init[..n]), pod, chain);
      if PodClosedOn(Run(s, steps), pod, chain) {
        forall k | 0 <= k <= n + 1 ensures PodClosedOn(Run(s, steps[..k]), pod, chain) {
          if k <= n {
            assert PodClosedOn(Run(s, init[..k]), pod, chain);
          }
        }
      }
    }
  }

  lemma OrderNext(s: Registry, steps: seq<Step>, n: nat, pod: nat, chain: seq<u64>)
    requires n + 1 == |steps|
    ensures AllKeepOrder(s, steps, pod, chain) <==>
      AllKeepOrder(s, steps[..n], pod, chain) && KeepsOrder(Run(s, steps[..n]), steps[n], pod, chain)
  {
    hide Run, KeepsOrder;
    PrefixesNext(steps, n);
    var init := steps[..n];
    if AllKeepOrder(s, steps, pod, chain) {
      forall k | 0 <= k < n ensures KeepsOrder(Run(s, init[..k]), init[k], pod, chain) {
        assert KeepsOrder(Run(s, steps[..k]), steps[k], pod, chain);
      }
    }
    if AllKeepOrder(s, init, pod, chain) && KeepsOrder(Run(s, init), steps[n], pod, chain) {
      forall k | 0 <= k < n + 1 ensures KeepsOrder(Run(s, steps[..k]), steps[k], pod, chain) {
        if k < n {
          assert KeepsOrder(Run(s, init[..k]), init[k], pod, chain);
        }
      }
    }
  }

  /** On any interleaving of lock regions a pod's ownership stays closed at every point if and only
      if every region keeps the order. */
  lemma {:induction false} ClosedThroughoutExactly(s: Registry, steps: seq<Step>, pod: nat, chain: seq<u64>)
    requires Distinct(chain) && PodClosedOn(s, pod, chain)
    ensures ClosedThroughout(s, steps, pod, chain) <==> AllKeepOrder(s, steps, pod, chain)
    decreases |steps|
  {
    hide Apply, Affects, PodClosedOn, KeepsOrder, Distinct, ClosedThroughout, AllKeepOrder;
    if steps == [] {
      NothingTaken(s, pod, chain);
    } else {
      var n := |steps| - 1;
      var init := steps[..n];
      ClosedNext(s, steps, n, pod, chain);
      OrderNext(s, steps, n, pod, chain);
      ClosedThroughoutExactly(s, init, pod, chain);
      if ClosedThroughout(s, init, pod, chain) {
        StepKeepsClosedExactly(Run(s, init), steps[n], pod, chain);
      }
    }
  }

  // Registrations at the same time

  /** A call of `register_chain`. */
  datatype Call = Call(pod: nat, chain: seq<u64>)

  /** The steps that one thread took, in order; `who` names the thread of each step. */
  ghost function Taken(steps: seq<Step>, who: seq<nat>, t: nat): seq<Step>
    requires |who| == |steps|
  {
    if steps == [] then []
    else
      var n := |steps| - 1;
      Taken(steps[..n], who[..n], t) + if who[n] == t then [steps[n]] else []
  }

  /** Thread t is somewhere inside `calls[t]`; further threads do anything that leaves the pod's
      ownership alone. */
  ghost predicate Interleaving(steps: seq<Step>, who: seq<nat>, calls: seq<Call>, pod: nat, shardCount: nat) {
    && |who| == |steps|
    && (forall t :: 0 <= t < |calls| ==> Taken(steps, who, t) <= ChainSteps(calls[t].pod, calls[t].chain))
    && (forall k :: 0 <= k < |steps| && who[k] >= |calls| ==> Spares(steps[k], pod, shardCount))
  }

  ghost predicate Spares(step: Step, pod: nat, shardCount: nat) {
    forall hash: u64 :: !Affects(step, pod, hash, shardCount)
  }

  ghost predicate PrefixOfSome(chain: seq<u64>, chains: iset<seq<u64>>) {
    exists whole :: whole in chains && chain <= whole
  }

  lemma {:induction false} ChainStepsAt(pod: nat, chain: seq<u64>, k: nat)
    requires k < |ChainSteps(pod, chain)|
    ensures |ChainSteps(pod, chain)| == 2 * |chain|
    ensures ChainSteps(pod, chain)[k] ==
      if k % 2 == 0 then ObservePod(pod) else AddOwner(pod, chain[k / 2])
    decreases |chain|
  {
    if chain != [] {
      var init := chain[..|chain| - 1];
      if k < |ChainSteps(pod, init)| {
        ChainStepsAt(pod, init, k);
      } else if |init| > 0 {
        ChainStepsAt(pod, init, 0);
      }
    }
  }

  /** What a thread did before its k-th step is a prefix of all it does. */
  lemma {:induction false} TakenGrows(steps: seq<Step>, who: seq<nat>, t: nat, k: nat)
    requires |who| == |steps| && k < |steps| && who[k] == t
    ensures Taken(steps[..k], who[..k], t) + [steps[k]] <= Taken(steps, who, t)
    decreases |steps|
  {
    var n := |steps| - 1;
    if k < n {
      TakenGrows(steps[..n], who[..n], t, k);
      assert steps[..n][..k] == steps[..k] && who[..n][..k] == who[..k];
    }
  }

  lemma {:induction false} TakenIsIn(steps: seq<Step>, who: seq<nat>, t: nat, step: Step)
    requires |who| == |steps| && step in Taken(steps, who, t)
    ensures step in steps
    decreases |steps|
  {
    var n := |steps| - 1;
    if step in Taken(steps[..n], who[..n], t) {
      TakenIsIn(steps[..n], who[..n], t, step);
    }
  }

  /** With nothing removed, what was registered is still owned. */
  lemma {:induction false} OwnedOnceAdded(s: Registry, steps: seq<Step>, pod: nat, hash: u64)
    requires AddOwner(pod, hash) in steps && pod < MAX_PODS
    requires forall k :: 0 <= k < |steps| && Affects(steps[k], pod, hash, s.shardCount) ==> steps[k].AddOwner?
    ensures pod in Run(s, steps).Owners(hash)
    decreases |steps|
  {
    hide Apply, Affects;
    var n := |steps| - 1;
    LastStepDecides(s, steps[..n], pod, hash);
    StepOwnership(Run(s, steps[..n]), steps[n], pod, hash);
    AddAffects(pod, hash, s.shardCount);
    if steps[n] != AddOwner(pod, hash) {
      OwnedOnceAdded(s, steps[..n], pod, hash);
    }
  }

  /** The thread that registers a hash of some chain has registered the hashes before it. */
  lemma EarlierTaken(steps: seq<Step>, who: seq<nat>, calls: seq<Call>, chains: iset<seq<u64>>, pod: nat, shardCount: nat,
                     k: nat, chain: seq<u64>, i: nat, j: nat)
    requires Consistent(chains) && chain in chains && Interleaving(steps, who, calls, pod, shardCount)
    requires forall t :: 0 <= t < |calls| ==> PrefixOfSome(calls[t].chain, chains)
    requires i < j < |chain| && k < |steps| && who[k] < |calls| && steps[k] == AddOwner(pod, chain[j])
    ensures AddOwner(pod, chain[i]) in steps[..k]
  {
    hide Affects, ChainSteps, Spares, Consistent;
    var t := who[k];
    var own, before := ChainSteps(calls[t].pod, calls[t].chain), Taken(steps[..k], who[..k], t);
    TakenGrows(steps, who, t, k);
    assert before + [steps[k]] <= own;
    assert own[|before|] == steps[k];
    ChainStepsAt(calls[t].pod, calls[t].chain, |before|);
    var m := |before| / 2;
    var whole :| whole in chains && calls[t].chain <= whole;
    assert whole[m] == calls[t].chain[m] == chain[j];
    SamePrefix(chains, whole, chain, m, j, i);
    ChainStepsAt(calls[t].pod, calls[t].chain, 2 * i + 1);
    assert before[2 * i + 1] == own[2 * i + 1] == AddOwner(pod, chain[i]);
    TakenIsIn(steps[..k], who[..k], t, AddOwner(pod, chain[i]));
  }

  lemma ConsistentDistinct(chains: iset<seq<u64>>, chain: seq<u64>)
    requires Consistent(chains) && chain in chains
    ensures Distinct(chain)
  {
  }

  /** A thread inside `register_chain` removes nothing. */
  lemma CallsOnlyAdd(steps: seq<Step>, who: seq<nat>, calls: seq<Call>, pod: nat, shardCount: nat, k: nat, hash: u64)
    requires Interleaving(steps, who, calls, pod, shardCount) && k < |steps|
    requires Affects(steps[k], pod, hash, shardCount)
    ensures who[k] < |calls| && steps[k] == AddOwner(pod, hash) && pod < MAX_PODS
  {
    hide ChainSteps, Consistent;
    var t := who[k];
    assert t < |calls|;
    var own, before := ChainSteps(calls[t].pod, calls[t].chain), Taken(steps[..k], who[..k], t);
    TakenGrows(steps, who, t, k);
    assert before + [steps[k]] <= own;
    assert own[|before|] == steps[k];
    ChainStepsAt(calls[t].pod, calls[t].chain, |before|);
  }

  /** Any number of registrations at once, of any pods and any chains, interleaved hash by hash
      with each other and with steps that leave the pod's ownership alone: the pod's ownership is
      closed at every point. */
  lemma RegistrationsKeepClosed(s: Registry, steps: seq<Step>, who: seq<nat>, calls: seq<Call>, chains: iset<seq<u64>>,
                                pod: nat, chain: seq<u64>)
    requires Consistent(chains) && chain in chains && PodClosedOn(s, pod, chain)
    requires Interleaving(steps, who, calls, pod, s.shardCount)
    requires forall t :: 0 <= t < |calls| ==> PrefixOfSome(calls[t].chain, chains)
    ensures ClosedThroughout(s, steps, pod, chain)
  {
    hide Affects, Apply, ChainSteps, Interleaving, PrefixOfSome, PodClosedOn, Consistent, Run;
    ConsistentDistinct(chains, chain);
    forall k, i, j | 0 <= k < |steps| && 0 <= i < j < |chain|
      ensures Run(s, steps[..k]).shardCount == s.shardCount
      ensures Affects(steps[k], pod, chain[j], s.shardCount) ==> pod in Run(s, steps[..k]).Owners(chain[i])
      ensures Affects(steps[k], pod, chain[i], s.shardCount) ==> steps[k].AddOwner?
    {
      LastStepDecides(s, steps[..k], pod, chain[i]);
      if Affects(steps[k], pod, chain[i], s.shardCount) {
        CallsOnlyAdd(steps, who, calls, pod, s.shardCount, k, chain[i]);
      }
      if Affects(steps[k], pod, chain[j], s.shardCount) {
        CallsOnlyAdd(steps, who, calls, pod, s.shardCount, k, chain[j]);
        EarlierTaken(steps, who, calls, chains, pod, s.shardCount, k, chain, i, j);
        forall l | 0 <= l < k && Affects(steps[..k][l], pod, chain[i], s.shardCount)
          ensures steps[..k][l].AddOwner?
        {
          CallsOnlyAdd(steps, who, calls, pod, s.shardCount, l, chain[i]);
        }
        OwnedOnceAdded(s, steps[..k], pod, chain[i]);
      }
    }
    ClosedThroughoutExactly(s, steps, pod, chain);
  }

  /** While requests register their prompts concurrently, the search of any prompt equals the
      linear scan at every moment. */
  lemma SearchIsScanAmidRegistrations(s: Registry, steps: seq<Step>, who: seq<nat>, calls: seq<Call>,
                                      prompts: iset<seq<Hashing.Token>>, blockSize: nat, prompt: seq<Hashing.Token>,
                                      pod: nat, k: nat)
    requires GoodHashing(prompts, Hashing.BlockSize(blockSize)) && prompt in prompts
    requires PodClosedOn(s, pod, Hashing.Chain(prompt, blockSize)) && k <= |steps|
    requires Interleaving(steps, who, calls, pod, s.shardCount)
    requires forall t :: 0 <= t < |calls| ==> PrefixOfSome(calls[t].chain, PromptChains(prompts, blockSize))
    ensures var view := Run(s, steps[..k]).ViewOf(Hashing.Chain(prompt, blockSize));
      Depth(view, pod) == NaiveDepth(view, pod, 0)
  {
    hide Run, Consistent, Hashing.Chain, GoodHashing, Interleaving, PrefixOfSome;
    var chains, chain := PromptChains(prompts, blockSize), Hashing.Chain(prompt, blockSize);
    PromptChainsConsistent(prompts, blockSize);
    RegistrationsKeepClosed(s, steps, who, calls, chains, pod, chain);
    DepthOfClosed(Run(s, steps[..k]).ViewOf(chain), pod);
  }

  // A cleanup inside a registration

  lemma {:induction false} ChainStepsConcat(pod: nat, a: seq<u64>, b: seq<u64>)
    ensures ChainSteps(pod, a) + ChainSteps(pod, b) == ChainSteps(pod, a + b)
    decreases |b|
  {
    if b == [] {
      assert a + b == a;
    } else {
      var n := |b| - 1;
      ChainStepsConcat(pod, a, b[..n]);
      assert (a + b)[..|a + b| - 1] == a + b[..n];
    }
  }

  /** Atomicity matters: when the pod is cleaned up after the first m hashes of its registration,
      it ends with exactly the hashes from m on, so its ownership is closed only if the cleanup
      fell before the registration or after it (or the pod cannot be stored at all). */
  lemma CleanupInsideRegistration(s: Registry, pod: nat, chain: seq<u64>, m: nat)
    requires Distinct(chain) && m <= |chain| && s.shardCount > 0
    ensures ChainSteps(pod, chain[..m]) + ChainSteps(pod, chain[m..]) == ChainSteps(pod, chain)
    ensures var t := Run(s, ChainSteps(pod, chain[..m]) + CleanSteps(s.shardCount, pod) + ChainSteps(pod, chain[m..]));
      && (forall i :: 0 <= i < |chain| ==> (pod in t.Owners(chain[i]) <==> i >= m && pod < MAX_PODS))
      && (PodClosedOn(t, pod, chain) <==> m == 0 || m == |chain| || pod >= MAX_PODS)
  {
    hide Run, ChainSteps, CleanSteps;
    ChainStepsConcat(pod, chain[..m], chain[m..]);
    assert chain[..m] + chain[m..] == chain;
    var first, sweep, second := ChainSteps(pod, chain[..m]), CleanSteps(s.shardCount, pod), ChainSteps(pod, chain[m..]);
    RunConcat(s, first + sweep, second);
    RunConcat(s, first, sweep);
    var cleaned, t := Run(s, first + sweep), Run(s, first + sweep + second);
    forall i | 0 <= i < |chain| ensures pod in t.Owners(chain[i]) <==> i >= m && pod < MAX_PODS {
      AfterChain(s, pod, chain[..m], chain[i]);
      AfterClean(Run(s, first), pod, chain[i]);
      AfterChain(cleaned, pod, chain[m..], chain[i]);
      if i >= m {
        assert chain[m..][i - m] == chain[i];
      }
    }
    if 0 < m < |chain| && pod < MAX_PODS {
      assert pod !in t.Owners(chain[0]) && pod in t.Owners(chain[m]);
    }
  }

  /** A step of thread t sits at its place in what the thread does. */
  lemma PlaceTaken(steps: seq<Step>, who: seq<nat>, t: nat, own: seq<Step>, k: nat)
    requires |who| == |steps| && k < |steps| && who[k] == t && Taken(steps, who, t) <= own
    ensures var p := |Taken(steps[..k], who[..k], t)|; p < |own| && own[p] == steps[k]
    ensures forall l :: k < l < |steps| ==> |Taken(steps[..k], who[..k], t)| < |Taken(steps[..l], who[..l], t)|
  {
    var p := |Taken(steps[..k], who[..k], t)|;
    TakenGrows(steps, who, t, k);
    assert (Taken(steps[..k], who[..k], t) + [steps[k]])[p] == own[p];
    forall l | k < l < |steps| ensures p < |Taken(steps[..l], who[..l], t)| {
      TakenGrows(steps[..l], who[..l], t, k);
      assert steps[..l][..k] == steps[..k] && who[..l][..k] == who[..k];
    }
  }

  /** One thread registers a chain of the pod, one sweeps the pod, the others leave it alone. */
  ghost predicate RegisterMeetsSweep(steps: seq<Step>, who: seq<nat>, pod: nat, chain: seq<u64>, shardCount: nat) {
    && |who| == |steps|
    && Taken(steps, who, 0) == ChainSteps(pod, chain) && Taken(steps, who, 1) == CleanSteps(shardCount, pod)
    && forall k :: 0 <= k < |steps| && who[k] > 1 ==> Spares(steps[k], pod, shardCount)
  }

  /** The shard of the hash is swept after the hash is registered. */
  ghost predicate SweptAfter(steps: seq<Step>, pod: nat, hash: u64, shardCount: nat) {
    exists k, l :: 0 <= k < l < |steps| && steps[k] == AddOwner(pod, hash)
      && steps[l] == Step.CleanShard(ShardFor(hash, shardCount), pod)
  }

  /** Who may write the pair: the registration of the hash and the sweep of its shard. */
  lemma WhoWrites(steps: seq<Step>, who: seq<nat>, pod: nat, chain: seq<u64>, shardCount: nat, hash: u64, k: nat)
    requires RegisterMeetsSweep(steps, who, pod, chain, shardCount) && k < |steps|
    requires Affects(steps[k], pod, hash, shardCount)
    ensures if steps[k].AddOwner? then who[k] == 0 && steps[k] == AddOwner(pod, hash) && pod < MAX_PODS
      else steps[k] == Step.CleanShard(ShardFor(hash, shardCount), pod)
  {
    hide ShardFor, ChainSteps, CleanSteps;
    assert who[k] <= 1;
    if who[k] == 0 {
      PlaceTaken(steps, who, 0, ChainSteps(pod, chain), k);
      ChainStepsAt(pod, chain, |Taken(steps[..k], who[..k], 0)|);
    } else {
      PlaceTaken(steps, who, 1, CleanSteps(shardCount, pod), k);
      CleanStepsAt(shardCount, pod, |Taken(steps[..k], who[..k], 1)|);
    }
  }

  lemma CleanStepsAt(shardCount: nat, pod: nat, k: nat)
    ensures |CleanSteps(shardCount, pod)| == shardCount
    ensures k < shardCount ==> CleanSteps(shardCount, pod)[k] == Step.CleanShard(k, pod)
  {
  }

  /** A chain of distinct hashes registers each of them once. */
  lemma RegisteredOnce(steps: seq<Step>, who: seq<nat>, pod: nat, chain: seq<u64>, k: nat, l: nat)
    requires Distinct(chain) && |who| == |steps| && Taken(steps, who, 0) == ChainSteps(pod, chain)
    requires k < l < |steps| && who[k] == who[l] == 0 && steps[k].AddOwner?
    ensures steps[k] != steps[l]
  {
    hide ChainSteps;
    var own := ChainSteps(pod, chain);
    PlaceTaken(steps, who, 0, own, k);
    PlaceTaken(steps, who, 0, own, l);
    var p, q := |Taken(steps[..k], who[..k], 0)|, |Taken(steps[..l], who[..l], 0)|;
    ChainStepsAt(pod, chain, p);
    ChainStepsAt(pod, chain, q);
    if steps[l].AddOwner? {
      assert p / 2 < q / 2;
    }
  }

  /** However a registration and a cleanup of the pod are interleaved, lock by lock: it ends as owner
      of exactly the hashes whose shard was not swept after they were registered. */
  lemma RegistrationAmidCleanup(s: Registry, steps: seq<Step>, who: seq<nat>, pod: nat, chain: seq<u64>, i: nat)
    requires RegisterMeetsSweep(steps, who, pod, chain, s.shardCount) && Distinct(chain) && s.shardCount > 0
    requires pod < MAX_PODS && i < |chain|
    ensures pod in Run(s, steps).Owners(chain[i]) <==> !SweptAfter(steps, pod, chain[i], s.shardCount)
  {
    hide Run, Affects, ChainSteps, CleanSteps, RegisterMeetsSweep, Registry.Owners, ShardFor;
    var hash, count := chain[i], s.shardCount;
    LastStepDecides(s, steps, pod, hash);
    AddAffects(pod, hash, count);
    var add := RegisteredSomewhere(steps, who, pod, chain, i, count);
    if SweptAfter(steps, pod, hash, count) {
      var k, l :| 0 <= k < l < |steps| && steps[k] == AddOwner(pod, hash)
        && steps[l] == Step.CleanShard(ShardFor(hash, count), pod);
      SweepAffects(pod, hash, count);
      assert Affects(steps[l], pod, hash, count) && Affects(steps[k], pod, hash, count);
      forall m: nat ensures !RegisteredAt(steps, m, pod, hash, count) {
        if RegisteredAt(steps, m, pod, hash, count) && m > l {
          OneRegistration(steps, who, pod, chain, count, hash, k, m);
        }
      }
    } else {
      forall j | add < j < |steps| ensures !Affects(steps[j], pod, hash, count) {
        if Affects(steps[j], pod, hash, count) {
          WhoWrites(steps, who, pod, chain, count, hash, j);
          if steps[j].AddOwner? {
            OneRegistration(steps, who, pod, chain, count, hash, add, j);
          }
        }
      }
      assert RegisteredAt(steps, add, pod, hash, count);
    }
  }

  lemma SweepAffects(pod: nat, hash: u64, count: nat)
    ensures Affects(Step.CleanShard(ShardFor(hash, count), pod), pod, hash, count)
  {
  }

  lemma OneRegistration(steps: seq<Step>, who: seq<nat>, pod: nat, chain: seq<u64>, count: nat, hash: u64, k: nat, l: nat)
    requires RegisterMeetsSweep(steps, who, pod, chain, count) && Distinct(chain) && pod < MAX_PODS
    requires k < l < |steps| && steps[k] == AddOwner(pod, hash)
    ensures steps[l] != AddOwner(pod, hash)
  {
    hide ChainSteps, CleanSteps, ShardFor;
    AddAffects(pod, hash, count);
    if steps[l] == AddOwner(pod, hash) {
      WhoWrites(steps, who, pod, chain, count, hash, k);
      WhoWrites(steps, who, pod, chain, count, hash, l);
      RegisteredOnce(steps, who, pod, chain, k, l);
    }
  }

  lemma RegisteredSomewhere(steps: seq<Step>, who: seq<nat>, pod: nat, chain: seq<u64>, i: nat, count: nat) returns (k: nat)
    requires RegisterMeetsSweep(steps, who, pod, chain, count) && i < |chain|
    ensures k < |steps| && steps[k] == AddOwner(pod, chain[i])
  {
    hide ChainSteps, CleanSteps;
    ChainStepsLength(pod, chain);
    ChainStepsAt(pod, chain, 2 * i + 1);
    assert ChainSteps(pod, chain)[2 * i + 1] == AddOwner(pod, chain[i]);
    TakenIsIn(steps, who, 0, AddOwner(pod, chain[i]));
    k :| 0 <= k < |steps| && steps[k] == AddOwner(pod, chain[i]);
  }

  lemma {:induction false} ChainStepsLength(pod: nat, chain: seq<u64>)
    ensures |ChainSteps(pod, chain)| == 2 * |chain|
    decreases |chain|
  {
    if chain != [] {
      ChainStepsLength(pod, chain[..|chain| - 1]);
    }
  }
}
