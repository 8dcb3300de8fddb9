/** The sharded block index (src/calinix/cache_registry/sharded_index.rs): an array of hash maps,
    an alive bitmap and a pod count.  Every method says which steps of the flat registry it takes,
    so the theorems of module `FlatRegistry` are about this class. */
module ShardedIndex {
  import opened Integers
  import opened Bitmap
  import opened Fibonacci
  import opened FlatRegistry
  import opened Interleavings

  type Shard = map<u64, HostBitmap>

  /** Each key lies in its own shard only. */
  ghost predicate Placed(shards: seq<Shard>) {
    && |shards| > 0
    && forall i, h :: 0 <= i < |shards| && h in shards[i] ==> ShardFor(h, |shards|) == i
  }

  function Entry(shard: Shard, hash: u64): HostBitmap {
    if hash in shard then shard[hash] else HostBitmap.Empty()
  }

  ghost function KeysOf(shards: seq<Shard>): set<u64> {
    set i, h | 0 <= i < |shards| && h in shards[i] :: h
  }

  /** The flat relation that the shards represent. */
  ghost function FlatOf(shards: seq<Shard>): map<u64, set<nat>>
    requires |shards| > 0
  {
    map h | h in KeysOf(shards) :: Entry(shards[ShardFor(h, |shards|)], h).Pods()
  }

  lemma FlatAt(shards: seq<Shard>, hash: u64)
    requires Placed(shards)
    ensures var shard := shards[ShardFor(hash, |shards|)];
      && (hash in FlatOf(shards) <==> hash in shard)
      && (hash in shard ==> FlatOf(shards)[hash] == shard[hash].Pods())
      && Registry(FlatOf(shards), {}, 0, |shards|).Owners(hash) == Entry(shard, hash).Pods()
  {
    hide ShardFor, HostBitmap.Pods;
  }

  /** Rewriting one shard rewrites the flat relation on the hashes of that shard. */
  lemma FlatUpdate(shards: seq<Shard>, i: nat, shard: Shard, hash: u64)
    requires Placed(shards) && i < |shards|
    requires forall h :: h in shard ==> ShardFor(h, |shards|) == i
    ensures Placed(shards[i := shard])
    ensures var flat := FlatOf(shards[i := shard]);
      if ShardFor(hash, |shards|) == i then
        (hash in flat <==> hash in shard) && (hash in shard ==> flat[hash] == shard[hash].Pods())
      else
        (hash in flat <==> hash in FlatOf(shards)) && (hash in flat ==> flat[hash] == FlatOf(shards)[hash])
  {
    hide ShardFor, HostBitmap.Pods;
    FlatAt(shards, hash);
    FlatAt(shards[i := shard], hash);
  }

  /** `entry(hash).or_insert_with(empty)`, then `set`. */
  function Added(shard: Shard, pod: nat, hash: u64): Shard {
    shard[hash := Entry(shard, hash).Set(pod)]
  }

  /** `get_mut`, `clear`, and `remove` when nobody is left. */
  function Evicted(shard: Shard, pod: nat, hash: u64): Shard {
    if hash !in shard then shard
    else
      var owners := shard[hash].Clear(pod);
      if owners.IsEmpty() then shard - {hash} else shard[hash := owners]
  }

  /** What a register does to one shard is what the step does to the relation, hash by hash. */
  lemma AddRefinesAt(shards: seq<Shard>, pod: nat, hash: u64, s: Registry, h: u64)
    requires Placed(shards) && s.flat == FlatOf(shards) && s.shardCount == |shards|
    ensures var i := ShardFor(hash, |shards|);
      var next := shards[i := Added(shards[i], pod, hash)];
      var flat := Apply(s, AddOwner(pod, hash)).flat;
      Placed(next) && (h in FlatOf(next) <==> h in flat) && (h in flat ==> FlatOf(next)[h] == flat[h])
  {
    hide ShardFor, HostBitmap.Pods, HostBitmap.Set, FlatOf;
    var i := ShardFor(hash, |shards|);
    FlatAt(shards, hash);
    FlatAt(shards, h);
    FlatUpdate(shards, i, Added(shards[i], pod, hash), h);
  }

  lemma AddRefines(shards: seq<Shard>, pod: nat, hash: u64, s: Registry)
    requires Placed(shards) && s.flat == FlatOf(shards) && s.shardCount == |shards|
    ensures var i := ShardFor(hash, |shards|);
      Placed(shards[i := Added(shards[i], pod, hash)]) &&
      FlatOf(shards[i := Added(shards[i], pod, hash)]) == Apply(s, AddOwner(pod, hash)).flat
  {
    hide ShardFor, HostBitmap.Pods, FlatOf, Added, Apply, Placed;
    AddRefinesAt(shards, pod, hash, s, hash);
    forall h: u64 {
      AddRefinesAt(shards, pod, hash, s, h);
    }
  }

  lemma RemoveRefinesAt(shards: seq<Shard>, pod: nat, hash: u64, s: Registry, h: u64)
    requires Placed(shards) && s.flat == FlatOf(shards) && s.shardCount == |shards|
    ensures var i := ShardFor(hash, |shards|);
      var next := shards[i := Evicted(shards[i], pod, hash)];
      var flat := Apply(s, RemoveOwner(pod, hash)).flat;
      Placed(next) && (h in FlatOf(next) <==> h in flat) && (h in flat ==> FlatOf(next)[h] == flat[h])
  {
    hide ShardFor, HostBitmap.Pods, HostBitmap.Clear, HostBitmap.IsEmpty, FlatOf;
    var i := ShardFor(hash, |shards|);
    FlatAt(shards, hash);
    FlatAt(shards, h);
    FlatUpdate(shards, i, Evicted(shards[i], pod, hash), h);
  }

  lemma RemoveRefines(shards: seq<Shard>, pod: nat, hash: u64, s: Registry)
    requires Placed(shards) && s.flat == FlatOf(shards) && s.shardCount == |shards|
    ensures var i := ShardFor(hash, |shards|);
      Placed(shards[i := Evicted(shards[i], pod, hash)]) &&
      FlatOf(shards[i := Evicted(shards[i], pod, hash)]) == Apply(s, RemoveOwner(pod, hash)).flat
  {
    hide ShardFor, HostBitmap.Pods, FlatOf, Evicted, Apply, Placed;
    RemoveRefinesAt(shards, pod, hash, s, hash);
    forall h: u64 {
      RemoveRefinesAt(shards, pod, hash, s, h);
    }
  }

  /** `HashMap::retain` with a closure that shrinks the owners and keeps nonempty ones. */
  function Retained(shard: Shard, shrink: HostBitmap -> HostBitmap): Shard {
    map h | h in shard && !shrink(shard[h]).IsEmpty() :: shrink(shard[h])
  }

  lemma RetainRefines(shards: seq<Shard>, i: nat, shrink: HostBitmap -> HostBitmap,
                      keep: set<nat> -> set<nat>, s: Registry)
    requires Placed(shards) && s.flat == FlatOf(shards) && s.shardCount == |shards|
    requires i < |shards|
    requires forall b: HostBitmap :: shrink(b).Pods() == keep(b.Pods())
    ensures var next := shards[i := Retained(shards[i], shrink)];
      Placed(next) && FlatOf(next) == Retain(s, i, keep)
  {
    hide ShardFor, HostBitmap.Pods, HostBitmap.IsEmpty;
    var shard := Retained(shards[i], shrink);
    forall h: u64
      ensures Placed(shards[i := shard])
      ensures h in FlatOf(shards[i := shard]) <==> h in Retain(s, i, keep)
      ensures h in FlatOf(shards[i := shard]) ==> FlatOf(shards[i := shard])[h] == Retain(s, i, keep)[h]
    {
      FlatUpdate(shards, i, shard, h);
      FlatAt(shards, h);
    }
    FlatUpdate(shards, i, shard, 0);
  }

  /** Outcomes of a failed `compare_exchange_weak`: spurious, or another thread's `observe_pod`
      changed the count first. */
  datatype CasFailure = Spurious | Raced(pod: nat)

  /** What the rivals did, as atomic steps. */
  function RivalSteps(failures: seq<CasFailure>): seq<Step> {
    if failures == [] then []
    else
      var init := RivalSteps(failures[..|failures| - 1]);
      match failures[|failures| - 1]
      case Raced(pod) => init + [ObservePod(pod)]
      case Spurious => init
  }

  lemma RivalsStart(s: Registry, failures: seq<CasFailure>)
    ensures Run(s, RivalSteps(failures[..0])) == s
  {
    assert failures[..0] == [];
  }

  lemma RivalsNext(s: Registry, failures: seq<CasFailure>, k: nat)
    requires k <= |failures|
    ensures k < |failures| ==> (Run(s, RivalSteps(failures[..k + 1])) ==
      if failures[k].Raced? then Apply(Run(s, RivalSteps(failures[..k])), ObservePod(failures[k].pod))
      else Run(s, RivalSteps(failures[..k])))
  {
    hide Apply;
    if k < |failures| {
      assert failures[..k + 1][..k] == failures[..k] && failures[..k + 1][k] == failures[k];
      if failures[k].Raced? {
        RunPush(s, RivalSteps(failures[..k]), ObservePod(failures[k].pod));
      }
    }
  }

  /** The greatest of a count and of the ids plus one of the first k rivals. */
  function MaxRival(count: nat, failures: seq<CasFailure>, k: nat): (m: nat)
    requires k <= |failures|
    ensures m >= count
    ensures m == count || exists i :: 0 <= i < k && failures[i].Raced? && m == failures[i].pod + 1
  {
    if k == 0 then count
    else
      var m := MaxRival(count, failures, k - 1);
      if failures[k - 1].Raced? && failures[k - 1].pod + 1 > m then failures[k - 1].pod + 1 else m
  }

  lemma {:induction false} RivalsCount(s: Registry, failures: seq<CasFailure>, k: nat)
    requires k <= |failures|
    ensures Run(s, RivalSteps(failures[..k])) == s.(podCount := MaxRival(s.podCount, failures, k))
  {
    hide Run, RivalSteps;
    if k == 0 {
      RivalsStart(s, failures);
    } else {
      RivalsCount(s, failures, k - 1);
      RivalsNext(s, failures, k - 1);
    }
  }

  /** The rivals met so far, then this call: the count is the maximum of all of them. */
  lemma RivalsThenOwn(s: Registry, failures: seq<CasFailure>, k: nat, pod: nat)
    requires k <= |failures|
    ensures var before, after := Run(s, RivalSteps(failures[..k])), Run(s, RivalSteps(failures[..k]) + [ObservePod(pod)]);
      && after == Apply(before, ObservePod(pod))
      && after == s.(podCount := after.podCount) && after.podCount >= s.podCount && after.podCount > pod
      && (after.podCount == s.podCount || after.podCount == pod + 1
          || exists i :: 0 <= i < k && failures[i].Raced? && after.podCount == failures[i].pod + 1)
      && (failures == [] ==> after == Apply(s, ObservePod(pod)))
  {
    hide Run, RivalSteps;
    RunPush(s, RivalSteps(failures[..k]), ObservePod(pod));
    RivalsCount(s, failures, k);
  }

  datatype CacheEvent =
    | PrefixCached(pod: nat, hash: u64)
    | PrefixEvicted(pod: nat, hash: u64)
    | PodStarted(pod: nat)
    | PodShutdown(pod: nat)
    | CleanupPodEvent(pod: nat)

  function EventSteps(event: CacheEvent, shardCount: nat): seq<Step> {
    match event
    case PrefixCached(pod, hash) => [ObservePod(pod), AddOwner(pod, hash)]
    case PrefixEvicted(pod, hash) => [RemoveOwner(pod, hash)]
    case PodStarted(pod) => [ObservePod(pod), SetAlive(pod)]
    case PodShutdown(pod) => [ClearAlive(pod)]
    case CleanupPodEvent(pod) => CleanSteps(shardCount, pod)
  }

  /** What an event changes: who owns what, who is alive, and how many pods have been seen. */
  ghost predicate EventDone(event: CacheEvent, s: Registry, t: Registry) {
    match event
    case PrefixCached(pod, hash) =>
      && (forall h: u64 :: t.Owners(h) == s.Owners(h) + if h == hash && pod < 256 then {pod} else {})
      && t.alive == s.alive && t.podCount == (if pod < s.podCount then s.podCount else pod + 1)
    case PrefixEvicted(pod, hash) =>
      && (forall h: u64 :: t.Owners(h) == s.Owners(h) - if h == hash then {pod} else {})
      && t.alive == s.alive && t.podCount == s.podCount
    case PodStarted(pod) =>
      && (forall h: u64 :: t.Owners(h) == s.Owners(h))
      && t.alive == s.alive + (if pod < 256 then {pod} else {})
      && t.podCount == (if pod < s.podCount then s.podCount else pod + 1)
    case PodShutdown(pod) =>
      && (forall h: u64 :: t.Owners(h) == s.Owners(h))
      && t.alive == s.alive - {pod} && t.podCount == s.podCount
    case CleanupPodEvent(pod) =>
      && (forall h: u64 :: t.Owners(h) == s.Owners(h) - {pod})
      && t.alive == s.alive && t.podCount == s.podCount
  }

  lemma EventEffect(event: CacheEvent, s: Registry)
    requires s.shardCount > 0
    ensures EventDone(event, s, Run(s, EventSteps(event, s.shardCount)))
  {
    hide Run, CleanSteps;
    match event
    case PrefixCached(pod, hash) => RunTwo(s, Step.ObservePod(pod), Step.AddOwner(pod, hash));
    case PrefixEvicted(pod, hash) => RunOne(s, RemoveOwner(pod, hash));
    case PodStarted(pod) => RunTwo(s, Step.ObservePod(pod), SetAlive(pod));
    case PodShutdown(pod) => RunOne(s, ClearAlive(pod));
    case CleanupPodEvent(pod) =>
      forall h: u64 ensures Run(s, CleanSteps(s.shardCount, pod)).Owners(h) == s.Owners(h) - {pod} {
        AfterClean(s, pod, h);
      }
      AfterClean(s, pod, 0);
      CleanKeepsCount(s, pod);
  }

  lemma CleanKeepsCount(s: Registry, pod: nat)
    ensures Run(s, CleanSteps(s.shardCount, pod)).podCount == s.podCount
  {
    hide Run;
    PodCountIsMaximum(s, CleanSteps(s.shardCount, pod));
  }

  class ShardedBlockIndexer {
    const shards: array<Shard>
    var alive: HostBitmap
    var podCount: nat

    ghost predicate Valid()
      reads this, shards
    {
      Placed(shards[..])
    }

    ghost function State(): Registry
      requires Valid()
      reads this, shards
    {
      Registry(FlatOf(shards[..]), alive.Pods(), podCount, shards.Length)
    }

    /** `with_shards_and_alive` */
    constructor (podCount: nat, shardCount: nat, alive: HostBitmap)
      ensures Valid() && fresh(shards) && this.alive == alive
      ensures State() == Registry(map[], alive.Pods(), podCount, if shardCount == 0 then 1 else shardCount)
    {
      var count := if shardCount == 0 then 1 else shardCount;
      shards := new Shard[count](_ => map[]);
      this.alive := alive;
      this.podCount := podCount;
      new;
      assert KeysOf(shards[..]) == {};
    }

    /** `observe_pod`: the compare-and-swap loop.  `failures` are the attempts that fail before one
        would succeed, with what rivals did to the count meanwhile; the loop meets the first
        `taken` of them.  The outcome is that of the rivals' observations and then its own, each
        as one atomic step. */
    method ObservePod(pod: nat, failures: seq<CasFailure>) returns (ghost taken: nat)
      requires Valid()
      modifies `podCount
      ensures Valid() && taken <= |failures|
      ensures State() == Run(old(State()), RivalSteps(failures[..taken]) + [Step.ObservePod(pod)])
      ensures State() == old(State()).(podCount := podCount)
      ensures podCount >= old(podCount) && podCount > pod
      ensures podCount == old(podCount) || podCount == pod + 1
        || exists k :: 0 <= k < taken && failures[k].Raced? && podCount == failures[k].pod + 1
      ensures failures == [] ==> State() == Apply(old(State()), Step.ObservePod(pod))
    {
      hide FlatOf, HostBitmap.Pods, Run;
      ghost var s := State();
      var needed := pod + 1;
      var current := podCount;
      var k := 0;
      RivalsStart(s, failures);
      while needed > current
        invariant k <= |failures| && current == podCount
        invariant State() == Run(s, RivalSteps(failures[..k]))
        decreases |failures| - k, needed - current
      {
        RivalsNext(s, failures, k);
        if k < |failures| {
          if failures[k].Raced? && failures[k].pod + 1 > podCount {
            podCount := failures[k].pod + 1;
          }
          k := k + 1;
          current := podCount;
        } else {
          podCount := needed;
          RivalsThenOwn(s, failures, k, pod);
          return k;
        }
      }
      RivalsThenOwn(s, failures, k, pod);
      taken := k;
    }

    /** The locked part of `register`. */
    method AddOwner(pod: nat, hash: u64) returns (added: bool)
      requires Valid()
      modifies shards
      ensures Valid() && State() == Apply(old(State()), Step.AddOwner(pod, hash))
      ensures added <==> pod !in old(State()).Owners(hash)
    {
      hide ShardFor, HostBitmap.Pods, HostBitmap.Set, HostBitmap.Contains, FlatOf, Added;
      ghost var s, before := State(), shards[..];
      var shard := ShardFor(hash, shards.Length);
      FlatAt(before, hash);
      AddRefines(before, pod, hash, s);
      var owners := Entry(shards[shard], hash);
      ContainsIsMember(owners, pod);
      if owners.Contains(pod) {
        AddAgain(s, pod, hash);
        return false;
      }
      shards[shard] := Added(shards[shard], pod, hash);
      assert shards[..] == before[shard := Added(before[shard], pod, hash)];
      added := true;
    }

    /** `register`: true unless the pod already owned the hash. */
    method Register(pod: nat, hash: u64) returns (added: bool)
      requires Valid()
      modifies this, shards
      ensures Valid() && State() == Run(old(State()), [Step.ObservePod(pod), Step.AddOwner(pod, hash)])
      ensures alive == old(alive)
      ensures added <==> pod !in old(State()).Owners(hash)
    {
      hide Apply, FlatOf, HostBitmap.Pods;
      ghost var s := State();
      ghost var taken := ObservePod(pod, []);
      ObserveKeepsOwners(s, pod, hash);
      added := AddOwner(pod, hash);
      RunTwo(s, Step.ObservePod(pod), Step.AddOwner(pod, hash));
    }

    /** `register_chain`: the number of distinct hashes that are new for the pod. */
    method RegisterChain(pod: nat, hashes: seq<u64>) returns (registered: nat)
      requires Valid()
      modifies this, shards
      ensures Valid() && State() == Run(old(State()), ChainSteps(pod, hashes))
      ensures alive == old(alive)
      ensures pod < MAX_PODS ==> registered == |Missing(old(State()), pod, hashes)|
      ensures pod >= MAX_PODS ==> registered == |hashes|
    {
      hide Apply, FlatOf, HostBitmap.Pods, Run, ChainSteps, Missing;
      ghost var s := State();
      registered := 0;
      ChainStart(s, pod);
      for i := 0 to |hashes|
        invariant Valid() && State() == Run(s, ChainSteps(pod, hashes[..i]))
        invariant alive == old(alive)
        invariant pod < MAX_PODS ==> registered == |Missing(s, pod, hashes[..i])|
        invariant pod >= MAX_PODS ==> registered == i
      {
        if pod in s.Owners(hashes[i]) {
          OwnersStorable(old(shards[..]), hashes[i], pod);
        }
        ChainNext(s, pod, hashes[..i], hashes[i]);
        assert hashes[..i + 1] == hashes[..i] + [hashes[i]];
        var added := Register(pod, hashes[i]);
        if added {
          registered := registered + 1;
        }
      }
      assert hashes[..|hashes|] == hashes;
    }

    method Evict(pod: nat, hash: u64)
      requires Valid()
      modifies shards
      ensures Valid() && State() == Apply(old(State()), RemoveOwner(pod, hash))
    {
      hide ShardFor, HostBitmap.Pods, FlatOf, Evicted, Apply;
      ghost var s, before := State(), shards[..];
      var shard := ShardFor(hash, shards.Length);
      RemoveRefines(before, pod, hash, s);
      shards[shard] := Evicted(shards[shard], pod, hash);
      assert shards[..] == before[shard := Evicted(before[shard], pod, hash)];
      OnlyFlatChanges(s, RemoveOwner(pod, hash));
    }

    method EvictChain(pod: nat, hashes: seq<u64>)
      requires Valid()
      modifies shards
      ensures Valid() && State() == Run(old(State()), EvictSteps(pod, hashes))
    {
      hide FlatOf, HostBitmap.Pods, Apply;
      ghost var s, steps := State(), EvictSteps(pod, hashes);
      for i := 0 to |hashes|
        invariant Valid() && State() == Run(s, steps[..i])
      {
        assert steps[..i + 1] == steps[..i] + [steps[i]];
        RunPush(s, steps[..i], steps[i]);
        Evict(pod, hashes[i]);
      }
      assert steps[..|hashes|] == steps;
    }

    method MarkAlive(pod: nat)
      requires Valid()
      modifies this
      ensures Valid() && State() == Run(old(State()), [Step.ObservePod(pod), SetAlive(pod)])
      ensures alive == old(alive).Set(pod)
    {
      hide FlatOf, HostBitmap.Pods, HostBitmap.Set;
      ghost var s := State();
      ghost var taken := ObservePod(pod, []);
      alive := alive.Set(pod);
      RunTwo(s, Step.ObservePod(pod), SetAlive(pod));
    }

    method Shutdown(pod: nat)
      requires Valid()
      modifies `alive
      ensures Valid() && State() == Apply(old(State()), ClearAlive(pod))
      ensures alive == old(alive).Clear(pod)
    {
      hide FlatOf, HostBitmap.Pods, HostBitmap.Clear;
      alive := alive.Clear(pod);
    }

    /** `owners`, read under the shard lock. */
    function Owners(hash: u64): (owners: HostBitmap)
      requires Valid()
      reads this, shards
      ensures owners.Pods() == State().Owners(hash)
    {
      FlatAt(shards[..], hash);
      Entry(shards[ShardFor(hash, shards.Length)], hash)
    }

    function OwnersAlive(hash: u64): (owners: HostBitmap)
      requires Valid()
      reads this, shards
      ensures owners.Pods() == State().AliveOwners(hash)
    {
      Owners(hash).And(alive)
    }

    method CleanShard(shard: nat, pod: nat)
      requires Valid() && shard < shards.Length
      modifies shards
      ensures Valid() && State() == Apply(old(State()), Step.CleanShard(shard, pod))
    {
      hide ShardFor, HostBitmap.Pods, HostBitmap.Clear, FlatOf, Retained;
      ghost var s, before := State(), shards[..];
      RetainRefines(before, shard, (owners: HostBitmap) => owners.Clear(pod), owners => owners - {pod}, s);
      shards[shard] := Retained(shards[shard], (owners: HostBitmap) => owners.Clear(pod));
      assert shards[..] == before[shard := Retained(before[shard], (owners: HostBitmap) => owners.Clear(pod))];
    }

    method RetainAlive(shard: nat, snapshot: HostBitmap)
      requires Valid() && shard < shards.Length
      modifies shards
      ensures Valid() && State() == Apply(old(State()), Step.RetainAlive(shard, snapshot))
    {
      hide ShardFor, HostBitmap.Pods, HostBitmap.And, FlatOf, Retained;
      ghost var s, before := State(), shards[..];
      RetainRefines(before, shard, (owners: HostBitmap) => owners.And(snapshot),
                    owners => owners * snapshot.Pods(), s);
      shards[shard] := Retained(shards[shard], (owners: HostBitmap) => owners.And(snapshot));
      assert shards[..] == before[shard := Retained(before[shard], (owners: HostBitmap) => owners.And(snapshot))];
    }

    method CleanupDeadPod(pod: nat)
      requires Valid()
      modifies shards
      ensures Valid() && State() == Run(old(State()), CleanSteps(shards.Length, pod))
    {
      hide FlatOf, HostBitmap.Pods, Apply;
      ghost var s, steps := State(), CleanSteps(shards.Length, pod);
      for i := 0 to shards.Length
        invariant Valid() && State() == Run(s, steps[..i])
      {
        assert steps[..i + 1] == steps[..i] + [steps[i]];
        RunPush(s, steps[..i], steps[i]);
        CleanShard(i, pod);
      }
      assert steps[..shards.Length] == steps;
    }

    method CleanupNotAlive()
      requires Valid()
      modifies shards
      ensures Valid() && State() == Run(old(State()), RetainSteps(shards.Length, alive))
    {
      hide FlatOf, HostBitmap.Pods, Apply;
      var snapshot := alive;
      ghost var s, steps := State(), RetainSteps(shards.Length, snapshot);
      for i := 0 to shards.Length
        invariant Valid() && State() == Run(s, steps[..i])
      {
        assert steps[..i + 1] == steps[..i] + [steps[i]];
        RunPush(s, steps[..i], steps[i]);
        RetainAlive(i, snapshot);
      }
      assert steps[..shards.Length] == steps;
    }

    /** `total_entries`: the shard sizes add up to the number of keys of the flat relation. */
    method TotalEntries() returns (total: nat)
      requires Valid()
      ensures total == |State().flat|
    {
      hide HostBitmap.Pods, FlatOf;
      total := 0;
      assert shards[..0] == [];
      for i := 0 to shards.Length
        invariant total == |KeysOf(shards[..i])|
      {
        KeysNext(shards[..], i);
        total := total + |shards[i]|;
      }
      assert shards[..shards.Length] == shards[..];
      FlatKeys(shards[..]);
    }

    /** `total_entries` while other threads take the steps `others(i)` before shard i is read: each
        shard counts as it is found. */
    method TotalEntriesAmid(others: nat -> seq<Step>) returns (total: nat)
      requires Valid()
      requires forall k :: ShardsInRange(others(k), shards.Length)
      modifies this, shards
      ensures Valid() && State() == Run(old(State()), Interleaved(others, shards.Length))
      ensures total == SizesSeen(old(State()), others, shards.Length)
    {
      hide FlatOf, HostBitmap.Pods, Run, ShardsInRange, KeysIn;
      ghost var s := State();
      RunNone(s);
      total := 0;
      for i := 0 to shards.Length
        invariant Valid() && State() == Run(s, Interleaved(others, i))
        invariant total == SizesSeen(s, others, i)
      {
        InterleavedNext(s, others, i);
        Interfere(others(i));
        ShardKeys(shards[..], i, State());
        total := total + |shards[i]|;
      }
    }

    /** The locks of a cleanup: `own(i)` on shard i, after the steps of other threads. */
    method SweepAmid(own: nat -> Step, others: nat -> seq<Step>)
      requires Valid()
      requires forall k :: ShardsInRange(others(k), shards.Length)
      requires forall k :: own(k).CleanShard? || own(k).RetainAlive? ==> own(k).shard == k
      modifies this, shards
      ensures Valid() && State() == Run(old(State()), Woven(others, own, shards.Length))
    {
      hide FlatOf, HostBitmap.Pods, Run, Apply, ShardsInRange;
      ghost var s := State();
      WovenNext(s, others, own, 0);
      for i := 0 to shards.Length
        invariant Valid() && State() == Run(s, Woven(others, own, i))
      {
        WovenNext(s, others, own, i);
        Interfere(others(i));
        Take(own(i));
      }
    }

    /** `register` while other threads take the steps `first` before its count step and `second`
        before its lock region. */
    method RegisterAmid(pod: nat, hash: u64, first: seq<Step>, second: seq<Step>) returns (added: bool)
      requires Valid() && ShardsInRange(first, shards.Length) && ShardsInRange(second, shards.Length)
      modifies this, shards
      ensures var found := Run(Apply(Run(old(State()), first), Step.ObservePod(pod)), second);
        Valid() && State() == Apply(found, Step.AddOwner(pod, hash)) && (added <==> pod !in found.Owners(hash))
    {
      hide FlatOf, HostBitmap.Pods, Run, Apply, ShardsInRange, Registry.Owners;
      Interfere(first);
      ghost var taken := ObservePod(pod, []);
      Interfere(second);
      added := AddOwner(pod, hash);
    }

    /** `register_chain` while other threads act before each of its atomic steps: the number of its
        registrations that found the pod without the hash. */
    method RegisterChainAmid(pod: nat, hashes: seq<u64>, others: nat -> seq<Step>) returns (registered: nat)
      requires Valid()
      requires forall k :: ShardsInRange(others(k), shards.Length)
      modifies this, shards
      ensures Valid() && State() == Run(old(State()), Woven(others, ChainOwn(pod, hashes), 2 * |hashes|))
      ensures registered == NewlyOwned(old(State()), others, pod, hashes, |hashes|)
    {
      hide FlatOf, HostBitmap.Pods, Run, Apply, ShardsInRange, Registry.Owners, NewlyOwned, Woven, ShardedBlockIndexer.State;
      ghost var s := State();
      WovenNext(s, others, ChainOwn(pod, hashes), 0);
      registered := 0;
      NoneNewlyOwned(s, others, pod, hashes);
      for i := 0 to |hashes|
        invariant Valid() && State() == Run(s, Woven(others, ChainOwn(pod, hashes), 2 * i))
        invariant registered == NewlyOwned(s, others, pod, hashes, i)
      {
        ChainWoven(s, others, pod, hashes, i);
        var added := RegisterAmid(pod, hashes[i], others(2 * i), others(2 * i + 1));
        if added {
          registered := registered + 1;
        }
      }
    }

    /** `apply_event` (src/calinix/cache_registry/events.rs) */
    method ApplyEvent(event: CacheEvent)
      requires Valid()
      modifies this, shards
      ensures Valid() && State() == Run(old(State()), EventSteps(event, shards.Length))
      ensures EventDone(event, old(State()), State())
    {
      hide FlatOf, HostBitmap.Pods, Apply, EventDone, Registry.Owners;
      ghost var s := State();
      EventEffect(event, s);
      match event
      case PrefixCached(pod, hash) => var added := Register(pod, hash);
      case PrefixEvicted(pod, hash) =>
        RunOne(s, RemoveOwner(pod, hash));
        Evict(pod, hash);
      case PodStarted(pod) => MarkAlive(pod);
      case PodShutdown(pod) =>
        RunOne(s, ClearAlive(pod));
        Shutdown(pod);
      case CleanupPodEvent(pod) => CleanupDeadPod(pod);
    }

    /** One lock region of some thread. */
    method Take(step: Step)
      requires Valid()
      requires step.CleanShard? || step.RetainAlive? ==> step.shard < shards.Length
      modifies this, shards
      ensures Valid() && State() == Apply(old(State()), step)
    {
      hide FlatOf, HostBitmap.Pods;
      match step
      case ObservePod(pod) =>
        ghost var taken := ObservePod(pod, []);
      case AddOwner(pod, hash) => var added := AddOwner(pod, hash);
      case RemoveOwner(pod, hash) => Evict(pod, hash);
      case SetAlive(pod) => alive := alive.Set(pod);
      case ClearAlive(pod) => Shutdown(pod);
      case CleanShard(shard, pod) => CleanShard(shard, pod);
      case RetainAlive(shard, snapshot) => RetainAlive(shard, snapshot);
    }

    /** Other threads run: any number of lock regions, in any order. */
    method Interfere(steps: seq<Step>)
      requires Valid()
      requires ShardsInRange(steps, shards.Length)
      modifies this, shards
      ensures Valid() && State() == Run(old(State()), steps)
    {
      hide FlatOf, HostBitmap.Pods, Apply;
      ghost var s := State();
      for i := 0 to |steps|
        invariant Valid() && State() == Run(s, steps[..i])
      {
        assert steps[..i + 1] == steps[..i] + [steps[i]];
        RunPush(s, steps[..i], steps[i]);
        Take(steps[i]);
      }
      assert steps[..|steps|] == steps;
    }
  }

  ghost predicate ShardsInRange(steps: seq<Step>, shardCount: nat) {
    forall i :: 0 <= i < |steps| && (steps[i].CleanShard? || steps[i].RetainAlive?) ==> steps[i].shard < shardCount
  }

  /** The atomic steps of `register_chain`, one after the other. */
  function ChainOwn(pod: nat, hashes: seq<u64>): nat -> Step {
    (k: nat) => if k % 2 == 0 || k / 2 >= |hashes| then Step.ObservePod(pod) else Step.AddOwner(pod, hashes[k / 2])
  }

  /** How many of the first i registrations find the pod without the hash. */
  ghost function NewlyOwned(s: Registry, others: nat -> seq<Step>, pod: nat, hashes: seq<u64>, i: nat): nat
    requires i <= |hashes|
  {
    if i == 0 then 0
    else
      var found := Run(s, Woven(others, ChainOwn(pod, hashes), 2 * i - 1) + others(2 * i - 1));
      NewlyOwned(s, others, pod, hashes, i - 1) + Count(pod !in found.Owners(hashes[i - 1]))
  }

  lemma NoneNewlyOwned(s: Registry, others: nat -> seq<Step>, pod: nat, hashes: seq<u64>)
    ensures NewlyOwned(s, others, pod, hashes, 0) == 0
  {
  }

  /** One hash further. */
  lemma ChainWoven(s: Registry, others: nat -> seq<Step>, pod: nat, hashes: seq<u64>, i: nat)
    requires i < |hashes|
    ensures var own := ChainOwn(pod, hashes);
      var found := Run(Apply(Run(Run(s, Woven(others, own, 2 * i)), others(2 * i)), Step.ObservePod(pod)), others(2 * i + 1));
      && Run(s, Woven(others, own, 2 * (i + 1))) == Apply(found, Step.AddOwner(pod, hashes[i]))
      && NewlyOwned(s, others, pod, hashes, i + 1) ==
         NewlyOwned(s, others, pod, hashes, i) + Count(pod !in found.Owners(hashes[i]))
  {
    hide Run, Apply, Woven, Registry.Owners;
    var own := ChainOwn(pod, hashes);
    WovenNext(s, others, own, 2 * i);
    WovenNext(s, others, own, 2 * i + 1);
    assert 2 * (i + 1) == 2 * i + 1 + 1;
  }

  /** As long as nobody else touches the pod's ownership of the chain, whatever happens to other
      pods, the count is that of the distinct hashes new for the pod at the start. */
  lemma {:induction false} UntouchedChainCount(s: Registry, others: nat -> seq<Step>, pod: nat, hashes: seq<u64>, i: nat)
    requires i <= |hashes| && pod < MAX_PODS
    requires forall k, h :: h in hashes ==> Untouched(others(k), pod, h, s.shardCount)
    ensures var t := Run(s, Woven(others, ChainOwn(pod, hashes), 2 * i));
      && t.shardCount == s.shardCount
      && forall h :: h in hashes ==> (pod in t.Owners(h) <==> pod in s.Owners(h) || h in hashes[..i])
    ensures NewlyOwned(s, others, pod, hashes, i) == |Missing(s, pod, hashes[..i])|
  {
    hide Run, Apply, Woven, Registry.Owners, Missing, Untouched;
    if i == 0 {
      WovenNext(s, others, ChainOwn(pod, hashes), 0);
      NoneMissing(s, pod);
      assert hashes[..0] == [];
    } else {
      var last := hashes[i - 1];
      UntouchedChainCount(s, others, pod, hashes, i - 1);
      ChainWoven(s, others, pod, hashes, i - 1);
      var t := Run(s, Woven(others, ChainOwn(pod, hashes), 2 * (i - 1)));
      assert hashes[..i] == hashes[..i - 1] + [last];
      OneMoreMissing(s, pod, hashes[..i - 1], last);
      forall h | h in hashes
        ensures var found := Run(Apply(Run(t, others(2 * (i - 1))), Step.ObservePod(pod)), others(2 * (i - 1) + 1));
          && (pod in found.Owners(h) <==> pod in t.Owners(h))
          && found.shardCount == s.shardCount
          && (pod in Apply(found, Step.AddOwner(pod, last)).Owners(h) <==> h == last || pod in t.Owners(h))
          && Apply(found, Step.AddOwner(pod, last)).shardCount == s.shardCount
      {
        UntouchedRound(t, others(2 * (i - 1)), others(2 * (i - 1) + 1), pod, last, h);
      }
      assert last in hashes;
    }
  }

  lemma UntouchedRound(t: Registry, first: seq<Step>, second: seq<Step>, pod: nat, last: u64, h: u64)
    requires Untouched(first, pod, h, t.shardCount) && Untouched(second, pod, h, t.shardCount) && pod < MAX_PODS
    ensures var found := Run(Apply(Run(t, first), Step.ObservePod(pod)), second);
      && (pod in found.Owners(h) <==> pod in t.Owners(h))
      && found.shardCount == t.shardCount
      && (pod in Apply(found, Step.AddOwner(pod, last)).Owners(h) <==> h == last || pod in t.Owners(h))
      && Apply(found, Step.AddOwner(pod, last)).shardCount == t.shardCount
  {
    var one := Run(t, first);
    var two := Apply(one, Step.ObservePod(pod));
    var found := Run(two, second);
    UntouchedKeeps(t, first, pod, h);
    StepOwnership(one, Step.ObservePod(pod), pod, h);
    UntouchedKeeps(two, second, pod, h);
    StepOwnership(found, Step.AddOwner(pod, last), pod, h);
    hide Run, Apply, Registry.Owners, Untouched;
  }

  lemma NoneMissing(s: Registry, pod: nat)
    ensures |Missing(s, pod, [])| == 0
  {
  }

  lemma OneMoreMissing(s: Registry, pod: nat, init: seq<u64>, last: u64)
    ensures |Missing(s, pod, init + [last])| ==
      |Missing(s, pod, init)| + Count(pod !in s.Owners(last) && last !in init)
  {
    var chain := init + [last];
    assert forall h :: h in chain <==> h in init || h == last;
    if pod !in s.Owners(last) && last !in init {
      assert Missing(s, pod, chain) == Missing(s, pod, init) + {last};
    } else {
      assert Missing(s, pod, chain) == Missing(s, pod, init);
    }
  }

  /** The keys of one shard are the entries of the flat relation that fall to it. */
  lemma ShardKeys(shards: seq<Shard>, i: nat, s: Registry)
    requires Placed(shards) && i < |shards| && s.flat == FlatOf(shards) && s.shardCount == |shards|
    ensures |KeysIn(s, i)| == |shards[i]|
  {
    hide ShardFor, HostBitmap.Pods, FlatOf;
    forall h: u64 ensures h in KeysIn(s, i) <==> h in shards[i] {
      FlatAt(shards, h);
    }
    assert KeysIn(s, i) == shards[i].Keys;
  }

  lemma ContainsIsMember(b: HostBitmap, pod: nat)
    ensures b.Contains(pod) <==> pod in b.Pods()
  {
  }

  lemma AddAgain(s: Registry, pod: nat, hash: u64)
    requires pod in s.Owners(hash)
    ensures Apply(s, Step.AddOwner(pod, hash)) == s
  {
    assert s.flat[hash] + Storable(pod) == s.flat[hash];
    assert s.flat[hash := s.flat[hash]] == s.flat;
  }

  lemma ObserveKeepsOwners(s: Registry, pod: nat, hash: u64)
    ensures Apply(s, Step.ObservePod(pod)).Owners(hash) == s.Owners(hash)
  {
  }

  lemma OnlyFlatChanges(s: Registry, step: Step)
    requires step.RemoveOwner?
    ensures Apply(s, step) == s.(flat := Apply(s, step).flat)
  {
  }

  lemma RunTwo(s: Registry, a: Step, b: Step)
    ensures Run(s, [a, b]) == Apply(Apply(s, a), b)
  {
    hide Apply;
    assert [a, b] == [a] + [b];
    RunPush(s, [a], b);
    RunOne(s, a);
  }

  /** The distinct hashes of a chain that the pod does not own yet. */
  ghost function Missing(s: Registry, pod: nat, hashes: seq<u64>): set<u64> {
    set h | h in hashes && pod !in s.Owners(h)
  }

  lemma ChainStart(s: Registry, pod: nat)
    ensures Run(s, ChainSteps(pod, [])) == s && Missing(s, pod, []) == {}
  {
  }

  lemma ChainNext(s: Registry, pod: nat, init: seq<u64>, last: u64)
    ensures var t := Run(s, ChainSteps(pod, init));
      && Run(s, ChainSteps(pod, init + [last])) == Run(t, [Step.ObservePod(pod), Step.AddOwner(pod, last)])
      && (pod < MAX_PODS ==>
            |Missing(s, pod, init + [last])| == |Missing(s, pod, init)| + Count(pod !in t.Owners(last)))
      && (pod >= MAX_PODS && pod !in s.Owners(last) ==> pod !in t.Owners(last))
  {
    hide Apply, Run, Missing, Registry.Owners;
    var chain := init + [last];
    assert chain[..|chain| - 1] == init;
    RunConcat(s, ChainSteps(pod, init), [Step.ObservePod(pod), Step.AddOwner(pod, last)]);
    AfterChain(s, pod, init, last);
    OneMoreMissing(s, pod, init, last);
  }

  function Count(b: bool): nat {
    if b then 1 else 0
  }

  /** Owners read from bitmaps are below 256. */
  lemma OwnersStorable(shards: seq<Shard>, hash: u64, pod: nat)
    requires Placed(shards)
    requires hash in FlatOf(shards) && pod in FlatOf(shards)[hash]
    ensures pod < MAX_PODS
  {
    hide ShardFor;
    FlatAt(shards, hash);
  }

  lemma FlatKeys(shards: seq<Shard>)
    requires Placed(shards)
    ensures |FlatOf(shards)| == |KeysOf(shards)|
  {
    hide HostBitmap.Pods;
    assert FlatOf(shards).Keys == KeysOf(shards);
  }

  lemma KeysNext(shards: seq<Shard>, i: nat)
    requires Placed(shards) && i < |shards|
    ensures |KeysOf(shards[..i + 1])| == |KeysOf(shards[..i])| + |shards[i]|
  {
    hide ShardFor;
    var less, more := shards[..i], shards[..i + 1];
    assert more == less + [shards[i]];
    forall h: u64
      ensures h in KeysOf(more) <==> h in KeysOf(less) || h in shards[i]
      ensures h in KeysOf(less) ==> h !in shards[i]
    {
      if h in KeysOf(more) {
        var j :| 0 <= j < |more| && h in more[j];
        assert j == i || h in less[j];
      }
      if h in KeysOf(less) {
        var j :| 0 <= j < |less| && h in less[j];
        assert h in more[j] && h in shards[j];
        assert ShardFor(h, |shards|) == j;
        assert h !in shards[i];
      }
      if h in shards[i] {
        assert h in more[i];
      }
    }
    assert KeysOf(more) == KeysOf(less) + shards[i].Keys;
    assert KeysOf(less) !! shards[i].Keys;
  }
}
