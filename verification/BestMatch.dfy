/** The pruned search for the single best pod, `best_prefix_match_for_candidates` of
    src/calinix/cache_registry/prefix_query.rs. */
module BestMatch {
  import opened Integers
  import opened Wrappers
  import opened Bitmap
  import opened PrefixSearch
  import opened FlatRegistry
  import opened ShardedIndex
  import opened FrameStack
  import opened Interleavings
  import opened SearchState
  import opened PrefixQuery

  datatype PrefixMatch = PrefixMatch(pod: nat, prefixDepth: nat)

  /** The match is at least as good as the pod: deeper, or as deep with a smaller id. */
  ghost predicate Beats(view: View, best: PrefixMatch, pod: nat) {
    Depth(view, pod) < best.prefixDepth || (Depth(view, pod) == best.prefixDepth && best.pod <= pod)
  }

  /** What the full search would answer: the greatest depth, and the least pod attaining it. */
  ghost predicate IsBest(view: View, root: set<nat>, best: PrefixMatch) {
    && best.pod in root && best.prefixDepth == Depth(view, best.pod)
    && forall p :: p in root ==> Beats(view, best, p)
  }

  // The search while other threads change the index

  /** An interval in which the pod may be taken to be is below the match, or is its very depth and
      the pod has no smaller id. */
  ghost predicate Outdone(good: (nat, nat, nat) -> bool, best: PrefixMatch, p: nat) {
    exists lo: nat, hi: nat :: good(p, lo, hi) && (hi < best.prefixDepth || (lo == hi == best.prefixDepth && best.pod <= p))
  }

  ghost predicate AllOutdone(good: (nat, nat, nat) -> bool, root: set<nat>, best: PrefixMatch) {
    && best.pod in root && good(best.pod, best.prefixDepth, best.prefixDepth)
    && forall p :: p in root ==> Outdone(good, best, p)
  }

  /** The lookups saw the pod not owning some hash below the best depth; or they justify the best
      depth for it, and it has no smaller id. */
  ghost predicate SeenBehind(probes: seq<Lookup>, chain: seq<u64>, best: PrefixMatch, p: nat) {
    || (exists i :: 0 <= i < best.prefixDepth && i < |chain| && SawNotOwner(probes, chain, p, i))
    || (Justified(probes, chain, p, best.prefixDepth, best.prefixDepth) && best.pod <= p)
  }

  /** The match is justified by the lookups against every candidate.  A candidate that no lookup
      found without a hash it had at the start does not beat it by its depth at the start; a chosen
      pod that none found with a hash it had not was at least as deep at the start. */
  ghost predicate SeenBest(probes: seq<Lookup>, chain: seq<u64>, start: Registry, root: set<nat>, best: PrefixMatch) {
    && best.pod in root && Justified(probes, chain, best.pod, best.prefixDepth, best.prefixDepth)
    && (forall p :: p in root ==> SeenBehind(probes, chain, best, p))
    && (NotGained(probes, chain, start, best.pod) ==> best.prefixDepth <= Depth(start.ViewOf(chain), best.pod))
    && (forall p :: p in root && NotLost(probes, chain, start, p) ==> Beats(start.ViewOf(chain), best, p))
  }

  /** When no lookup found any candidate changed, this is the full search's answer. */
  lemma SteadyIsBest(probes: seq<Lookup>, chain: seq<u64>, start: Registry, root: set<nat>, best: PrefixMatch)
    requires SeenBest(probes, chain, start, root, best)
    requires forall p :: p in root ==> Steady(probes, chain, start, p)
    ensures IsBest(start.ViewOf(chain), root, best)
  {
    hide NotLost, NotGained, Justified, SeenBehind, Depth;
  }

  lemma OutdoneIsSeen(probes: seq<Lookup>, chain: seq<u64>, start: Registry, best: PrefixMatch, p: nat)
    requires best.prefixDepth <= |chain| && Outdone(Good(probes, chain, start), best, p)
    ensures SeenBehind(probes, chain, best, p)
    ensures NotLost(probes, chain, start, p) ==> Beats(start.ViewOf(chain), best, p)
  {
    hide NotLost, NotGained, SawNotOwner, SawOwner, Depth, SoloDepth;
    var lo: nat, hi: nat :| Good(probes, chain, start)(p, lo, hi)
      && (hi < best.prefixDepth || (lo == hi == best.prefixDepth && best.pod <= p));
    SoloPoint(start.ViewOf(chain), p, best.prefixDepth);
  }

  lemma AllOutdoneIsSeen(probes: seq<Lookup>, chain: seq<u64>, start: Registry, root: set<nat>, best: PrefixMatch)
    requires AllOutdone(Good(probes, chain, start), root, best)
    ensures SeenBest(probes, chain, start, root, best)
  {
    hide NotLost, NotGained, Outdone, SeenBehind, SawOwner, SawNotOwner, Beats, Depth, SoloDepth;
    SoloPoint(start.ViewOf(chain), best.pod, best.prefixDepth);
    forall p | p in root
      ensures SeenBehind(probes, chain, best, p)
      ensures NotLost(probes, chain, start, p) ==> Beats(start.ViewOf(chain), best, p)
    {
      OutdoneIsSeen(probes, chain, start, best, p);
    }
  }

  // The state of the pruned search

  /** Frames lie in increasing order of depth from bottom to top. */
  ghost predicate Ordered(st: seq<Frame>) {
    forall i, j :: 0 <= i < j < |st| ==> st[i].hi < st[j].lo
  }

  ghost predicate Located(st: seq<Frame>, n: nat, good: (nat, nat, nat) -> bool, root: set<nat>) {
    && (forall f :: f in st ==> f.lo < n && f.pods != {})
    && (forall f, p :: f in st && p in f.pods ==> p in root && good(p, f.lo, f.hi))
  }

  ghost predicate Candidate(n: nat, good: (nat, nat, nat) -> bool, root: set<nat>, best: PrefixMatch) {
    && best.prefixDepth < n && best.pod in root
    && (best.prefixDepth == 0 ==> Least(root, best.pod))
    && (best.prefixDepth > 0 ==> good(best.pod, best.prefixDepth, best.prefixDepth))
  }

  ghost predicate Handled(st: seq<Frame>, good: (nat, nat, nat) -> bool, root: set<nat>, best: PrefixMatch) {
    forall p :: p in root ==> Waiting(st, p) || Outdone(good, best, p)
  }

  ghost predicate Pruning(st: seq<Frame>, n: nat, good: (nat, nat, nat) -> bool, root: set<nat>, best: PrefixMatch) {
    && Fits(st, n) && Ordered(st) && Located(st, n, good, root) && Candidate(n, good, root, best)
    && Handled(st, good, root, best)
  }

  lemma PruningStart(n: nat, good: (nat, nat, nat) -> bool, root: set<nat>, best: PrefixMatch)
    requires n > 0 && Least(root, best.pod) && best.prefixDepth == 0
    requires forall p :: p in root ==> good(p, 0, n)
    ensures Pruning([Frame(0, n, root)], n, good, root, best)
  {
    hide CeilLog2;
    var f := Frame(0, n, root);
    assert f in [f];
  }

  lemma Below(rest: seq<Frame>, f: Frame)
    ensures (rest + [f])[|rest|] == f && f in rest + [f]
    ensures forall i :: 0 <= i < |rest| ==> (rest + [f])[i] == rest[i]
    ensures forall g :: g in rest + [f] <==> g in rest || g == f
  {
  }

  lemma PruningTop(rest: seq<Frame>, f: Frame, n: nat, good: (nat, nat, nat) -> bool, root: set<nat>, best: PrefixMatch)
    requires Pruning(rest + [f], n, good, root, best)
    ensures f.Within(n) && f.lo < n && f.pods != {} && f.pods <= root
    ensures Fits(rest, n) && Ordered(rest) && Located(rest, n, good, root)
    ensures forall i :: 0 <= i < |rest| ==> rest[i].hi < f.lo
    ensures forall p :: p in f.pods ==> good(p, f.lo, f.hi)
    ensures forall p :: p in root && p !in f.pods ==> Waiting(rest, p) || Outdone(good, best, p)
  {
    hide CeilLog2, Outdone;
    Below(rest, f);
    forall p | p in root && p !in f.pods ensures Waiting(rest, p) || Outdone(good, best, p) {
      if Waiting(rest + [f], p) {
        var g :| g in rest + [f] && p in g.pods;
        assert g in rest;
      }
    }
  }

  /** A lookup only adds to what is known. */
  lemma PruningWeaken(st: seq<Frame>, n: nat, good: (nat, nat, nat) -> bool, better: (nat, nat, nat) -> bool,
                      root: set<nat>, best: PrefixMatch)
    requires Pruning(st, n, good, root, best) && Implies(good, better)
    ensures Pruning(st, n, better, root, best)
  {
    hide Fits, Ordered, Waiting;
    forall p | Outdone(good, best, p) ensures Outdone(better, best, p) {
      var lo: nat, hi: nat :| good(p, lo, hi) && (hi < best.prefixDepth || (lo == hi == best.prefixDepth && best.pod <= p));
      assert better(p, lo, hi);
    }
  }

  /** The running best only improves. */
  ghost predicate NoWorse(next: PrefixMatch, best: PrefixMatch) {
    next.prefixDepth > best.prefixDepth || (next.prefixDepth == best.prefixDepth && next.pod <= best.pod)
  }

  lemma OutdoneByBetter(good: (nat, nat, nat) -> bool, best: PrefixMatch, next: PrefixMatch, p: nat)
    requires Outdone(good, best, p) && NoWorse(next, best)
    ensures Outdone(good, next, p)
  {
    var lo: nat, hi: nat :| good(p, lo, hi) && (hi < best.prefixDepth || (lo == hi == best.prefixDepth && best.pod <= p));
    assert good(p, lo, hi);
  }

  /** A frame that cannot hold a better pod is dropped; a settled one may supply a new best. */
  lemma PruningDrop(rest: seq<Frame>, f: Frame, n: nat, good: (nat, nat, nat) -> bool, root: set<nat>,
                    best: PrefixMatch, next: PrefixMatch)
    requires Pruning(rest + [f], n, good, root, best)
    requires Candidate(n, good, root, next) && NoWorse(next, best)
    requires forall p :: p in f.pods ==> Outdone(good, next, p)
    ensures Pruning(rest, n, good, root, next)
    ensures Sum(rest, Work) < Sum(rest + [f], Work) && Sum(rest, Width) <= Sum(rest + [f], Width)
  {
    hide CeilLog2, Candidate, Outdone, Fits, Ordered, Located, Waiting, NoWorse;
    PruningTop(rest, f, n, good, root, best);
    SumPush(rest, f, Work);
    SumPush(rest, f, Width);
    forall p | p in root ensures Waiting(rest, p) || Outdone(good, next, p) {
      if p !in f.pods && !Waiting(rest, p) {
        OutdoneByBetter(good, best, next, p);
      }
    }
  }

  lemma PruningSkip(rest: seq<Frame>, f: Frame, n: nat, good: (nat, nat, nat) -> bool, root: set<nat>, best: PrefixMatch)
    requires Pruning(rest + [f], n, good, root, best) && f.hi < best.prefixDepth
    ensures Pruning(rest, n, good, root, best)
    ensures Sum(rest, Work) < Sum(rest + [f], Work) && Sum(rest, Width) <= Sum(rest + [f], Width)
  {
    hide CeilLog2, Fits, Ordered, Located, Waiting, Handled, Candidate, Sum;
    PruningTop(rest, f, n, good, root, best);
    PruningDrop(rest, f, n, good, root, best, best);
  }

  /** The update of the running best at a settled depth. */
  function Improve(best: PrefixMatch, pod: nat, depth: nat): PrefixMatch {
    if depth > best.prefixDepth || (depth == best.prefixDepth && pod < best.pod) then PrefixMatch(pod, depth) else best
  }

  lemma PruningLeaf(rest: seq<Frame>, f: Frame, n: nat, good: (nat, nat, nat) -> bool, root: set<nat>, best: PrefixMatch,
                    pod: nat)
    requires Pruning(rest + [f], n, good, root, best) && f.lo == f.hi && Least(f.pods, pod)
    ensures Pruning(rest, n, good, root, Improve(best, pod, f.lo))
    ensures Sum(rest, Work) < Sum(rest + [f], Work) && Sum(rest, Width) <= Sum(rest + [f], Width)
  {
    hide CeilLog2, Fits, Sum, Ordered, Located, Waiting, Handled;
    PruningTop(rest, f, n, good, root, best);
    var next := Improve(best, pod, f.lo);
    forall p | p in f.pods ensures Outdone(good, next, p) {
      assert good(p, f.lo, f.hi);
    }
    PruningDrop(rest, f, n, good, root, best, next);
  }

  lemma PruningSplit(rest: seq<Frame>, f: Frame, owners: set<nat>, n: nat, good: (nat, nat, nat) -> bool, root: set<nat>,
                     best: PrefixMatch)
    requires Pruning(rest + [f], n, good, root, best) && f.lo < f.hi && Halved(f, owners, good)
    requires Probe(f.lo, f.hi) < n || f.Upper(owners).pods == {}
    ensures var next := PushNonEmpty(PushNonEmpty(rest, f.Lower(owners)), f.Upper(owners));
      && Pruning(next, n, good, root, best)
      && Sum(next, Work) < Sum(rest + [f], Work) && Sum(next, Width) < Sum(rest + [f], Width)
      && |next| <= 1 + CeilLog2(n + 1)
      && (n + 1 <= 0x8000_0000 ==> |next| <= INLINE_SEARCH_FRAMES)
  {
    hide CeilLog2, Sum, Outdone, Candidate, Fits, Probe, Located, Ordered, PushNonEmpty, Handled, Halved;
    var low, up := f.Lower(owners), f.Upper(owners);
    PruningTop(rest, f, n, good, root, best);
    SplitFits(rest, f, low, up, owners, n);
    SplitSums(rest, f, low, up, Work);
    SplitSums(rest, f, low, up, Width);
    SplitOrdered(rest, f, owners);
    SplitLocated(rest, f, owners, n, good, root, best);
    StackBound(PushNonEmpty(PushNonEmpty(rest, low), up), n);
  }

  lemma SplitOrdered(rest: seq<Frame>, f: Frame, owners: set<nat>)
    requires Ordered(rest) && f.lo < f.hi && forall i :: 0 <= i < |rest| ==> rest[i].hi < f.lo
    ensures Ordered(PushNonEmpty(PushNonEmpty(rest, f.Lower(owners)), f.Upper(owners)))
  {
  }

  lemma SplitLocated(rest: seq<Frame>, f: Frame, owners: set<nat>, n: nat, good: (nat, nat, nat) -> bool, root: set<nat>,
                     best: PrefixMatch)
    requires Located(rest, n, good, root) && f.lo < f.hi <= n && f.lo < n && f.pods <= root && Halved(f, owners, good)
    requires forall p :: p in root && p !in f.pods ==> Waiting(rest, p) || Outdone(good, best, p)
    requires Probe(f.lo, f.hi) < n || f.Upper(owners).pods == {}
    ensures var next := PushNonEmpty(PushNonEmpty(rest, f.Lower(owners)), f.Upper(owners));
      Located(next, n, good, root) && Handled(next, good, root, best)
  {
    hide Outdone, Probe, PushNonEmpty;
    var low, up := f.Lower(owners), f.Upper(owners);
    var next := PushNonEmpty(PushNonEmpty(rest, low), up);
    PushedFrames(rest, low, up);
    forall p | p in root ensures Waiting(next, p) || Outdone(good, best, p) {
      if p in f.pods {
        assert if p in owners then p in up.pods && up in next else p in low.pods && low in next;
      } else if Waiting(rest, p) {
        var g :| g in rest && p in g.pods;
        assert g in next;
      }
    }
  }

  /** Full depth is reached only through the topmost interval, so the early return is exact. */
  lemma FullDepthIsBest(rest: seq<Frame>, f: Frame, owners: set<nat>, n: nat, good: (nat, nat, nat) -> bool, root: set<nat>,
                        best: PrefixMatch, pod: nat)
    requires Pruning(rest + [f], n, good, root, best) && f.lo < f.hi && Halved(f, owners, good)
    requires Probe(f.lo, f.hi) == n && Least(f.Upper(owners).pods, pod)
    ensures AllOutdone(good, root, PrefixMatch(pod, n))
  {
    hide CeilLog2, Fits, Ordered, Handled;
    PruningTop(rest, f, n, good, root, best);
    var full := PrefixMatch(pod, n);
    assert f.hi == n && good(pod, n, n);
    forall p | p in root ensures Outdone(good, full, p) {
      if p in f.pods {
        assert if p in owners then p in f.pods * owners && good(p, n, n)
               else p in f.pods - owners && good(p, f.lo, n - 1);
      } else if Waiting(rest, p) {
        var g :| g in rest && p in g.pods;
        var i :| 0 <= i < |rest| && rest[i] == g;
        assert good(p, g.lo, g.hi) && g.hi < n;
      } else {
        OutdoneByBetter(good, best, full, p);
      }
    }
  }

  lemma PruningDone(n: nat, good: (nat, nat, nat) -> bool, root: set<nat>, best: PrefixMatch)
    requires Pruning([], n, good, root, best)
    ensures AllOutdone(good, root, best)
  {
    forall p | p in root ensures Outdone(good, best, p) {
      assert !Waiting([], p);
    }
    assert Outdone(good, best, best.pod);
  }

  // The pruned search on lookups

  /** The state of the loop between two frames. */
  ghost predicate Pruned(st: seq<Frame>, probes: seq<Lookup>, chain: seq<u64>, start: Registry, root: set<nat>,
                         best: PrefixMatch) {
    && Pruning(st, |chain|, Good(probes, chain, start), root, best)
    && |probes| + Sum(st, Width) <= |chain| && Apart(st, probes)
  }

  lemma PrunedStart(chain: seq<u64>, start: Registry, root: set<nat>, best: PrefixMatch)
    requires chain != [] && Least(root, best.pod) && best.prefixDepth == 0
    ensures Pruned([Frame(0, |chain|, root)], [], chain, start, root, best)
  {
    hide Pruning, GoodInterval;
    var f := Frame(0, |chain|, root);
    forall p | p in root ensures Good([], chain, start)(p, 0, |chain|) {
      WholeIntervalGood(chain, start, p);
    }
    PruningStart(|chain|, Good([], chain, start), root, best);
    StartSum(f);
    ApartStart(f);
  }

  lemma PrunedTop(rest: seq<Frame>, f: Frame, probes: seq<Lookup>, chain: seq<u64>, start: Registry, root: set<nat>,
                  best: PrefixMatch)
    requires Pruned(rest + [f], probes, chain, start, root, best)
    ensures f.Within(|chain|) && f.pods != {} && f.pods <= root
  {
    hide Pruning, Good, Sum, Apart;
    PruningTop(rest, f, |chain|, Good(probes, chain, start), root, best);
  }

  /** A frame below the best depth is skipped. */
  lemma PrunedSkip(rest: seq<Frame>, f: Frame, probes: seq<Lookup>, chain: seq<u64>, start: Registry, root: set<nat>,
                   best: PrefixMatch)
    requires Pruned(rest + [f], probes, chain, start, root, best) && f.hi < best.prefixDepth
    ensures Pruned(rest, probes, chain, start, root, best) && Sum(rest, Work) < Sum(rest + [f], Work)
  {
    hide Pruning, Good, Sum, Apart;
    PruningSkip(rest, f, |chain|, Good(probes, chain, start), root, best);
    ApartDrop(rest, f, probes);
  }

  lemma PrunedLeaf(rest: seq<Frame>, f: Frame, probes: seq<Lookup>, chain: seq<u64>, start: Registry, root: set<nat>,
                   best: PrefixMatch, pod: nat)
    requires Pruned(rest + [f], probes, chain, start, root, best) && f.lo == f.hi && Least(f.pods, pod)
    ensures Pruned(rest, probes, chain, start, root, Improve(best, pod, f.lo)) && Sum(rest, Work) < Sum(rest + [f], Work)
  {
    hide Pruning, Good, Sum, Improve, Apart;
    PruningLeaf(rest, f, |chain|, Good(probes, chain, start), root, best, pod);
    ApartDrop(rest, f, probes);
  }

  /** One lookup, whatever registry it finds. */
  lemma PruningLookup(rest: seq<Frame>, f: Frame, at: Registry, probes: seq<Lookup>, chain: seq<u64>, start: Registry,
                      root: set<nat>, best: PrefixMatch)
    requires Pruning(rest + [f], |chain|, Good(probes, chain, start), root, best) && f.lo < f.hi <= |chain|
    ensures var mid := Probe(f.lo, f.hi);
      var good := Good(probes + [Lookup(mid - 1, at)], chain, start);
      && Pruning(rest + [f], |chain|, good, root, best)
      && Halved(f, at.Owners(chain[mid - 1]), good)
  {
    hide CeilLog2, Good, Pruning, Probe, Registry.Owners;
    var next := probes + [Lookup(Probe(f.lo, f.hi) - 1, at)];
    PruningTop(rest, f, |chain|, Good(probes, chain, start), root, best);
    GoodAfterLookup(f, at, probes, chain, start);
    PruningWeaken(rest + [f], |chain|, Good(probes, chain, start), Good(next, chain, start), root, best);
  }

  lemma PrunedSplit(rest: seq<Frame>, f: Frame, at: Registry, probes: seq<Lookup>, chain: seq<u64>, start: Registry,
                    root: set<nat>, best: PrefixMatch)
    requires Pruned(rest + [f], probes, chain, start, root, best) && f.lo < f.hi <= |chain|
    requires Probe(f.lo, f.hi) < |chain| || f.Upper(at.Owners(chain[Probe(f.lo, f.hi) - 1])).pods == {}
    ensures var mid := Probe(f.lo, f.hi);
      var owners := at.Owners(chain[mid - 1]);
      var next := PushNonEmpty(PushNonEmpty(rest, f.Lower(owners)), f.Upper(owners));
      && Pruned(next, probes + [Lookup(mid - 1, at)], chain, start, root, best)
      && Sum(next, Work) < Sum(rest + [f], Work)
      && |next| <= 1 + CeilLog2(|chain| + 1)
      && (|chain| + 1 <= 0x8000_0000 ==> |next| <= INLINE_SEARCH_FRAMES)
  {
    hide CeilLog2, Good, Pruning, Probe, Registry.Owners, Sum, Halved, PushNonEmpty, Frame.Upper, Frame.Lower, Apart;
    var mid := Probe(f.lo, f.hi);
    var owners := at.Owners(chain[mid - 1]);
    ApartSplit(rest, f, f.Lower(owners), f.Upper(owners), owners, probes, Lookup(mid - 1, at));
    PruningLookup(rest, f, at, probes, chain, start, root, best);
    var next := probes + [Lookup(mid - 1, at)];
    PruningSplit(rest, f, owners, |chain|, Good(next, chain, start), root, best);
  }

  /** The early return, as soon as a lookup of the last hash finds an owner. */
  lemma PrunedFull(rest: seq<Frame>, f: Frame, at: Registry, probes: seq<Lookup>, chain: seq<u64>, start: Registry,
                   root: set<nat>, best: PrefixMatch, pod: nat)
    requires Pruned(rest + [f], probes, chain, start, root, best) && f.lo < f.hi <= |chain|
    requires Probe(f.lo, f.hi) == |chain| && Least(f.Upper(at.Owners(chain[Probe(f.lo, f.hi) - 1])).pods, pod)
    ensures SeenBest(probes + [Lookup(|chain| - 1, at)], chain, start, root, PrefixMatch(pod, |chain|))
    ensures |probes| < |chain| && DistinctLookups(probes + [Lookup(|chain| - 1, at)])
  {
    hide CeilLog2, Good, Pruning, Registry.Owners, Halved, Frame.Upper, SeenBest, AllOutdone, Apart;
    var next := probes + [Lookup(|chain| - 1, at)];
    ApartLookedUp(rest, f, probes, Lookup(|chain| - 1, at));
    hide Probe;
    PruningLookup(rest, f, at, probes, chain, start, root, best);
    FullDepthIsBest(rest, f, at.Owners(chain[|chain| - 1]), |chain|, Good(next, chain, start), root, best, pod);
    AllOutdoneIsSeen(next, chain, start, root, PrefixMatch(pod, |chain|));
    SumPush(rest, f, Width);
  }

  lemma PrunedDone(probes: seq<Lookup>, chain: seq<u64>, start: Registry, root: set<nat>, best: PrefixMatch)
    requires Pruned([], probes, chain, start, root, best)
    ensures SeenBest(probes, chain, start, root, best) && |probes| <= |chain| && DistinctLookups(probes)
  {
    hide Good, Pruning, SeenBest, AllOutdone;
    PruningDone(|chain|, Good(probes, chain, start), root, best);
    AllOutdoneIsSeen(probes, chain, start, root, best);
  }

  /** `best_prefix_match_for_candidates` while other threads take the steps `others(k)` just before
      the k-th lookup. */
  method BestPrefixMatchForCandidates(indexer: ShardedBlockIndexer, chain: seq<u64>, candidates: HostBitmap,
                                      others: nat -> seq<Step>)
    returns (result: Option<PrefixMatch>, ghost probes: seq<Lookup>, ghost peak: nat, ghost spilled: bool)
    requires indexer.Valid()
    requires forall k :: ShardsInRange(others(k), indexer.shards.Length)
    modifies indexer, indexer.shards
    ensures indexer.Valid()
    ensures indexer.State() == Run(old(indexer.State()), Interleaved(others, |probes|))
    ensures History(probes, others, old(indexer.State()), |chain|) && |probes| <= |chain| && DistinctLookups(probes)
    ensures result.None? <==> candidates.Pods() == {}
    ensures var root := candidates.Pods() * old(indexer.alive).Pods();
      result.Some? ==>
        && (root == {} ==> result.value.prefixDepth == 0 && Least(candidates.Pods(), result.value.pod))
        && (root != {} ==> SeenBest(probes, chain, old(indexer.State()), root, result.value))
    ensures peak <= 1 + CeilLog2(|chain| + 1)
    ensures |chain| + 1 <= 0x8000_0000 ==> !spilled
  {
    hide HostBitmap.Pods, CeilLog2, HostBitmap.And, HostBitmap.IsEmpty, ShardedBlockIndexer.State, SeenBest, Least, Depth,
      Run, Interleaved, History, ShardsInRange, Placed, DistinctLookups;
    probes, peak, spilled := [], 0, false;
    ghost var start := indexer.State();
    HistoryNone(start, others, |chain|);
    var alive := indexer.alive;
    var aliveCandidates := candidates.And(alive);
    ghost var root := aliveCandidates.Pods();
    var fallback := aliveCandidates.FirstSetBit();
    NoHashesBest(chain, start, root, if fallback.Some? then fallback.value else 0);
    if fallback.None? {
      fallback := candidates.FirstSetBit();
      if fallback.None? {
        return None, probes, peak, spilled;
      }
    }
    if chain == [] || aliveCandidates.IsEmpty() {
      return Some(PrefixMatch(fallback.value, 0)), probes, peak, spilled;
    }
    var best;
    best, probes, peak, spilled := PrunedSearch(indexer, chain, aliveCandidates, fallback.value, alive, others);
    result := Some(best);
  }

  /** The loop of `best_prefix_match_for_candidates`. */
  method PrunedSearch(indexer: ShardedBlockIndexer, chain: seq<u64>, aliveCandidates: HostBitmap, fallbackPod: nat,
                      alive: HostBitmap, others: nat -> seq<Step>)
    returns (best: PrefixMatch, ghost probes: seq<Lookup>, ghost peak: nat, ghost spilled: bool)
    requires indexer.Valid() && chain != []
    requires forall k :: ShardsInRange(others(k), indexer.shards.Length)
    requires aliveCandidates.Pods() <= alive.Pods() && Least(aliveCandidates.Pods(), fallbackPod)
    modifies indexer, indexer.shards
    ensures indexer.Valid()
    ensures indexer.State() == Run(old(indexer.State()), Interleaved(others, |probes|))
    ensures History(probes, others, old(indexer.State()), |chain|) && |probes| <= |chain| && DistinctLookups(probes)
    ensures SeenBest(probes, chain, old(indexer.State()), aliveCandidates.Pods(), best)
    ensures peak <= 1 + CeilLog2(|chain| + 1)
    ensures |chain| + 1 <= 0x8000_0000 ==> !spilled
  {
    hide HostBitmap.Pods, FlatOf, Pruned, CeilLog2, Sum, Probe, SearchStack.Frames, HostBitmap.IsEmpty,
      PushNonEmpty, Frame.Upper, Frame.Lower, Registry.Owners, ShardedBlockIndexer.State, Placed,
      SearchStack.Valid, SeenBest, Least, Improve, Run, Interleaved, History, ShardsInRange, DistinctLookups;
    probes, peak, spilled := [], 0, false;
    ghost var start, root := indexer.State(), aliveCandidates.Pods();
    var fullPrefixDepth := |chain|;
    var lookups := 0;
    best := PrefixMatch(fallbackPod, 0);
    var stack := StartStack(SearchFrame(0, fullPrefixDepth, aliveCandidates));
    HistoryNone(start, others, |chain|);
    PrunedStart(chain, start, root, best);
    while true
      invariant stack.Valid() && fresh(stack) && fresh(stack.frames)
      invariant indexer.Valid() && indexer.State() == Run(start, Interleaved(others, lookups))
      invariant Pruned(stack.Frames(), probes, chain, start, root, best)
      invariant |probes| == lookups && History(probes, others, start, |chain|)
      invariant peak <= 1 + CeilLog2(|chain| + 1)
      invariant |chain| + 1 <= 0x8000_0000 ==> stack.heap.None?
      decreases Sum(stack.Frames(), Work)
    {
      var top := PopFrame(stack);
      if top.None? {
        PrunedDone(probes, chain, start, root, best);
        return best, probes, peak, stack.heap.Some?;
      }
      var frame := top.value;
      ghost var f, rest := frame.Abs(), stack.Frames();
      PrunedTop(rest, f, probes, chain, start, root, best);
      if frame.candidatePods.IsEmpty() || frame.maxPrefixDepth < best.prefixDepth {
        PrunedSkip(rest, f, probes, chain, start, root, best);
        continue;
      }
      if frame.minPrefixDepth == frame.maxPrefixDepth {
        var first := frame.candidatePods.FirstSetBit();
        PrunedLeaf(rest, f, probes, chain, start, root, best, first.value);
        best := Improve(best, first.value, frame.minPrefixDepth);
        continue;
      }

      var probePrefixDepth := (frame.minPrefixDepth + frame.maxPrefixDepth + 1) / 2;
      ProbeIs(frame.minPrefixDepth, frame.maxPrefixDepth, probePrefixDepth);
      var above, below :=
        ProbeFrame(indexer, chain[probePrefixDepth - 1], frame, probePrefixDepth, alive, others, lookups, start);
      ghost var at, before := indexer.State(), probes;
      HistoryNext(probes, others, start, |chain|, Lookup(probePrefixDepth - 1, at));
      probes := probes + [Lookup(probePrefixDepth - 1, at)];
      lookups := lookups + 1;
      if probePrefixDepth == fullPrefixDepth {
        var first := above.candidatePods.FirstSetBit();
        if first.Some? {
          PrunedFull(rest, f, at, before, chain, start, root, best, first.value);
          return PrefixMatch(first.value, fullPrefixDepth), probes, peak, stack.heap.Some?;
        }
      }
      PrunedSplit(rest, f, at, before, chain, start, root, best);
      PushFrames(stack, below, above);
      peak := if |stack.Frames()| > peak then |stack.Frames()| else peak;
    }
  }

  lemma NoHashesBest(chain: seq<u64>, start: Registry, root: set<nat>, pod: nat)
    ensures chain == [] && Least(root, pod) ==> SeenBest([], chain, start, root, PrefixMatch(pod, 0))
    ensures DistinctLookups([])
  {
  }

  /** Without other threads the match is what the full search would answer. */
  method BestPrefixMatchUndisturbed(indexer: ShardedBlockIndexer, chain: seq<u64>, candidates: HostBitmap)
    returns (result: Option<PrefixMatch>, ghost peak: nat, ghost spilled: bool)
    requires indexer.Valid()
    modifies indexer, indexer.shards
    ensures indexer.Valid() && indexer.State() == old(indexer.State())
    ensures result.None? <==> candidates.Pods() == {}
    ensures var root := candidates.Pods() * old(indexer.alive).Pods();
      var view := old(indexer.State()).ViewOf(chain);
      result.Some? ==>
        && (root == {} ==> result.value.prefixDepth == 0 && Least(candidates.Pods(), result.value.pod))
        && (root != {} ==> IsBest(view, root, result.value))
    ensures peak <= 1 + CeilLog2(|chain| + 1)
    ensures |chain| + 1 <= 0x8000_0000 ==> !spilled
  {
    hide HostBitmap.Pods, FlatOf, CeilLog2, Depth, Run, Registry.ViewOf, ShardedBlockIndexer.State, SeenBest, IsBest,
      History, Interleaved, Least;
    ghost var start, root := indexer.State(), candidates.Pods() * indexer.alive.Pods();
    var alone: nat -> seq<Step> := (k: nat) => [];
    ghost var probes;
    result, probes, peak, spilled := BestPrefixMatchForCandidates(indexer, chain, candidates, alone);
    AloneIsSteady(probes, alone, start, chain);
    if result.Some? && root != {} {
      SteadyIsBest(probes, chain, start, root, result.value);
    }
  }
}
