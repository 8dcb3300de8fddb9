/** Plan building of src/calinix/routing/pipeline.rs: filter, prefix query, score, pick, for the
    single and the disaggregated mode. */
module Pipeline {
  import opened Integers
  import opened Wrappers
  import opened Bitmap
  import opened PrefixSearch
  import opened FlatRegistry
  import opened ShardedIndex
  import opened Interleavings
  import opened SearchState
  import opened PrefixQuery
  import opened Load
  import opened Routing

  const MAX_CACHE_DEPTHS: nat := 256

  datatype RoutePolicy = RoutePolicy(singleUpstream: string, prefillUpstream: string, decodeUpstream: string,
                                     requireHealthy: bool) {
    function UpstreamForRole(role: Role): string {
      match role
      case Single => singleUpstream
      case Prefill => prefillUpstream
      case Decode => decodeUpstream
    }
  }

  datatype RoutingPlan =
    | SinglePlan(targetPod: nat, targetAddress: string, cacheHit: bool, cachePrefixDepth: nat)
    | Disaggregated(prefillPod: nat, decodePod: nat, coordinatorAddress: string, cacheHit: bool, cachePrefixDepth: nat)

  /** `all_configured_pods` */
  method AllConfiguredPods(pods: seq<PodEndpoint>) returns (configured: HostBitmap)
    ensures forall p :: p in configured.Pods() <==> p < MAX_PODS && exists i :: 0 <= i < |pods| && pods[i].id == p
  {
    hide HostBitmap.Pods, HostBitmap.Set;
    configured := HostBitmap.Empty();
    for i := 0 to |pods|
      invariant forall p :: p in configured.Pods() <==> p < MAX_PODS && exists j :: 0 <= j < i && pods[j].id == p
    {
      configured := configured.Set(pods[i].id);
    }
  }

  // Other threads during a pick

  /** What other threads do during one pick: steps on the index before every lookup, and each pod's
      counter as its capacity check finds it and as its scoring finds it. */
  datatype Rivals = Rivals(steps: nat -> seq<Step>, filtering: seq<nat>, scoring: seq<nat>)

  ghost predicate RivalsFit(rivals: Rivals, shardCount: nat, podCount: nat) {
    && (forall k :: ShardsInRange(rivals.steps(k), shardCount))
    && |rivals.filtering| == |rivals.scoring| == podCount
  }

  /** What one query saw: its lookups, and the depths it filled in. */
  datatype Findings = Findings(probes: seq<Lookup>, depths: seq<nat>)

  /** Every eligible pod has one depth that the lookups justify and bound by its depth at the start;
      pods outside the alive set have depth 0. */
  ghost predicate DepthsSeen(found: Findings, chain: seq<u64>, start: Registry, eligible: set<nat>) {
    forall p :: p in eligible ==>
      && p < |found.depths|
      && if p in start.alive then
           Answers(found.probes, chain, start, p, found.depths[p])
         else found.depths[p] == 0
  }

  ghost predicate AllSteady(found: Findings, chain: seq<u64>, start: Registry, pods: set<nat>) {
    forall p :: p in pods ==> Steady(found.probes, chain, start, p)
  }

  /** The score of a pod for a given cached depth, with catalog and counters. */
  ghost function ScoreAt(depth: nat, n: nat, catalog: UpstreamCatalog, inflight: seq<nat>, weights: ScoreWeights,
                         sticky: Option<nat>, prefill: Option<nat>, pod: nat): CandidateScore {
    var maxConns := if pod < |catalog.pods| then catalog.pods[pod].maxConns else 0;
    var running := if pod < |inflight| then inflight[pod] else 0;
    CandidateScore(pod, depth, FinalScore(weights, depth, n, running, maxConns, sticky, prefill, pod))
  }

  /** The chosen pod: eligible, scored with its own depth, with no smaller score than any eligible pod
      has with its own, and with the smallest id at that score. */
  ghost predicate ChosenBy(depthOf: nat -> nat, n: nat, catalog: UpstreamCatalog, inflight: seq<nat>, eligible: set<nat>,
                           weights: ScoreWeights, sticky: Option<nat>, prefill: Option<nat>, best: CandidateScore) {
    && best.pod in eligible
    && best == ScoreAt(depthOf(best.pod), n, catalog, inflight, weights, sticky, prefill, best.pod)
    && forall p :: p in eligible ==>
         var score := ScoreAt(depthOf(p), n, catalog, inflight, weights, sticky, prefill, p).finalScore;
         best.finalScore > score || (best.finalScore == score && best.pod <= p)
  }

  ghost predicate SoleChoice(depthOf: nat -> nat, n: nat, catalog: UpstreamCatalog, inflight: seq<nat>, eligible: set<nat>,
                             weights: ScoreWeights, sticky: Option<nat>, prefill: Option<nat>, best: CandidateScore) {
    forall other :: ChosenBy(depthOf, n, catalog, inflight, eligible, weights, sticky, prefill, other) ==> other == best
  }

  /** Ties go to the smaller id, so there is only one choice. */
  lemma OneChoice(depthOf: nat -> nat, n: nat, catalog: UpstreamCatalog, inflight: seq<nat>, eligible: set<nat>,
                  weights: ScoreWeights, sticky: Option<nat>, prefill: Option<nat>, best: CandidateScore)
    requires ChosenBy(depthOf, n, catalog, inflight, eligible, weights, sticky, prefill, best)
    ensures SoleChoice(depthOf, n, catalog, inflight, eligible, weights, sticky, prefill, best)
  {
    hide FinalScore;
    forall other | ChosenBy(depthOf, n, catalog, inflight, eligible, weights, sticky, prefill, other)
      ensures other == best
    {
      assert other.finalScore
        == ScoreAt(depthOf(other.pod), n, catalog, inflight, weights, sticky, prefill, other.pod).finalScore;
    }
  }

  ghost function Found(found: Findings): nat -> nat {
    (p: nat) => if p < |found.depths| then found.depths[p] else 0
  }

  /** What an undisturbed query answers for a pod: its depth if it is alive, 0 otherwise. */
  ghost function KnownDepth(s: Registry, chain: seq<u64>, pod: nat): nat {
    if pod in s.alive then Depth(s.ViewOf(chain), pod) else 0
  }

  ghost function Known(s: Registry, chain: seq<u64>): nat -> nat {
    (p: nat) => KnownDepth(s, chain, p)
  }

  /** Where no lookup found an eligible pod changed, the choice is the one of the index at the start. */
  lemma SteadyChoice(found: Findings, chain: seq<u64>, start: Registry, catalog: UpstreamCatalog, inflight: seq<nat>,
                     eligible: set<nat>, weights: ScoreWeights, sticky: Option<nat>, prefill: Option<nat>,
                     best: CandidateScore)
    requires DepthsSeen(found, chain, start, eligible) && AllSteady(found, chain, start, eligible)
    requires ChosenBy(Found(found), |chain|, catalog, inflight, eligible, weights, sticky, prefill, best)
    ensures ChosenBy(Known(start, chain), |chain|, catalog, inflight, eligible, weights, sticky, prefill, best)
    ensures best.cachePrefixDepth == KnownDepth(start, chain, best.pod)
  {
    hide Depth, NotLost, NotGained, Justified, FinalScore;
    forall p | p in eligible ensures Found(found)(p) == Known(start, chain)(p) {
    }
  }

  method SetCounters(loads: LoadState, counters: seq<nat>)
    requires |counters| == loads.inflight.Length
    modifies loads.inflight
    ensures loads.inflight[..] == counters
  {
    for p := 0 to |counters|
      invariant forall i :: 0 <= i < p ==> loads.inflight[i] == counters[i]
    {
      loads.inflight[p] := counters[p];
    }
  }

  /** Filter, query, score and pick for one role, the sequence both plan builders go through, while
      other threads change the index and the counters. */
  method PickForRole(indexer: ShardedBlockIndexer, catalog: UpstreamCatalog, loads: LoadState, policy: RoutePolicy,
                     stage: ScoreStage, available: HostBitmap, chain: seq<u64>, role: Role,
                     sticky: Option<nat>, prefill: Option<nat>, rivals: Rivals)
    returns (r: Result<CandidateScore, RoutingError>, ghost found: Findings)
    requires indexer.Valid() && RivalsFit(rivals, indexer.shards.Length, loads.inflight.Length)
    modifies indexer, indexer.shards, loads.inflight
    ensures indexer.Valid() && indexer.State() == Run(old(indexer.State()), Interleaved(rivals.steps, |found.probes|))
    ensures History(found.probes, rivals.steps, old(indexer.State()), |chain|) && loads.inflight[..] == rivals.scoring
    ensures var eligible := Eligible(catalog, rivals.filtering, available.Pods(), policy.UpstreamForRole(role), role);
      && DepthsSeen(found, chain, old(indexer.State()), eligible)
      && (r.Err? ==> r.error == NoCandidates && eligible == {})
      && (r.Ok? ==>
            && ChosenBy(Found(found), |chain|, catalog, rivals.scoring, eligible, stage.WeightsFor(role), sticky, prefill,
                        r.value)
            && SoleChoice(Found(found), |chain|, catalog, rivals.scoring, eligible, stage.WeightsFor(role), sticky, prefill,
                          r.value))
  {
    hide HostBitmap.Pods, FlatOf, CeilLog2, Depth, Run, Score, ScoreAt, ScoreOn, IsTop, SoleChoice, Registry.ViewOf, Ready,
      Answers, History, Interleaved, ShardsInRange;
    SetCounters(loads, rivals.filtering);
    var candidates := EligibleCandidates(catalog, loads, available, policy.UpstreamForRole(role), role);
    var slots := if |catalog.pods| < MAX_CACHE_DEPTHS then |catalog.pods| else MAX_CACHE_DEPTHS;
    var cacheDepths := new nat[slots](_ => 0);
    ghost var probes, peak, spilled := LongestPrefixLengthsInto(indexer, chain, candidates, cacheDepths, rivals.steps);
    found := Findings(probes, cacheDepths[..]);
    SetCounters(loads, rivals.scoring);
    var input := ScoreInput(stage.WeightsFor(role), |chain|, cacheDepths[..], catalog, loads.inflight[..], sticky, prefill);
    forall p | p in candidates.Pods()
      ensures p < slots
      ensures Score(input, p) == Some(ScoreOn(found, input, p))
    {
      PodInRange(candidates, p);
      ReadyIsListed(catalog, rivals.filtering, role, p);
      ScoreIsFound(found, input, p);
    }
    r := BestCandidate(input, candidates);
    if r.Ok? {
      TopIsChosen(found, input, candidates.Pods(), r.value);
      OneChoice(Found(found), |chain|, catalog, rivals.scoring, candidates.Pods(), stage.WeightsFor(role), sticky, prefill,
                r.value);
    }
  }

  lemma ReadyIsListed(catalog: UpstreamCatalog, inflight: seq<nat>, role: Role, pod: nat)
    ensures Ready(catalog, inflight, role, pod) ==> pod < |catalog.pods| && catalog.Pod(pod).Some?
  {
  }

  ghost function ScoreOn(found: Findings, input: ScoreInput, pod: nat): CandidateScore {
    ScoreAt(Found(found)(pod), input.maxDepth, input.catalog, input.inflight, input.weights, input.sticky, input.prefill, pod)
  }

  lemma ScoreIsFound(found: Findings, input: ScoreInput, pod: nat)
    requires pod < |input.catalog.pods| && input.catalog.Pod(pod).Some? && input.depths == found.depths
    ensures Score(input, pod) == Some(ScoreOn(found, input, pod))
  {
    hide FinalScore;
  }

  lemma TopIsChosen(found: Findings, input: ScoreInput, eligible: set<nat>, best: CandidateScore)
    requires IsTop(input, eligible, best)
    requires forall p :: p in eligible ==> Score(input, p) == Some(ScoreOn(found, input, p))
    ensures ChosenBy(Found(found), input.maxDepth, input.catalog, input.inflight, eligible, input.weights, input.sticky,
                     input.prefill, best)
  {
    hide Score, ScoreAt;
    forall p | p in eligible
      ensures var score := ScoreOn(found, input, p).finalScore;
        best.finalScore > score || (best.finalScore == score && best.pod <= p)
    {
      assert Score(input, p).Some?;
    }
  }

  /** `available_pods` */
  method AvailablePods(indexer: ShardedBlockIndexer, catalog: UpstreamCatalog, policy: RoutePolicy) returns (available: HostBitmap)
    ensures policy.requireHealthy ==> available == indexer.alive
    ensures !policy.requireHealthy ==>
      (forall p :: p in available.Pods() <==>
        p < 256 && exists i :: 0 <= i < |catalog.pods| && catalog.pods[i].id == p)
  {
    if policy.requireHealthy {
      available := indexer.alive;
    } else {
      available := AllConfiguredPods(catalog.pods);
    }
  }

  /** `build_single_plan` */
  method BuildSinglePlan(indexer: ShardedBlockIndexer, catalog: UpstreamCatalog, loads: LoadState, policy: RoutePolicy,
                         stage: ScoreStage, available: HostBitmap, chain: seq<u64>, sticky: Option<nat>, rivals: Rivals)
    returns (r: Result<RoutingPlan, RoutingError>, ghost found: Findings)
    requires indexer.Valid() && RivalsFit(rivals, indexer.shards.Length, loads.inflight.Length)
    modifies indexer, indexer.shards, loads.inflight
    ensures indexer.Valid() && indexer.State() == Run(old(indexer.State()), Interleaved(rivals.steps, |found.probes|))
    ensures History(found.probes, rivals.steps, old(indexer.State()), |chain|) && loads.inflight[..] == rivals.scoring
    ensures var eligible := Eligible(catalog, rivals.filtering, available.Pods(), policy.singleUpstream, Single);
      && DepthsSeen(found, chain, old(indexer.State()), eligible)
      && (r.Err? <==> eligible == {}) && (r.Err? ==> r.error == NoCandidates)
      && (r.Ok? ==>
            && r.value.SinglePlan?
            && (exists best :: ChosenBy(Found(found), |chain|, catalog, rivals.scoring, eligible, stage.singleWeights, sticky,
                                        None, best)
                  && best.pod == r.value.targetPod && best.cachePrefixDepth == r.value.cachePrefixDepth)
            && r.value.targetPod < |catalog.pods| && r.value.targetAddress == catalog.pods[r.value.targetPod].address
            && (r.value.cacheHit <==> r.value.cachePrefixDepth > 0))
      && (r.Ok? && AllSteady(found, chain, old(indexer.State()), eligible) ==>
            && (exists best :: ChosenBy(Known(old(indexer.State()), chain), |chain|, catalog, rivals.scoring, eligible,
                                        stage.singleWeights, sticky, None, best)
                  && best.pod == r.value.targetPod && best.cachePrefixDepth == r.value.cachePrefixDepth)
            && r.value.cachePrefixDepth == KnownDepth(old(indexer.State()), chain, r.value.targetPod))
  {
    hide HostBitmap.Pods, FlatOf, Depth, Registry.ViewOf, ShardedBlockIndexer.State, Eligible, FinalScore,
      DepthsSeen, AllSteady, History, Run, Interleaved, Found, Known, SoleChoice;
    var picked;
    picked, found := PickForRole(indexer, catalog, loads, policy, stage, available, chain, Single, sticky, None, rivals);
    if picked.Err? {
      return Err(picked.error), found;
    }
    EligibleIsListed(catalog, rivals.filtering, available.Pods(), policy.singleUpstream, Single);
    var best := picked.value;
    var pod := catalog.Pod(best.pod);
    ghost var eligible := Eligible(catalog, rivals.filtering, available.Pods(), policy.singleUpstream, Single);
    if AllSteady(found, chain, old(indexer.State()), eligible) {
      SteadyChoice(found, chain, old(indexer.State()), catalog, rivals.scoring, eligible, stage.singleWeights, sticky, None,
                   best);
    }
    r := Ok(SinglePlan(best.pod, pod.value.address, best.cachePrefixDepth > 0, best.cachePrefixDepth));
  }

  lemma EligibleIsListed(catalog: UpstreamCatalog, inflight: seq<nat>, available: set<nat>, groupName: string, role: Role)
    ensures forall p :: p in Eligible(catalog, inflight, available, groupName, role) ==>
      p in available && p < |catalog.pods| && catalog.Pod(p).Some?
      && inflight != [] && p < |inflight| && inflight[p] < catalog.pods[p].maxConns
  {
  }

  /** `build_disaggregated_plan`: the decode pod is chosen knowing the prefill pod, and on whatever
      index and counters the other threads have left by then; `between` are their steps after the
      last prefill lookup and before the decode query reads the alive bitmap. */
  method BuildDisaggregatedPlan(indexer: ShardedBlockIndexer, catalog: UpstreamCatalog, loads: LoadState,
                                policy: RoutePolicy, stage: ScoreStage, available: HostBitmap, chain: seq<u64>,
                                sticky: Option<nat>, early: Rivals, between: seq<Step>, late: Rivals)
    returns (r: Result<RoutingPlan, RoutingError>, ghost first: Findings, ghost second: Findings, ghost middle: Registry)
    requires indexer.Valid() && RivalsFit(early, indexer.shards.Length, loads.inflight.Length)
    requires RivalsFit(late, indexer.shards.Length, loads.inflight.Length) && ShardsInRange(between, indexer.shards.Length)
    modifies indexer, indexer.shards, loads.inflight
    ensures var prefills := Eligible(catalog, early.filtering, available.Pods(), policy.prefillUpstream, Prefill);
      middle == Run(old(indexer.State()),
                    Interleaved(early.steps, |first.probes|) + if prefills == {} then [] else between)
    ensures indexer.Valid() && indexer.State() == Run(middle, Interleaved(late.steps, |second.probes|))
    ensures History(first.probes, early.steps, old(indexer.State()), |chain|)
    ensures History(second.probes, late.steps, middle, |chain|)
    ensures var prefills := Eligible(catalog, early.filtering, available.Pods(), policy.prefillUpstream, Prefill);
      var decodes := Eligible(catalog, late.filtering, available.Pods(), policy.decodeUpstream, Decode);
      && loads.inflight[..] == (if prefills == {} then early.scoring else late.scoring)
      && (r.Err? <==> prefills == {} || decodes == {}) && (r.Err? ==> r.error == NoCandidates)
      && (r.Ok? ==>
            && r.value.Disaggregated?
            && DepthsSeen(first, chain, old(indexer.State()), prefills) && DepthsSeen(second, chain, middle, decodes)
            && (exists best :: ChosenBy(Found(first), |chain|, catalog, early.scoring, prefills, stage.prefillWeights, sticky,
                                        None, best)
                  && best.pod == r.value.prefillPod && best.cachePrefixDepth == r.value.cachePrefixDepth)
            && (exists best :: ChosenBy(Found(second), |chain|, catalog, late.scoring, decodes, stage.decodeWeights, sticky,
                                        Some(r.value.prefillPod), best)
                  && best.pod == r.value.decodePod)
            && r.value.prefillPod < |catalog.pods|
            && r.value.coordinatorAddress == catalog.pods[r.value.prefillPod].address
            && (r.value.cacheHit <==> r.value.cachePrefixDepth > 0))
      && (r.Ok? && AllSteady(first, chain, old(indexer.State()), prefills) ==>
            && (exists best :: ChosenBy(Known(old(indexer.State()), chain), |chain|, catalog, early.scoring, prefills,
                                        stage.prefillWeights, sticky, None, best) && best.pod == r.value.prefillPod)
            && r.value.cachePrefixDepth == KnownDepth(old(indexer.State()), chain, r.value.prefillPod))
      && (r.Ok? && AllSteady(second, chain, middle, decodes) ==>
            exists best :: ChosenBy(Known(middle, chain), |chain|, catalog, late.scoring, decodes, stage.decodeWeights, sticky,
                                    Some(r.value.prefillPod), best) && best.pod == r.value.decodePod)
  {
    hide HostBitmap.Pods, FlatOf, Depth, Registry.ViewOf, ShardedBlockIndexer.State, Eligible, FinalScore,
      DepthsSeen, AllSteady, History, Run, Interleaved, Found, Known, SoleChoice;
    var pickedPrefill;
    second := Findings([], []);
    pickedPrefill, first :=
      PickForRole(indexer, catalog, loads, policy, stage, available, chain, Prefill, sticky, None, early);
    middle := indexer.State();
    HistoryNone(middle, late.steps, |chain|);
    ghost var seen := Interleaved(early.steps, |first.probes|);
    if pickedPrefill.Err? {
      assert seen + [] == seen;
      return Err(pickedPrefill.error), first, second, middle;
    }
    var best := pickedPrefill.value;
    EligibleIsListed(catalog, early.filtering, available.Pods(), policy.prefillUpstream, Prefill);
    var prefillPod := catalog.Pod(best.pod);
    ghost var prefills := Eligible(catalog, early.filtering, available.Pods(), policy.prefillUpstream, Prefill);
    if AllSteady(first, chain, old(indexer.State()), prefills) {
      SteadyChoice(first, chain, old(indexer.State()), catalog, early.scoring, prefills, stage.prefillWeights, sticky, None,
                   best);
    }
    indexer.Interfere(between);
    middle := indexer.State();
    RunConcat(old(indexer.State()), seen, between);
    var pickedDecode;
    pickedDecode, second :=
      PickForRole(indexer, catalog, loads, policy, stage, available, chain, Decode, sticky, Some(best.pod), late);
    if pickedDecode.Err? {
      return Err(pickedDecode.error), first, second, middle;
    }
    ghost var decodes := Eligible(catalog, late.filtering, available.Pods(), policy.decodeUpstream, Decode);
    if AllSteady(second, chain, middle, decodes) {
      SteadyChoice(second, chain, middle, catalog, late.scoring, decodes, stage.decodeWeights, sticky, Some(best.pod),
                   pickedDecode.value);
    }
    r := Ok(Disaggregated(best.pod, pickedDecode.value.pod, prefillPod.value.address, best.cachePrefixDepth > 0,
                          best.cachePrefixDepth));
  }

  /** A deciding cache lead over the planned pod cannot be ignored, two thirds of the chain for a
      single pod and seven thirteenths for a prefill pod: among the eligible pods, one found that far
      ahead was out of capacity when it was scored. */
  lemma PlannedPodNotFarBehind(role: Role, depthOf: nat -> nat, n: nat, catalog: UpstreamCatalog, inflight: seq<nat>,
                               eligible: set<nat>, sticky: Option<nat>, prefill: Option<nat>, best: CandidateScore, pod: nat)
    requires ChosenBy(depthOf, n, catalog, inflight, eligible, DEFAULT_SCORE_STAGE.WeightsFor(role), sticky, prefill, best)
    requires pod in eligible && n > 0 && LeadDecides(role, n, depthOf(pod) - depthOf(best.pod), prefill, pod, best.pod)
    ensures pod >= |catalog.pods| || (if pod < |inflight| then inflight[pod] else 0) >= catalog.pods[pod].maxConns
  {
    hide FinalScore, Outweighs;
    var running := if pod < |inflight| then inflight[pod] else 0;
    if pod < |catalog.pods| && running < catalog.pods[pod].maxConns {
      DefaultOutweighs(role, n, depthOf(pod), depthOf(best.pod), prefill, pod, best.pod);
      CacheLeadWins(DEFAULT_SCORE_STAGE.WeightsFor(role), n, depthOf(pod), depthOf(best.pod), running,
                    catalog.pods[pod].maxConns, if best.pod < |inflight| then inflight[best.pod] else 0,
                    if best.pod < |catalog.pods| then catalog.pods[best.pod].maxConns else 0, sticky, prefill, pod, best.pod);
      assert false;
    }
  }

  /** With the counters at rest between filter and scoring, no eligible pod leads by that much. */
  lemma SettledPlanNotFarBehind(role: Role, s: Registry, chain: seq<u64>, catalog: UpstreamCatalog, inflight: seq<nat>,
                                available: set<nat>, groupName: string, sticky: Option<nat>, prefill: Option<nat>,
                                best: CandidateScore, pod: nat)
    requires var eligible := Eligible(catalog, inflight, available, groupName, role);
      && ChosenBy(Known(s, chain), |chain|, catalog, inflight, eligible, DEFAULT_SCORE_STAGE.WeightsFor(role), sticky, prefill,
                  best)
      && pod in eligible
    requires chain != []
    ensures !LeadDecides(role, |chain|, KnownDepth(s, chain, pod) - KnownDepth(s, chain, best.pod), prefill, pod, best.pod)
  {
    hide KnownDepth, Eligible, FinalScore, LeadDecides;
    EligibleIsListed(catalog, inflight, available, groupName, role);
    if LeadDecides(role, |chain|, KnownDepth(s, chain, pod) - KnownDepth(s, chain, best.pod), prefill, pod, best.pod) {
      PlannedPodNotFarBehind(role, Known(s, chain), |chain|, catalog, inflight,
                             Eligible(catalog, inflight, available, groupName, role), sticky, prefill, best, pod);
      assert false;
    }
  }

  /** The decode pod of a plan under the default weights is the prefill pod itself if that is eligible
      and no other eligible pod is ahead of it in depth or in load, whichever pod is sticky. */
  lemma DecodeStaysWithPrefill(depthOf: nat -> nat, n: nat, catalog: UpstreamCatalog, inflight: seq<nat>, eligible: set<nat>,
                               sticky: Option<nat>, prefill: nat, best: CandidateScore)
    requires ChosenBy(depthOf, n, catalog, inflight, eligible, DEFAULT_SCORE_STAGE.WeightsFor(Decode), sticky, Some(prefill),
                      best)
    requires prefill in eligible
    requires forall p :: p in eligible ==> depthOf(p) <= depthOf(prefill)
    requires forall p :: p in eligible ==> LoadAt(catalog, inflight, p) <= LoadAt(catalog, inflight, prefill)
    ensures best.pod == prefill
  {
    hide FinalScore, LoadScore;
    if best.pod != prefill {
      PrefillPodKeepsDecode(n, depthOf(prefill), depthOf(best.pod),
                            if prefill < |inflight| then inflight[prefill] else 0,
                            if prefill < |catalog.pods| then catalog.pods[prefill].maxConns else 0,
                            if best.pod < |inflight| then inflight[best.pod] else 0,
                            if best.pod < |catalog.pods| then catalog.pods[best.pod].maxConns else 0,
                            sticky, prefill, best.pod);
      assert false;
    }
  }

  ghost function LoadAt(catalog: UpstreamCatalog, inflight: seq<nat>, pod: nat): real {
    LoadScore(if pod < |inflight| then inflight[pod] else 0, if pod < |catalog.pods| then catalog.pods[pod].maxConns else 0)
  }
}
