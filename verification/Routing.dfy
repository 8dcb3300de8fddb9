/** Filter, score and pick (src/calinix/routing), over exact rationals instead of f64. */
module Routing {
  import opened Wrappers
  import opened Bitmap
  import opened Load

  datatype Role = Single | Prefill | Decode

  datatype Capabilities = Capabilities(single: bool, prefill: bool, decode: bool) {
    predicate Supports(role: Role) {
      match role
      case Single => single
      case Prefill => prefill
      case Decode => decode
    }
  }

  datatype PodEndpoint = PodEndpoint(id: nat, address: string, healthy: bool, draining: bool, maxConns: nat,
                                     capabilities: Capabilities)

  datatype UpstreamGroup = UpstreamGroup(name: string, role: Role, podBitmap: HostBitmap)

  datatype UpstreamCatalog = UpstreamCatalog(pods: seq<PodEndpoint>, groups: seq<UpstreamGroup>) {
    /** `pod`: by position, if the entry there carries that id. */
    function Pod(id: nat): Option<PodEndpoint> {
      if id < |pods| && pods[id].id == id then Some(pods[id]) else None
    }
  }

  ghost predicate FirstNamed(groups: seq<UpstreamGroup>, name: string, i: nat)
    requires i < |groups|
  {
    groups[i].name == name && forall j :: 0 <= j < i ==> groups[j].name != name
  }

  /** `group_by_name`: the first group of that name. */
  function GroupByName(groups: seq<UpstreamGroup>, name: string): (g: Option<UpstreamGroup>)
    ensures g.Some? ==> exists i :: 0 <= i < |groups| && groups[i] == g.value && FirstNamed(groups, name, i)
    ensures g.None? ==> forall i :: 0 <= i < |groups| ==> groups[i].name != name
  {
    if groups == [] then None
    else if groups[0].name == name then
      assert FirstNamed(groups, name, 0);
      Some(groups[0])
    else
      assert forall i :: 0 < i < |groups| && FirstNamed(groups[1..], name, i - 1) ==> FirstNamed(groups, name, i);
      GroupByName(groups[1..], name)
  }

  datatype RoutingError = NoCandidates | MissingPod(pod: nat)

  // Filter

  /** The pod may take a request of this role now. */
  predicate Ready(catalog: UpstreamCatalog, inflight: seq<nat>, role: Role, pod: nat) {
    match catalog.Pod(pod)
    case None => false
    case Some(p) =>
      && p.healthy && !p.draining && p.capabilities.Supports(role)
      && pod < |inflight| && inflight[pod] < p.maxConns
  }

  ghost function Eligible(catalog: UpstreamCatalog, inflight: seq<nat>, available: set<nat>, groupName: string, role: Role): set<nat> {
    match GroupByName(catalog.groups, groupName)
    case None => {}
    case Some(group) =>
      if group.role != role then {}
      else set p | p in group.podBitmap.Pods() * available && Ready(catalog, inflight, role, p)
  }

  /** A pod is eligible if and only if the first group of that name has the role and lists the pod,
      the pod is available, and the catalog entry at its position carries its id, is healthy, is not
      draining, has the capability and is below its capacity. */
  lemma EligibleExactly(catalog: UpstreamCatalog, inflight: seq<nat>, available: set<nat>, groupName: string, role: Role, p: nat)
    ensures p in Eligible(catalog, inflight, available, groupName, role) <==>
      && p in available
      && (exists g: nat :: g < |catalog.groups|
            && catalog.groups[g].name == groupName
            && (forall j :: 0 <= j < g ==> catalog.groups[j].name != groupName)
            && catalog.groups[g].role == role && p in catalog.groups[g].podBitmap.Pods())
      && p < |catalog.pods| && catalog.pods[p].id == p
      && catalog.pods[p].healthy && !catalog.pods[p].draining
      && (role == Single ==> catalog.pods[p].capabilities.single)
      && (role == Prefill ==> catalog.pods[p].capabilities.prefill)
      && (role == Decode ==> catalog.pods[p].capabilities.decode)
      && p < |inflight| && inflight[p] < catalog.pods[p].maxConns
  {
    hide HostBitmap.Pods, Ready, GroupByName;
    FirstGroupLists(catalog.groups, groupName, role, p);
    ReadyExactly(catalog, inflight, role, p);
  }

  lemma FirstGroupLists(groups: seq<UpstreamGroup>, name: string, role: Role, p: nat)
    ensures
      (exists g: nat :: g < |groups| && groups[g].name == name && (forall j :: 0 <= j < g ==> groups[j].name != name)
         && groups[g].role == role && p in groups[g].podBitmap.Pods())
      <==> var group := GroupByName(groups, name); group.Some? && group.value.role == role && p in group.value.podBitmap.Pods()
  {
    hide HostBitmap.Pods, GroupByName;
    var group := GroupByName(groups, name);
    if group.Some? {
      var i :| 0 <= i < |groups| && groups[i] == group.value && FirstNamed(groups, name, i);
      assert forall g :: 0 <= g < |groups| && FirstNamed(groups, name, g) ==> g == i;
    }
  }

  lemma ReadyExactly(catalog: UpstreamCatalog, inflight: seq<nat>, role: Role, p: nat)
    ensures Ready(catalog, inflight, role, p) <==>
      && p < |catalog.pods| && catalog.pods[p].id == p
      && catalog.pods[p].healthy && !catalog.pods[p].draining
      && (role == Single ==> catalog.pods[p].capabilities.single)
      && (role == Prefill ==> catalog.pods[p].capabilities.prefill)
      && (role == Decode ==> catalog.pods[p].capabilities.decode)
      && p < |inflight| && inflight[p] < catalog.pods[p].maxConns
  {
  }

  /** Draining a pod takes it out of every role at once and touches nobody else. */
  lemma DrainingRemoves(catalog: UpstreamCatalog, inflight: seq<nat>, available: set<nat>, groupName: string, role: Role, d: nat)
    requires d < |catalog.pods|
    ensures var drained := catalog.(pods := catalog.pods[d := catalog.pods[d].(draining := true)]);
      Eligible(drained, inflight, available, groupName, role) == Eligible(catalog, inflight, available, groupName, role) - {d}
  {
    hide Eligible, HostBitmap.Pods;
    var drained := catalog.(pods := catalog.pods[d := catalog.pods[d].(draining := true)]);
    forall p: nat
      ensures p in Eligible(drained, inflight, available, groupName, role) <==>
        p in Eligible(catalog, inflight, available, groupName, role) && p != d
    {
      EligibleExactly(drained, inflight, available, groupName, role, p);
      EligibleExactly(catalog, inflight, available, groupName, role, p);
    }
  }

  /** `eligible_candidates` */
  method EligibleCandidates(catalog: UpstreamCatalog, loads: LoadState, available: HostBitmap, groupName: string, role: Role)
    returns (eligible: HostBitmap)
    ensures eligible.Pods() == Eligible(catalog, loads.inflight[..], available.Pods(), groupName, role)
  {
    hide HostBitmap.Pods, HostBitmap.And, HostBitmap.Set;
    eligible := HostBitmap.Empty();
    var group := GroupByName(catalog.groups, groupName);
    if group.None? || group.value.role != role {
      return;
    }
    var both := group.value.podBitmap.And(available);
    var visited := both.IterSetBits();
    for i := 0 to |visited|
      invariant forall p :: p in eligible.Pods() <==> p in visited[..i] && Ready(catalog, loads.inflight[..], role, p)
    {
      var pod := visited[i];
      assert pod in visited;
      PodInRange(both, pod);
      assert visited[..i + 1] == visited[..i] + [pod];
      var endpoint := catalog.Pod(pod);
      if endpoint.Some? {
        var p := endpoint.value;
        if p.healthy && !p.draining && p.capabilities.Supports(role) && loads.CanAccept(p.id, p.maxConns) {
          eligible := eligible.Set(pod);
        }
      }
    }
    assert visited[..|visited|] == visited;
  }

  // Score

  datatype ScoreWeights = ScoreWeights(cache: real, load: real, sticky: real, locality: real)

  const DEFAULT_SINGLE_WEIGHTS := ScoreWeights(0.60, 0.30, 0.10, 0.0)
  const DEFAULT_PREFILL_WEIGHTS := ScoreWeights(0.65, 0.25, 0.10, 0.0)
  const DEFAULT_DECODE_WEIGHTS := ScoreWeights(0.10, 0.55, 0.10, 0.25)

  /** `RoutingPipeline::default` */
  const DEFAULT_SCORE_STAGE := ScoreStage(DEFAULT_SINGLE_WEIGHTS, DEFAULT_PREFILL_WEIGHTS, DEFAULT_DECODE_WEIGHTS)

  datatype ScoreStage = ScoreStage(singleWeights: ScoreWeights, prefillWeights: ScoreWeights, decodeWeights: ScoreWeights) {
    function WeightsFor(role: Role): ScoreWeights {
      match role
      case Single => singleWeights
      case Prefill => prefillWeights
      case Decode => decodeWeights
    }
  }

  datatype CandidateScore = CandidateScore(pod: nat, cachePrefixDepth: nat, finalScore: real)

  /** `LoadState::score`, clamped to [0, 100]. */
  function LoadScore(inflight: nat, maxConns: nat): real {
    if maxConns == 0 then 0.0
    else
      var score := 100.0 * (1.0 - inflight as real / maxConns as real);
      if score < 0.0 then 0.0 else if score > 100.0 then 100.0 else score
  }

  function CacheScore(depth: nat, maxDepth: nat): real {
    if maxDepth == 0 then 0.0 else 100.0 * depth as real / maxDepth as real
  }

  function Bonus(selected: Option<nat>, pod: nat): real {
    if selected == Some(pod) then 100.0 else 0.0
  }

  function FinalScore(w: ScoreWeights, depth: nat, maxDepth: nat, inflight: nat, maxConns: nat,
                      sticky: Option<nat>, prefill: Option<nat>, pod: nat): real {
    CacheScore(depth, maxDepth) * w.cache + LoadScore(inflight, maxConns) * w.load
      + Bonus(sticky, pod) * w.sticky + Bonus(prefill, pod) * w.locality
  }

  /** Everything a score depends on besides the pod. */
  datatype ScoreInput = ScoreInput(weights: ScoreWeights, maxDepth: nat, depths: seq<nat>, catalog: UpstreamCatalog,
                                   inflight: seq<nat>, sticky: Option<nat>, prefill: Option<nat>)

  /** `score_candidate` */
  function Score(input: ScoreInput, pod: nat): Option<CandidateScore> {
    match input.catalog.Pod(pod)
    case None => None
    case Some(endpoint) =>
      var depth := if pod < |input.depths| then input.depths[pod] else 0;
      var inflight := if pod < |input.inflight| then input.inflight[pod] else 0;
      Some(CandidateScore(pod, depth, FinalScore(input.weights, depth, input.maxDepth, inflight, endpoint.maxConns,
                                                 input.sticky, input.prefill, pod)))
  }

  /** `better_candidate_order(a, b) == Less`: a higher score, or the smaller id on a tie. */
  predicate Better(a: CandidateScore, b: CandidateScore) {
    a.finalScore > b.finalScore || (a.finalScore == b.finalScore && a.pod < b.pod)
  }

  /** No smaller score than any of the pods that can be scored, and the smallest id at that score. */
  ghost predicate IsTop(input: ScoreInput, pods: set<nat>, best: CandidateScore) {
    && best.pod in pods && Score(input, best.pod) == Some(best)
    && forall p :: p in pods && Score(input, p).Some? ==>
         var score := Score(input, p).value.finalScore;
         best.finalScore > score || (best.finalScore == score && best.pod <= p)
  }

  /** `best_candidate`: a running best over the set bits. */
  method BestCandidate(input: ScoreInput, candidates: HostBitmap) returns (r: Result<CandidateScore, RoutingError>)
    ensures r.Ok? ==> IsTop(input, candidates.Pods(), r.value)
    ensures r.Err? ==> r.error == NoCandidates && forall p :: p in candidates.Pods() ==> Score(input, p).None?
  {
    hide HostBitmap.Pods, Score;
    var best: Option<CandidateScore> := None;
    var visited := candidates.IterSetBits();
    forall p ensures Score(input, p).Some? ==> Score(input, p).value.pod == p {
      ScoreNamesPod(input, p);
    }
    for i := 0 to |visited|
      invariant best.None? ==> forall j :: 0 <= j < i ==> Score(input, visited[j]).None?
      invariant best.Some? ==>
        && (exists j :: 0 <= j < i && Score(input, visited[j]) == best)
        && (forall j :: 0 <= j < i && Score(input, visited[j]).Some? ==> !Better(Score(input, visited[j]).value, best.value))
    {
      var score := Score(input, visited[i]);
      if score.Some? && (best.None? || Better(score.value, best.value)) {
        best := score;
      }
    }
    forall p | p in candidates.Pods() ensures exists j :: 0 <= j < |visited| && visited[j] == p {
      assert p in visited;
    }
    if best.None? {
      return Err(NoCandidates);
    }
    var j :| 0 <= j < |visited| && Score(input, visited[j]) == best;
    assert visited[j] in visited;
    r := Ok(best.value);
  }

  lemma ScoreNamesPod(input: ScoreInput, pod: nat)
    ensures Score(input, pod).Some? ==> Score(input, pod).value.pod == pod
  {
  }

  // Pick: the same choice over a list of scores

  /** `max_by` with the comparator of `pick_best`: the later of two elements wins unless the
      earlier one is strictly greater. */
  function PickBest(scores: seq<CandidateScore>): Option<CandidateScore> {
    if scores == [] then None
    else
      var last := scores[|scores| - 1];
      match PickBest(scores[..|scores| - 1])
      case None => Some(last)
      case Some(best) => if Better(best, last) then Some(best) else Some(last)
  }

  /** The running best of `best_candidate`, visiting the scores in list order. */
  function FoldBest(scores: seq<CandidateScore>): Option<CandidateScore> {
    if scores == [] then None
    else
      var last := scores[|scores| - 1];
      match FoldBest(scores[..|scores| - 1])
      case None => Some(last)
      case Some(best) => if Better(last, best) then Some(last) else Some(best)
  }

  ghost predicate TopOf(scores: seq<CandidateScore>, best: Option<CandidateScore>) {
    if scores == [] then best == None
    else
      && best.Some? && best.value in scores
      && forall s :: s in scores ==>
           best.value.finalScore > s.finalScore || (best.value.finalScore == s.finalScore && best.value.pod <= s.pod)
  }

  lemma {:induction false} BothFindTop(scores: seq<CandidateScore>)
    ensures TopOf(scores, PickBest(scores)) && TopOf(scores, FoldBest(scores))
  {
    if scores != [] {
      var init, last := scores[..|scores| - 1], scores[|scores| - 1];
      BothFindTop(init);
      assert scores == init + [last];
    }
  }

  ghost predicate DistinctPods(scores: seq<CandidateScore>) {
    forall i, j :: 0 <= i < j < |scores| ==> scores[i].pod != scores[j].pod
  }

  /** The list form and the running best choose the same score, in whatever orders the two lists
      of one score per pod are visited. */
  lemma PickIsFold(scores: seq<CandidateScore>, reordered: seq<CandidateScore>)
    requires DistinctPods(scores) && forall s :: s in scores <==> s in reordered
    ensures PickBest(scores) == FoldBest(reordered)
  {
    BothFindTop(scores);
    BothFindTop(reordered);
    if scores != [] {
      assert scores[0] in reordered;
      var a, b := PickBest(scores).value, FoldBest(reordered).value;
      var i :| 0 <= i < |scores| && scores[i] == a;
      var j :| 0 <= j < |scores| && scores[j] == b;
    }
  }

  // What a score is worth

  lemma Distribute(x: real, y: real, m: real)
    ensures (x - y) * m == x * m - y * m && (x + y) * m == x * m + y * m
  {
  }

  lemma ScaledLess(x: real, y: real, m: real)
    requires m > 0.0
    ensures x * m < y * m <==> x < y
  {
    Distribute(x, y, m);
    assert (x - y) * m < 0.0 <==> x - y < 0.0;
  }

  lemma LoadTimes(inflight: nat, maxConns: nat)
    ensures var room := if inflight < maxConns then maxConns - inflight else 0;
      LoadScore(inflight, maxConns) * (if maxConns == 0 then 1 else maxConns) as real == 100.0 * room as real
    ensures 0.0 <= LoadScore(inflight, maxConns) <= 100.0
    ensures inflight < maxConns ==> LoadScore(inflight, maxConns) > 0.0
  {
    if maxConns > 0 {
      var q, m := inflight as real / maxConns as real, maxConns as real;
      assert q * m == inflight as real;
      Distribute(1.0, q, m);
      ScaledLess(0.0, q, m);
      ScaledLess(q, 1.0, m);
    }
  }

  ghost function CachePart(w: ScoreWeights, depth: nat, n: nat): real {
    CacheScore(depth, n) * w.cache
  }

  ghost function LoadPart(w: ScoreWeights, inflight: nat, maxConns: nat): real {
    LoadScore(inflight, maxConns) * w.load
  }

  lemma FinalParts(w: ScoreWeights, depth: nat, n: nat, inflight: nat, maxConns: nat, sticky: Option<nat>,
                   prefill: Option<nat>, pod: nat)
    ensures var extra := (if sticky == Some(pod) then w.sticky else 0.0) + (if prefill == Some(pod) then w.locality else 0.0);
      FinalScore(w, depth, n, inflight, maxConns, sticky, prefill, pod)
        == CachePart(w, depth, n) + LoadPart(w, inflight, maxConns) + 100.0 * extra
  {
    hide LoadScore, CacheScore;
  }

  lemma CachePartTimes(w: ScoreWeights, depth: nat, n: nat)
    requires n > 0
    ensures CachePart(w, depth, n) * n as real == 100.0 * (w.cache * depth as real)
  {
    hide CacheScore;
    CacheIs(depth, n);
    var x, m := CacheScore(depth, n), n as real;
    assert (x * w.cache) * m == (x * m) * w.cache;
  }

  lemma CachePartInRange(w: ScoreWeights, depth: nat, n: nat)
    requires depth <= n && w.cache >= 0.0
    ensures 0.0 <= CachePart(w, depth, n) <= 100.0 * if n == 0 then 0.0 else w.cache
  {
    hide CacheScore;
    CacheIs(depth, n);
    if n > 0 {
      ScaledLess(CacheScore(depth, n), 0.0, n as real);
      ScaledLess(100.0, CacheScore(depth, n), n as real);
      Product(CacheScore(depth, n), w.cache);
      Product(100.0 - CacheScore(depth, n), w.cache);
      Distribute(100.0, CacheScore(depth, n), w.cache);
    }
  }

  lemma Product(x: real, y: real)
    requires x >= 0.0 && y >= 0.0
    ensures x * y >= 0.0
    ensures x > 0.0 && y > 0.0 ==> x * y > 0.0
  {
  }

  lemma LoadPartTimes(w: ScoreWeights, inflight: nat, maxConns: nat)
    ensures var room := if inflight < maxConns then maxConns - inflight else 0;
      LoadPart(w, inflight, maxConns) * (if maxConns == 0 then 1 else maxConns) as real == 100.0 * (w.load * room as real)
    ensures inflight >= maxConns ==> LoadPart(w, inflight, maxConns) == 0.0
  {
    hide LoadScore;
    LoadTimes(inflight, maxConns);
    var u, m := LoadScore(inflight, maxConns), (if maxConns == 0 then 1 else maxConns) as real;
    assert (u * w.load) * m == (u * m) * w.load;
    ScaledLess(0.0, u, m);
  }

  lemma LoadPartInRange(w: ScoreWeights, inflight: nat, maxConns: nat)
    requires w.load > 0.0
    ensures 0.0 <= LoadPart(w, inflight, maxConns) <= 100.0 * w.load
    ensures inflight < maxConns ==> LoadPart(w, inflight, maxConns) > 0.0
  {
    hide LoadScore;
    LoadTimes(inflight, maxConns);
    Product(LoadScore(inflight, maxConns), w.load);
    Product(100.0 - LoadScore(inflight, maxConns), w.load);
    Distribute(100.0, LoadScore(inflight, maxConns), w.load);
  }

  lemma IdleLoad(w: ScoreWeights, maxConns: nat)
    requires maxConns > 0
    ensures LoadPart(w, 0, maxConns) == 100.0 * w.load
  {
    assert LoadScore(0, maxConns) == 100.0;
  }

  lemma PartsMonotone(w: ScoreWeights, depth: nat, otherDepth: nat, n: nat, inflight: nat, maxConns: nat,
                      otherInflight: nat, otherMax: nat)
    requires w.cache >= 0.0 && w.load >= 0.0
    requires depth >= otherDepth && LoadScore(inflight, maxConns) >= LoadScore(otherInflight, otherMax)
    ensures CachePart(w, depth, n) >= CachePart(w, otherDepth, n)
    ensures LoadPart(w, inflight, maxConns) >= LoadPart(w, otherInflight, otherMax)
  {
    hide LoadScore, CacheScore;
    var x, y, u, v := CacheScore(depth, n), CacheScore(otherDepth, n), LoadScore(inflight, maxConns), LoadScore(otherInflight, otherMax);
    CacheIs(depth, n);
    CacheIs(otherDepth, n);
    if n > 0 {
      ScaledLess(x, y, n as real);
    }
    Product(x - y, w.cache);
    Product(u - v, w.load);
    Distribute(x, y, w.cache);
    Distribute(u, v, w.load);
  }

  lemma Scaled(x: real, y: real, cache: real, load: real, extra: real, cached: real, room: real, n: real, m: real)
    requires x * n == 100.0 * cached && y * m == 100.0 * room
    ensures (x * cache + y * load + 100.0 * extra) * (n * m)
      == 100.0 * (cache * cached * m + load * room * n + extra * n * m)
  {
    assert (x * n) * (cache * m) == (100.0 * cached) * (cache * m);
    assert (y * m) * (load * n) == (100.0 * room) * (load * n);
  }

  /** The score times chain length and capacity, 0 read as 1 in both: no quotients and no clamping. */
  lemma ScoreTimes(w: ScoreWeights, depth: nat, n: nat, inflight: nat, maxConns: nat, sticky: Option<nat>,
                   prefill: Option<nat>, pod: nat)
    ensures var length, capacity := (if n == 0 then 1 else n) as real, (if maxConns == 0 then 1 else maxConns) as real;
      var cached, room := (if n == 0 then 0 else depth) as real, (if inflight < maxConns then maxConns - inflight else 0) as real;
      var extra := (if sticky == Some(pod) then w.sticky else 0.0) + (if prefill == Some(pod) then w.locality else 0.0);
      FinalScore(w, depth, n, inflight, maxConns, sticky, prefill, pod) * (length * capacity)
        == 100.0 * (w.cache * cached * capacity + w.load * room * length + extra * length * capacity)
  {
    hide LoadScore, CacheScore, FinalScore;
    var length, capacity := (if n == 0 then 1 else n) as real, (if maxConns == 0 then 1 else maxConns) as real;
    var cached, room := (if n == 0 then 0 else depth) as real, (if inflight < maxConns then maxConns - inflight else 0) as real;
    var extra := (if sticky == Some(pod) then w.sticky else 0.0) + (if prefill == Some(pod) then w.locality else 0.0);
    CacheIs(depth, n);
    LoadTimes(inflight, maxConns);
    FinalParts(w, depth, n, inflight, maxConns, sticky, prefill, pod);
    Scaled(CacheScore(depth, n), LoadScore(inflight, maxConns), w.cache, w.load, extra, cached, room, length, capacity);
  }

  lemma CacheIs(depth: nat, n: nat)
    ensures n == 0 ==> CacheScore(depth, n) == 0.0
    ensures n > 0 ==> CacheScore(depth, n) * n as real == 100.0 * depth as real
  {
  }

  /** The default stage role by role, in points of a hundred. */
  lemma DefaultScores(role: Role, depth: nat, n: nat, inflight: nat, maxConns: nat, sticky: Option<nat>,
                      prefill: Option<nat>, pod: nat)
    ensures var length, capacity := (if n == 0 then 1 else n) as real, (if maxConns == 0 then 1 else maxConns) as real;
      var cached, room := (if n == 0 then 0 else depth) as real, (if inflight < maxConns then maxConns - inflight else 0) as real;
      FinalScore(DEFAULT_SCORE_STAGE.WeightsFor(role), depth, n, inflight, maxConns, sticky, prefill, pod) * (length * capacity)
        == (match role
            case Single => 60.0 * cached * capacity + 30.0 * room * length
            case Prefill => 65.0 * cached * capacity + 25.0 * room * length
            case Decode => 10.0 * cached * capacity + 55.0 * room * length)
           + (if sticky == Some(pod) then 10.0 * length * capacity else 0.0)
           + (if role == Decode && prefill == Some(pod) then 25.0 * length * capacity else 0.0)
  {
    hide FinalScore;
    ScoreTimes(DEFAULT_SCORE_STAGE.WeightsFor(role), depth, n, inflight, maxConns, sticky, prefill, pod);
  }

  // The weight of a cache lead

  /** Under these weights the first pod scores above the other one. */
  ghost predicate Ahead(w: ScoreWeights, n: nat, lead: nat, behind: nat, inflight: nat, maxConns: nat, otherInflight: nat,
                        otherMax: nat, sticky: Option<nat>, prefill: Option<nat>, pod: nat, other: nat) {
    FinalScore(w, lead, n, inflight, maxConns, sticky, prefill, pod)
      > FinalScore(w, behind, n, otherInflight, otherMax, sticky, prefill, other)
  }

  /** The share of the cache weight that a lead brings reaches all that the other pod can have against it. */
  ghost predicate Outweighs(w: ScoreWeights, n: nat, lead: nat, behind: nat, prefill: Option<nat>, pod: nat, other: nat) {
    w.cache * (lead - behind) as real >= Against(w, prefill, pod, other) * n as real
  }

  ghost function Against(w: ScoreWeights, prefill: Option<nat>, pod: nat, other: nat): real {
    w.load + w.sticky + (if prefill == Some(other) then w.locality else 0.0)
      - (if prefill == Some(pod) then w.locality else 0.0)
  }

  lemma OutweighsIs(w: ScoreWeights, n: nat, lead: nat, behind: nat, prefill: Option<nat>, pod: nat, other: nat)
    requires n > 0
    ensures Outweighs(w, n, lead, behind, prefill, pod, other) <==>
      CachePart(w, lead, n) - CachePart(w, behind, n) >= 100.0 * Against(w, prefill, pod, other)
  {
    hide CachePart, Against;
    var x, y, m, k := CachePart(w, lead, n), CachePart(w, behind, n), n as real, Against(w, prefill, pod, other);
    CachePartTimes(w, lead, n);
    CachePartTimes(w, behind, n);
    Distribute(x, y, m);
    assert w.cache * (lead - behind) as real == w.cache * lead as real - w.cache * behind as real;
    assert 100.0 * k * m == 100.0 * (k * m);
    ScaledLess(x - y, 100.0 * k, m);
  }

  /** Such a lead decides against any load and stickiness, as long as the leader has a free slot. */
  lemma CacheLeadWins(w: ScoreWeights, n: nat, lead: nat, behind: nat, inflight: nat, maxConns: nat, otherInflight: nat,
                      otherMax: nat, sticky: Option<nat>, prefill: Option<nat>, pod: nat, other: nat)
    requires n > 0 && pod != other && w.load > 0.0 && w.sticky >= 0.0
    requires Outweighs(w, n, lead, behind, prefill, pod, other) && inflight < maxConns
    ensures Ahead(w, n, lead, behind, inflight, maxConns, otherInflight, otherMax, sticky, prefill, pod, other)
  {
    hide LoadPart, CachePart, Outweighs, FinalScore;
    OutweighsIs(w, n, lead, behind, prefill, pod, other);
    LoadPartInRange(w, inflight, maxConns);
    LoadPartInRange(w, otherInflight, otherMax);
    FinalParts(w, lead, n, inflight, maxConns, sticky, prefill, pod);
    FinalParts(w, behind, n, otherInflight, otherMax, sticky, prefill, other);
  }

  /** No smaller lead suffices: with enough slots, all but one of them taken, the leader loses to an
      idle, sticky pod. */
  lemma SmallerLeadCanLose(w: ScoreWeights, n: nat, lead: nat, behind: nat, prefill: Option<nat>, pod: nat, other: nat)
    returns (maxConns: nat)
    requires n > 0 && pod != other && w.load > 0.0
    requires !Outweighs(w, n, lead, behind, prefill, pod, other)
    ensures maxConns > 0
    ensures FinalScore(w, lead, n, maxConns - 1, maxConns, Some(other), prefill, pod)
      < FinalScore(w, behind, n, 0, maxConns, Some(other), prefill, other)
  {
    hide LoadPart, CachePart, Outweighs, FinalScore;
    OutweighsIs(w, n, lead, behind, prefill, pod, other);
    var short := 100.0 * Against(w, prefill, pod, other) - (CachePart(w, lead, n) - CachePart(w, behind, n));
    maxConns := EnoughSlots(100.0 * w.load, short);
    LoadPartTimes(w, maxConns - 1, maxConns);
    ScaledLess(LoadPart(w, maxConns - 1, maxConns), short, maxConns as real);
    IdleLoad(w, maxConns);
    FinalParts(w, lead, n, maxConns - 1, maxConns, Some(other), prefill, pod);
    FinalParts(w, behind, n, 0, maxConns, Some(other), prefill, other);
  }

  lemma EnoughSlots(x: real, d: real) returns (k: nat)
    requires x > 0.0 && d > 0.0
    ensures k > 0 && d * k as real > x
  {
    var q := x / d;
    assert q * d == x;
    ScaledLess(0.0, q, d);
    k := q.Floor + 1;
    ScaledLess(q, k as real, d);
  }

  /** The lead that decides a route under every load that leaves the leader a free slot and for every
      sticky pod: exactly the one that outweighs load, stickiness and locality together. */
  lemma CacheLeadDecidesExactly(w: ScoreWeights, n: nat, lead: nat, behind: nat, prefill: Option<nat>, pod: nat, other: nat)
    requires n > 0 && pod != other && w.load > 0.0 && w.sticky >= 0.0
    ensures Outweighs(w, n, lead, behind, prefill, pod, other) <==>
      forall inflight: nat, maxConns: nat, otherInflight: nat, otherMax: nat, sticky: Option<nat> :: inflight < maxConns ==>
        Ahead(w, n, lead, behind, inflight, maxConns, otherInflight, otherMax, sticky, prefill, pod, other)
  {
    hide FinalScore, Outweighs;
    if Outweighs(w, n, lead, behind, prefill, pod, other) {
      forall inflight: nat, maxConns: nat, otherInflight: nat, otherMax: nat, sticky: Option<nat> | inflight < maxConns
        ensures Ahead(w, n, lead, behind, inflight, maxConns, otherInflight, otherMax, sticky, prefill, pod, other)
      {
        CacheLeadWins(w, n, lead, behind, inflight, maxConns, otherInflight, otherMax, sticky, prefill, pod, other);
      }
    } else {
      var maxConns := SmallerLeadCanLose(w, n, lead, behind, prefill, pod, other);
      assert !Ahead(w, n, lead, behind, maxConns - 1, maxConns, 0, maxConns, Some(other), prefill, pod, other);
    }
  }

  /** With the default weights: two thirds of the chain for a single pod, seven thirteenths for a
      prefill pod, and more than any chain has for a decode pod. */
  ghost predicate LeadDecides(role: Role, n: nat, gap: int, prefill: Option<nat>, pod: nat, other: nat) {
    match role
    case Single => 3 * gap >= 2 * n
    case Prefill => 13 * gap >= 7 * n
    case Decode => 2 * gap + (if prefill == Some(pod) then 5 * n else 0) >= 13 * n + (if prefill == Some(other) then 5 * n else 0)
  }

  lemma DefaultOutweighs(role: Role, n: nat, lead: nat, behind: nat, prefill: Option<nat>, pod: nat, other: nat)
    ensures Outweighs(DEFAULT_SCORE_STAGE.WeightsFor(role), n, lead, behind, prefill, pod, other)
      <==> LeadDecides(role, n, lead - behind, prefill, pod, other)
  {
  }

  lemma DefaultLeadDecidesExactly(role: Role, n: nat, lead: nat, behind: nat, prefill: Option<nat>, pod: nat, other: nat)
    requires n > 0 && pod != other
    ensures LeadDecides(role, n, lead - behind, prefill, pod, other) <==>
      forall inflight: nat, maxConns: nat, otherInflight: nat, otherMax: nat, sticky: Option<nat> :: inflight < maxConns ==>
        Ahead(DEFAULT_SCORE_STAGE.WeightsFor(role), n, lead, behind, inflight, maxConns, otherInflight, otherMax, sticky,
              prefill, pod, other)
  {
    hide FinalScore, Outweighs, LeadDecides, Ahead;
    DefaultOutweighs(role, n, lead, behind, prefill, pod, other);
    CacheLeadDecidesExactly(DEFAULT_SCORE_STAGE.WeightsFor(role), n, lead, behind, prefill, pod, other);
  }

  // The weight of an idle pod

  /** What a pod with these weights can have besides load. */
  ghost function Besides(w: ScoreWeights, n: nat): real {
    (if n == 0 then 0.0 else w.cache) + w.sticky + w.locality
  }

  /** The load weight times the taken slots exceeds all other weights times the slots; a pod without
      any slot is full. */
  ghost predicate Busy(w: ScoreWeights, n: nat, inflight: nat, maxConns: nat) {
    var (taken, slots) := if inflight < maxConns then (inflight, maxConns) else (1, 1);
    w.load * taken as real > Besides(w, n) * slots as real
  }

  /** An idle pod scores above another one for all depths, sticky pods and prefill pods exactly when
      the other is that busy. */
  lemma IdleDecidesExactly(w: ScoreWeights, n: nat, idleMax: nat, inflight: nat, maxConns: nat, pod: nat, other: nat)
    requires pod != other && idleMax > 0
    requires w.cache >= 0.0 && w.sticky >= 0.0 && w.locality >= 0.0
    ensures Busy(w, n, inflight, maxConns) <==>
      forall depth: nat, otherDepth: nat, sticky: Option<nat>, prefill: Option<nat> :: depth <= n && otherDepth <= n ==>
        Ahead(w, n, depth, otherDepth, 0, idleMax, inflight, maxConns, sticky, prefill, pod, other)
  {
    hide FinalScore, Busy;
    IdleMargin(w, n, inflight, maxConns);
    if Busy(w, n, inflight, maxConns) {
      forall depth: nat, otherDepth: nat, sticky: Option<nat>, prefill: Option<nat> | depth <= n && otherDepth <= n
        ensures Ahead(w, n, depth, otherDepth, 0, idleMax, inflight, maxConns, sticky, prefill, pod, other)
      {
        IdleWins(w, n, depth, otherDepth, idleMax, inflight, maxConns, sticky, prefill, pod, other);
      }
    } else {
      IdleLoses(w, n, idleMax, inflight, maxConns, pod, other);
      assert !Ahead(w, n, 0, n, 0, idleMax, inflight, maxConns, Some(other), Some(other), pod, other);
    }
  }

  lemma IdleMargin(w: ScoreWeights, n: nat, inflight: nat, maxConns: nat)
    ensures Busy(w, n, inflight, maxConns) <==>
      100.0 * w.load > 100.0 * Besides(w, n) + LoadPart(w, inflight, maxConns)
  {
    hide LoadPart, Besides;
    LoadPartTimes(w, inflight, maxConns);
    var (taken, slots) := if inflight < maxConns then (inflight, maxConns) else (1, 1);
    var v, m, b := LoadPart(w, inflight, maxConns), slots as real, Besides(w, n);
    Distribute(100.0 * b, v, m);
    assert (100.0 * b) * m == 100.0 * (b * m);
    assert (100.0 * w.load) * m == 100.0 * (w.load * m);
    assert w.load * (m - taken as real) == w.load * m - w.load * taken as real;
    ScaledLess(100.0 * b + v, 100.0 * w.load, m);
  }

  lemma IdleWins(w: ScoreWeights, n: nat, depth: nat, otherDepth: nat, idleMax: nat, inflight: nat, maxConns: nat,
                 sticky: Option<nat>, prefill: Option<nat>, pod: nat, other: nat)
    requires idleMax > 0 && depth <= n && otherDepth <= n
    requires w.cache >= 0.0 && w.sticky >= 0.0 && w.locality >= 0.0
    requires 100.0 * w.load > 100.0 * Besides(w, n) + LoadPart(w, inflight, maxConns)
    ensures Ahead(w, n, depth, otherDepth, 0, idleMax, inflight, maxConns, sticky, prefill, pod, other)
  {
    hide LoadPart, CachePart, FinalScore;
    IdleLoad(w, idleMax);
    CachePartInRange(w, depth, n);
    CachePartInRange(w, otherDepth, n);
    FinalParts(w, depth, n, 0, idleMax, sticky, prefill, pod);
    FinalParts(w, otherDepth, n, inflight, maxConns, sticky, prefill, other);
  }

  lemma IdleLoses(w: ScoreWeights, n: nat, idleMax: nat, inflight: nat, maxConns: nat, pod: nat, other: nat)
    requires pod != other && idleMax > 0
    requires 100.0 * w.load <= 100.0 * Besides(w, n) + LoadPart(w, inflight, maxConns)
    ensures !Ahead(w, n, 0, n, 0, idleMax, inflight, maxConns, Some(other), Some(other), pod, other)
  {
    hide LoadPart, CachePart, FinalScore;
    IdleLoad(w, idleMax);
    CacheEnds(w, n);
    FinalParts(w, 0, n, 0, idleMax, Some(other), Some(other), pod);
    FinalParts(w, n, n, inflight, maxConns, Some(other), Some(other), other);
  }

  lemma CacheEnds(w: ScoreWeights, n: nat)
    ensures CachePart(w, 0, n) == 0.0
    ensures CachePart(w, n, n) == 100.0 * if n == 0 then 0.0 else w.cache
  {
    assert CacheScore(0, n) == 0.0 && CacheScore(n, n) == if n == 0 then 0.0 else 100.0;
  }

  /** With the default weights an idle decode pod beats another one whatever their depths, the sticky
      pod and the prefill pod exactly when more than nine elevenths of the other's slots are taken,
      or seven elevenths if there is no chain. */
  lemma IdleDecodePodDecidesExactly(n: nat, idleMax: nat, inflight: nat, maxConns: nat, pod: nat, other: nat)
    requires pod != other && idleMax > 0
    ensures maxConns == 0 || 11 * inflight > (if n == 0 then 7 else 9) * maxConns <==>
      forall depth: nat, otherDepth: nat, sticky: Option<nat>, prefill: Option<nat> :: depth <= n && otherDepth <= n ==>
        Ahead(DEFAULT_SCORE_STAGE.WeightsFor(Decode), n, depth, otherDepth, 0, idleMax, inflight, maxConns, sticky, prefill,
              pod, other)
  {
    hide FinalScore, Ahead;
    IdleDecidesExactly(DEFAULT_SCORE_STAGE.WeightsFor(Decode), n, idleMax, inflight, maxConns, pod, other);
  }

  /** The prefill pod decodes too, whichever pod is sticky, unless the other one is ahead of it in
      depth or in load. */
  lemma PrefillPodKeepsDecode(n: nat, depth: nat, otherDepth: nat, inflight: nat, maxConns: nat, otherInflight: nat,
                              otherMax: nat, sticky: Option<nat>, pod: nat, other: nat)
    requires pod != other && depth >= otherDepth && LoadScore(inflight, maxConns) >= LoadScore(otherInflight, otherMax)
    ensures Ahead(DEFAULT_SCORE_STAGE.WeightsFor(Decode), n, depth, otherDepth, inflight, maxConns, otherInflight, otherMax,
                  sticky, Some(pod), pod, other)
  {
    hide LoadScore, LoadPart, CachePart, FinalScore;
    var w := DEFAULT_SCORE_STAGE.WeightsFor(Decode);
    PartsMonotone(w, depth, otherDepth, n, inflight, maxConns, otherInflight, otherMax);
    FinalParts(w, depth, n, inflight, maxConns, sticky, Some(pod), pod);
    FinalParts(w, otherDepth, n, otherInflight, otherMax, sticky, Some(pod), other);
  }
}
