/** What a parallel binary search has established between two lookups while other threads change
    the index: where every pod is, what the lookups justify, and how much work is left. */
module SearchState {
  import opened Integers
  import opened PrefixSearch
  import opened FlatRegistry
  import opened Interleavings
  import opened FrameStack

  // Lookups and the steps between them

  /** One index lookup of a query: which hash of the chain, and the registry it found. */
  datatype Lookup = Lookup(index: nat, at: Registry)

  /** Every lookup saw the registry as the other threads had left it by then. */
  ghost predicate History(probes: seq<Lookup>, others: nat -> seq<Step>, start: Registry, n: nat) {
    forall k :: 0 <= k < |probes| ==>
      probes[k].index < n && probes[k].at == Run(start, Interleaved(others, k + 1))
  }

  ghost predicate SawOwner(probes: seq<Lookup>, chain: seq<u64>, pod: nat, i: nat)
    requires i < |chain|
  {
    exists k :: 0 <= k < |probes| && probes[k].index == i && pod in probes[k].at.Owners(chain[i])
  }

  ghost predicate SawNotOwner(probes: seq<Lookup>, chain: seq<u64>, pod: nat, i: nat)
    requires i < |chain|
  {
    exists k :: 0 <= k < |probes| && probes[k].index == i && pod !in probes[k].at.Owners(chain[i])
  }

  /** The lookups justify that the depth of the pod lies in [lo, hi]. */
  ghost predicate Justified(probes: seq<Lookup>, chain: seq<u64>, pod: nat, lo: nat, hi: nat) {
    && lo <= hi <= |chain|
    && (lo > 0 ==> SawOwner(probes, chain, pod, lo - 1))
    && (hi < |chain| ==> SawNotOwner(probes, chain, pod, hi))
  }

  lemma HistoryNone(start: Registry, others: nat -> seq<Step>, n: nat)
    ensures Run(start, Interleaved(others, 0)) == start && History([], others, start, n)
  {
  }

  lemma HistoryNext(probes: seq<Lookup>, others: nat -> seq<Step>, start: Registry, n: nat, last: Lookup)
    requires History(probes, others, start, n)
    requires last.index < n && last.at == Run(start, Interleaved(others, |probes| + 1))
    ensures History(probes + [last], others, start, n)
  {
    hide Run, Interleaved;
  }

  // How the answer relates to the index at the start

  /** No lookup found the pod without a hash that it owned at the start. */
  ghost predicate NotLost(probes: seq<Lookup>, chain: seq<u64>, start: Registry, pod: nat) {
    forall k :: 0 <= k < |probes| && probes[k].index < |chain| ==> KeptAt(probes[k], chain, start, pod)
  }

  /** No lookup found the pod on a hash that it did not own at the start. */
  ghost predicate NotGained(probes: seq<Lookup>, chain: seq<u64>, start: Registry, pod: nat) {
    forall k :: 0 <= k < |probes| && probes[k].index < |chain| ==> NotNewAt(probes[k], chain, start, pod)
  }

  ghost predicate KeptAt(probe: Lookup, chain: seq<u64>, start: Registry, pod: nat)
    requires probe.index < |chain|
  {
    pod in start.Owners(chain[probe.index]) ==> pod in probe.at.Owners(chain[probe.index])
  }

  ghost predicate NotNewAt(probe: Lookup, chain: seq<u64>, start: Registry, pod: nat)
    requires probe.index < |chain|
  {
    pod in probe.at.Owners(chain[probe.index]) ==> pod in start.Owners(chain[probe.index])
  }

  /** No lookup found the pod's ownership of the hash it looked up changed. */
  ghost predicate Steady(probes: seq<Lookup>, chain: seq<u64>, start: Registry, pod: nat) {
    NotLost(probes, chain, start, pod) && NotGained(probes, chain, start, pod)
  }

  /** What a finished search says of a pod: the lookups justify the depth; it is no less than the
      pod's depth at the start if none found a hash lost, no more if none found one gained. */
  ghost predicate Answers(probes: seq<Lookup>, chain: seq<u64>, start: Registry, pod: nat, d: nat) {
    && Justified(probes, chain, pod, d, d)
    && (NotLost(probes, chain, start, pod) ==> Depth(start.ViewOf(chain), pod) <= d)
    && (NotGained(probes, chain, start, pod) ==> d <= Depth(start.ViewOf(chain), pod))
  }

  /** The depth at the start is below the interval, or the search of the interval finds it. */
  ghost predicate FoundOrBelow(view: View, pod: nat, lo: nat, hi: nat)
    requires lo <= hi <= |view|
  {
    Depth(view, pod) < lo || SoloDepth(view, pod, lo, hi) == Depth(view, pod)
  }

  ghost predicate FoundOrAbove(view: View, pod: nat, lo: nat, hi: nat)
    requires lo <= hi <= |view|
  {
    hi < Depth(view, pod) || SoloDepth(view, pod, lo, hi) == Depth(view, pod)
  }

  ghost predicate GoodInterval(probes: seq<Lookup>, chain: seq<u64>, start: Registry, pod: nat, lo: nat, hi: nat) {
    && Justified(probes, chain, pod, lo, hi)
    && (NotLost(probes, chain, start, pod) ==> FoundOrBelow(start.ViewOf(chain), pod, lo, hi))
    && (NotGained(probes, chain, start, pod) ==> FoundOrAbove(start.ViewOf(chain), pod, lo, hi))
  }

  ghost function Good(probes: seq<Lookup>, chain: seq<u64>, start: Registry): (nat, nat, nat) -> bool {
    (pod: nat, lo: nat, hi: nat) => GoodInterval(probes, chain, start, pod, lo, hi)
  }

  lemma WholeIntervalGood(chain: seq<u64>, start: Registry, pod: nat)
    ensures GoodInterval([], chain, start, pod, 0, |chain|)
  {
  }

  /** One probe narrows a binary search, in which the pod may have been gained or lost. */
  lemma FoundAfterProbe(view: View, pod: nat, lo: nat, hi: nat, owner: bool)
    requires lo < hi <= |view|
    ensures var mid := Probe(lo, hi);
      && (FoundOrBelow(view, pod, lo, hi) && (pod in view[mid - 1] ==> owner) ==>
            if owner then FoundOrBelow(view, pod, mid, hi) else FoundOrBelow(view, pod, lo, mid - 1))
      && (FoundOrAbove(view, pod, lo, hi) && (owner ==> pod in view[mid - 1]) ==>
            if owner then FoundOrAbove(view, pod, mid, hi) else FoundOrAbove(view, pod, lo, mid - 1))
  {
    hide Depth, Probe;
    var mid := Probe(lo, hi);
    if pod in view[mid - 1] {
      assert SoloDepth(view, pod, lo, hi) == SoloDepth(view, pod, mid, hi);
    } else {
      assert SoloDepth(view, pod, lo, hi) == SoloDepth(view, pod, lo, mid - 1);
    }
  }

  lemma ProbedInterval(probes: seq<Lookup>, chain: seq<u64>, start: Registry, pod: nat, lo: nat, hi: nat, at: Registry)
    requires lo < hi && GoodInterval(probes, chain, start, pod, lo, hi)
    ensures var mid := Probe(lo, hi);
      var next := probes + [Lookup(mid - 1, at)];
      if pod in at.Owners(chain[mid - 1]) then GoodInterval(next, chain, start, pod, mid, hi)
      else GoodInterval(next, chain, start, pod, lo, mid - 1)
  {
    hide Registry.Owners, FoundOrBelow, FoundOrAbove, Probe, NotLost, NotGained;
    var mid := Probe(lo, hi);
    var last := Lookup(mid - 1, at);
    var next := probes + [last];
    MoreProbes(probes, chain, start, pod, lo, hi, last);
    assert next[|probes|] == last;
    assert start.ViewOf(chain)[mid - 1] == start.Owners(chain[mid - 1]);
    FoundAfterProbe(start.ViewOf(chain), pod, lo, hi, pod in at.Owners(chain[mid - 1]));
  }

  lemma MoreProbes(probes: seq<Lookup>, chain: seq<u64>, start: Registry, pod: nat, lo: nat, hi: nat, last: Lookup)
    requires GoodInterval(probes, chain, start, pod, lo, hi)
    ensures var next := probes + [last];
      && GoodInterval(next, chain, start, pod, lo, hi)
      && (NotLost(next, chain, start, pod) ==>
            NotLost(probes, chain, start, pod) && (last.index < |chain| ==> KeptAt(last, chain, start, pod)))
      && (NotGained(next, chain, start, pod) ==>
            NotGained(probes, chain, start, pod) && (last.index < |chain| ==> NotNewAt(last, chain, start, pod)))
  {
    hide FoundOrBelow, FoundOrAbove, Registry.Owners, KeptAt, NotNewAt;
    var next := probes + [last];
    assert next[|probes|] == last;
    assert forall k :: 0 <= k < |probes| ==> next[k] == probes[k];
    if lo > 0 {
      var k :| 0 <= k < |probes| && probes[k].index == lo - 1 && pod in probes[k].at.Owners(chain[lo - 1]);
      assert next[k].index == lo - 1;
    }
    if hi < |chain| {
      var k :| 0 <= k < |probes| && probes[k].index == hi && pod !in probes[k].at.Owners(chain[hi]);
      assert next[k].index == hi;
    }
  }

  lemma GoodPointAnswers(probes: seq<Lookup>, chain: seq<u64>, start: Registry, pod: nat, d: nat)
    requires GoodInterval(probes, chain, start, pod, d, d)
    ensures Answers(probes, chain, start, pod, d)
  {
    hide Justified, NotLost, NotGained, Depth, SoloDepth;
    SoloPoint(start.ViewOf(chain), pod, d);
  }

  /** A further lookup keeps every good interval, and tells for each pod of the frame which side of
      the probe its depth is on. */
  lemma GoodAfterLookup(f: Frame, at: Registry, probes: seq<Lookup>, chain: seq<u64>, start: Registry)
    requires f.lo < f.hi <= |chain|
    requires forall p :: p in f.pods ==> Good(probes, chain, start)(p, f.lo, f.hi)
    ensures var mid := Probe(f.lo, f.hi);
      var good := Good(probes + [Lookup(mid - 1, at)], chain, start);
      && Implies(Good(probes, chain, start), good)
      && Halved(f, at.Owners(chain[mid - 1]), good)
  {
    hide GoodInterval, Registry.Owners, Probe;
    var mid := Probe(f.lo, f.hi);
    var last := Lookup(mid - 1, at);
    var before, after := Good(probes, chain, start), Good(probes + [last], chain, start);
    forall p, lo, hi | before(p, lo, hi) ensures after(p, lo, hi) {
      MoreProbes(probes, chain, start, p, lo, hi, last);
    }
    forall p | p in f.pods
      ensures if p in at.Owners(chain[mid - 1]) then after(p, mid, f.hi) else after(p, f.lo, mid - 1)
    {
      assert before(p, f.lo, f.hi);
      ProbedInterval(probes, chain, start, p, f.lo, f.hi, at);
    }
  }

  // No hash is looked up twice

  ghost predicate Disjoint(f: Frame, g: Frame) {
    f.hi < g.lo || g.hi < f.lo
  }

  /** The frames lie apart, and no lookup so far fell inside one of them. */
  ghost predicate Apart(st: seq<Frame>, probes: seq<Lookup>) {
    && (forall i, j :: 0 <= i < j < |st| ==> Disjoint(st[i], st[j]))
    && (forall i, k :: 0 <= i < |st| && 0 <= k < |probes| ==> OutsideOf(st[i], probes[k].index))
    && DistinctLookups(probes)
  }

  ghost predicate OutsideOf(f: Frame, index: nat) {
    index < f.lo || f.hi <= index
  }

  ghost predicate DistinctLookups(probes: seq<Lookup>) {
    forall k, l :: 0 <= k < l < |probes| ==> probes[k].index != probes[l].index
  }

  lemma ApartStart(f: Frame)
    ensures Apart([f], [])
  {
  }

  lemma ApartDrop(rest: seq<Frame>, f: Frame, probes: seq<Lookup>)
    requires Apart(rest + [f], probes)
    ensures Apart(rest, probes) && forall i :: 0 <= i < |rest| ==> Disjoint(rest[i], f)
    ensures forall k :: 0 <= k < |probes| ==> OutsideOf(f, probes[k].index)
  {
    var st := rest + [f];
    assert st[|rest|] == f;
    assert forall i :: 0 <= i < |rest| ==> st[i] == rest[i];
  }

  /** Splitting the top frame, in either push order. */
  lemma ApartSplit(rest: seq<Frame>, f: Frame, first: Frame, second: Frame, owners: set<nat>, probes: seq<Lookup>, last: Lookup)
    requires Apart(rest + [f], probes) && f.lo < f.hi && last.index == Probe(f.lo, f.hi) - 1
    requires (first == f.Upper(owners) && second == f.Lower(owners))
          || (first == f.Lower(owners) && second == f.Upper(owners))
    ensures Apart(PushNonEmpty(PushNonEmpty(rest, first), second), probes + [last])
  {
    hide Probe;
    ApartDrop(rest, f, probes);
    ApartLookup(rest, f, probes, last);
    var one := PushNonEmpty(rest, first);
    ApartPush(rest, first, probes + [last]);
    ApartPush(one, second, probes + [last]);
  }

  lemma ApartLookup(rest: seq<Frame>, f: Frame, probes: seq<Lookup>, last: Lookup)
    requires Apart(rest, probes) && forall i :: 0 <= i < |rest| ==> Disjoint(rest[i], f)
    requires forall k :: 0 <= k < |probes| ==> OutsideOf(f, probes[k].index)
    requires f.lo <= last.index < f.hi
    ensures Apart(rest, probes + [last])
  {
  }

  lemma ApartLookedUp(rest: seq<Frame>, f: Frame, probes: seq<Lookup>, last: Lookup)
    requires Apart(rest + [f], probes) && f.lo <= last.index < f.hi
    ensures DistinctLookups(probes + [last])
  {
    ApartDrop(rest, f, probes);
    ApartLookup(rest, f, probes, last);
  }

  lemma ApartPush(st: seq<Frame>, f: Frame, probes: seq<Lookup>)
    requires Apart(st, probes)
    requires forall i :: 0 <= i < |st| ==> Disjoint(st[i], f)
    requires forall k :: 0 <= k < |probes| ==> OutsideOf(f, probes[k].index)
    ensures Apart(PushNonEmpty(st, f), probes)
  {
  }

  // The state between two frames

  ghost predicate Searching(st: seq<Frame>, probes: seq<Lookup>, chain: seq<u64>, start: Registry,
                            root: set<nat>, lengths: seq<nat>) {
    && Fits(st, |chain|) && NonEmpty(st) && Apart(st, probes)
    && |probes| + Sum(st, Width) <= |chain|
    && Covers(st, root, lengths, Good(probes, chain, start))
    && ZeroOutside(root, lengths)
  }

  ghost predicate ZeroOutside(root: set<nat>, lengths: seq<nat>) {
    forall p :: 0 <= p < |lengths| && p !in root ==> lengths[p] == 0
  }

  lemma SearchingStart(chain: seq<u64>, start: Registry, root: set<nat>, lengths: seq<nat>)
    requires root != {}
    requires forall p :: 0 <= p < |lengths| ==> lengths[p] == 0
    ensures Searching([Frame(0, |chain|, root)], [], chain, start, root, lengths)
  {
    hide Fits, Covers, Good, Sum, Apart, NonEmpty;
    var f := Frame(0, |chain|, root);
    StartSum(f);
    ApartStart(f);
    StartFits(f);
    StartCovers(chain, start, root, lengths);
  }

  lemma StartFits(f: Frame)
    requires f.lo == 0 && f.pods != {}
    ensures Fits([f], f.hi) && NonEmpty([f])
  {
    hide CeilLog2;
  }

  lemma StartSum(f: Frame)
    ensures Sum([f], Width) == Width(f)
  {
    SumPush([], f, Width);
    assert [] + [f] == [f];
  }

  lemma StartCovers(chain: seq<u64>, start: Registry, root: set<nat>, lengths: seq<nat>)
    ensures Covers([Frame(0, |chain|, root)], root, lengths, Good([], chain, start))
  {
    hide Covers, GoodInterval;
    forall p: nat ensures Good([], chain, start)(p, 0, |chain|) {
      WholeIntervalGood(chain, start, p);
    }
    CoversStart(root, |chain|, lengths, Good([], chain, start));
  }

  lemma SearchingTop(rest: seq<Frame>, f: Frame, probes: seq<Lookup>, chain: seq<u64>, start: Registry,
                     root: set<nat>, lengths: seq<nat>)
    requires Searching(rest + [f], probes, chain, start, root, lengths)
    ensures f.lo <= f.hi <= |chain| && f.pods <= root && f.pods != {}
  {
    hide CeilLog2, Good, Apart, Sum;
    assert (rest + [f])[|rest|] == f && f in rest + [f];
  }

  lemma SearchingApart(rest: seq<Frame>, f: Frame, probes: seq<Lookup>, chain: seq<u64>, start: Registry,
                       root: set<nat>, lengths: seq<nat>)
    requires Searching(rest + [f], probes, chain, start, root, lengths)
    ensures forall i :: 0 <= i < |rest| ==> Disjoint(rest[i], f)
  {
    hide Fits, Covers, Sum, NonEmpty;
    ApartDrop(rest, f, probes);
  }

  /** One round under whatever registry the lookup finds. */
  lemma SearchingSplit(rest: seq<Frame>, f: Frame, at: Registry, probes: seq<Lookup>, chain: seq<u64>,
                       start: Registry, root: set<nat>, lengths: seq<nat>)
    requires Searching(rest + [f], probes, chain, start, root, lengths) && f.lo < f.hi <= |chain|
    ensures var mid := Probe(f.lo, f.hi);
      var owners := at.Owners(chain[mid - 1]);
      var next := PushNonEmpty(PushNonEmpty(rest, f.Upper(owners)), f.Lower(owners));
      && Searching(next, probes + [Lookup(mid - 1, at)], chain, start, root, lengths)
      && Sum(next, Work) < Sum(rest + [f], Work)
      && |next| <= 1 + CeilLog2(|chain| + 1)
      && (|chain| + 1 <= 0x8000_0000 ==> |next| <= INLINE_SEARCH_FRAMES)
  {
    hide CeilLog2, GoodInterval, Registry.Owners, Sum, Probe, Covers, Fits, Apart, NonEmpty, ZeroOutside;
    var mid := Probe(f.lo, f.hi);
    var owners := at.Owners(chain[mid - 1]);
    var first, second := f.Upper(owners), f.Lower(owners);
    var last := Lookup(mid - 1, at);
    NonEmptyRest(rest, f);
    SplitFits(rest, f, first, second, owners, |chain|);
    SplitSums(rest, f, first, second, Width);
    SplitSums(rest, f, first, second, Work);
    ApartSplit(rest, f, first, second, owners, probes, last);
    SplitCoversGood(rest, f, at, probes, chain, start, root, lengths);
    StackBound(PushNonEmpty(PushNonEmpty(rest, first), second), |chain|);
  }

  lemma NonEmptyRest(rest: seq<Frame>, f: Frame)
    requires NonEmpty(rest + [f])
    ensures NonEmpty(rest) && f.pods != {}
  {
    assert (rest + [f])[|rest|] == f;
    assert forall i :: 0 <= i < |rest| ==> (rest + [f])[i] == rest[i];
  }

  lemma FitsRest(rest: seq<Frame>, f: Frame, n: nat)
    requires Fits(rest + [f], n)
    ensures Fits(rest, n) && f.Within(n)
  {
    hide CeilLog2;
    assert (rest + [f])[|rest|] == f;
    assert forall i :: 0 <= i < |rest| ==> (rest + [f])[i] == rest[i];
  }

  lemma SplitCoversGood(rest: seq<Frame>, f: Frame, at: Registry, probes: seq<Lookup>, chain: seq<u64>,
                        start: Registry, root: set<nat>, lengths: seq<nat>)
    requires Covers(rest + [f], root, lengths, Good(probes, chain, start)) && f.lo < f.hi <= |chain|
    ensures var mid := Probe(f.lo, f.hi);
      var owners := at.Owners(chain[mid - 1]);
      var next := PushNonEmpty(PushNonEmpty(rest, f.Upper(owners)), f.Lower(owners));
      Covers(next, root, lengths, Good(probes + [Lookup(mid - 1, at)], chain, start))
  {
    hide Good, Registry.Owners, Probe, Covers, Halved, Implies, PushNonEmpty;
    var mid := Probe(f.lo, f.hi);
    var owners := at.Owners(chain[mid - 1]);
    var before, after := Good(probes, chain, start), Good(probes + [Lookup(mid - 1, at)], chain, start);
    CoversTop(rest, f, root, lengths, before);
    GoodAfterLookup(f, at, probes, chain, start);
    CoversWeaken(rest + [f], root, lengths, before, after);
    PushedFrames(rest, f.Upper(owners), f.Lower(owners));
    CoversSplit(rest, f, owners, PushNonEmpty(PushNonEmpty(rest, f.Upper(owners)), f.Lower(owners)), root, lengths, after);
  }

  lemma SearchingLeaf(rest: seq<Frame>, f: Frame, probes: seq<Lookup>, chain: seq<u64>, start: Registry,
                      root: set<nat>, before: seq<nat>, after: seq<nat>)
    requires Searching(rest + [f], probes, chain, start, root, before) && f.lo == f.hi
    requires |after| == |before|
    requires forall p :: 0 <= p < |after| ==> after[p] == if p in f.pods then f.lo else before[p]
    ensures Searching(rest, probes, chain, start, root, after)
    ensures Sum(rest, Work) < Sum(rest + [f], Work)
  {
    hide CeilLog2, Good, Covers, Apart, Sum, Fits, NonEmpty;
    FitsRest(rest, f, |chain|);
    NonEmptyRest(rest, f);
    CoversTop(rest, f, root, before, Good(probes, chain, start));
    SumPush(rest, f, Width);
    SumPush(rest, f, Work);
    ApartDrop(rest, f, probes);
    CoversLeaf(rest, f, root, before, after, Good(probes, chain, start));
  }

  /** What a finished search has established. */
  lemma SearchingDone(probes: seq<Lookup>, chain: seq<u64>, start: Registry, root: set<nat>, lengths: seq<nat>)
    requires Searching([], probes, chain, start, root, lengths)
    ensures |probes| <= |chain| && DistinctLookups(probes) && ZeroOutside(root, lengths)
    ensures forall p :: 0 <= p < |lengths| && p in root ==> Answers(probes, chain, start, p, lengths[p])
  {
    hide GoodInterval, Answers;
    forall p | 0 <= p < |lengths| && p in root ensures Answers(probes, chain, start, p, lengths[p]) {
      assert !Waiting([], p);
      assert Settled(lengths, p, Good(probes, chain, start));
      GoodPointAnswers(probes, chain, start, p, lengths[p]);
    }
  }

  lemma NothingToSearch(chain: seq<u64>, start: Registry, lengths: seq<nat>, root: set<nat>)
    requires chain == [] || root == {}
    requires forall p :: 0 <= p < |lengths| ==> lengths[p] == 0
    ensures DistinctLookups([]) && ZeroOutside(root, lengths)
    ensures forall p :: 0 <= p < |lengths| && p in root ==> Answers([], chain, start, p, lengths[p])
  {
  }

  // How much work was done

  ghost predicate PodsApart(st: seq<Frame>) {
    forall i, j :: 0 <= i < j < |st| ==> st[i].pods !! st[j].pods
  }

  /** `found` are the depths settled so far; none of them lies in a waiting frame. */
  ghost predicate FoundSoFar(st: seq<Frame>, root: set<nat>, lengths: seq<nat>, found: set<nat>) {
    && (forall p :: p in root ==> p < |lengths| && (Waiting(st, p) || lengths[p] in found))
    && (forall d :: d in found ==> SettledAt(st, root, lengths, d))
    && (forall d, i :: d in found && 0 <= i < |st| ==> d < st[i].lo || st[i].hi < d)
  }

  ghost predicate SettledAt(st: seq<Frame>, root: set<nat>, lengths: seq<nat>, d: nat) {
    exists p :: p in root && !Waiting(st, p) && p < |lengths| && lengths[p] == d
  }

  /** What is left of the binary searches that one depth may cost. */
  ghost function Slack(n: nat): Frame -> nat {
    (f: Frame) => var (all, left) := (CeilLog2(n + 1), CeilLog2(Width(f) + 1)); if left <= all then all - left else 0
  }

  /** Every frame processed was a lookup or settled a depth; each depth pays for one binary search. */
  ghost predicate Tally(st: seq<Frame>, root: set<nat>, lengths: seq<nat>, found: set<nat>, lookups: nat, frames: nat, n: nat) {
    && PodsApart(st) && FoundSoFar(st, root, lengths, found)
    && frames == lookups + |found|
    && lookups <= |found| * CeilLog2(n + 1) + Sum(st, Slack(n))
  }

  lemma TallyStart(n: nat, root: set<nat>, lengths: seq<nat>)
    requires forall p :: p in root ==> p < |lengths|
    ensures Tally([Frame(0, n, root)], root, lengths, {}, 0, 0, n)
  {
    hide CeilLog2;
    var f := Frame(0, n, root);
    assert f in [f];
  }

  lemma TallyRest(rest: seq<Frame>, f: Frame)
    requires PodsApart(rest + [f])
    ensures PodsApart(rest) && forall p :: p in f.pods ==> !Waiting(rest, p)
    ensures forall p :: Waiting(rest + [f], p) <==> Waiting(rest, p) || p in f.pods
  {
    var st := rest + [f];
    assert st[|rest|] == f && f in st;
    assert forall i :: 0 <= i < |rest| ==> st[i] == rest[i];
    forall p ensures Waiting(st, p) <==> Waiting(rest, p) || p in f.pods {
      if Waiting(rest, p) {
        var g :| g in rest && p in g.pods;
        assert g in st;
      }
    }
    forall g | g in rest ensures g.pods !! f.pods {
      var i :| 0 <= i < |rest| && rest[i] == g;
      assert st[i].pods !! st[|rest|].pods;
    }
  }

  lemma FoundLeaf(rest: seq<Frame>, f: Frame, root: set<nat>, before: seq<nat>, after: seq<nat>, found: set<nat>)
    requires PodsApart(rest + [f]) && FoundSoFar(rest + [f], root, before, found)
    requires f.lo == f.hi && f.pods != {} && f.pods <= root && |after| == |before|
    requires forall i :: 0 <= i < |rest| ==> Disjoint(rest[i], f)
    requires forall p :: 0 <= p < |after| ==> after[p] == if p in f.pods then f.lo else before[p]
    ensures FoundSoFar(rest, root, after, found + {f.lo}) && f.lo !in found
  {
    hide Waiting, PodsApart;
    var st := rest + [f];
    assert st[|rest|] == f;
    assert forall i :: 0 <= i < |rest| ==> st[i] == rest[i];
    TallyRest(rest, f);
    forall d | d in found + {f.lo} ensures SettledAt(rest, root, after, d) {
      if d in found {
        assert SettledAt(st, root, before, d);
        var p :| p in root && !Waiting(st, p) && p < |before| && before[p] == d;
        assert p !in f.pods && after[p] == d;
      } else {
        var p :| p in f.pods;
        assert p in root && after[p] == d;
      }
    }
  }

  lemma TallyLeaf(rest: seq<Frame>, f: Frame, root: set<nat>, before: seq<nat>, after: seq<nat>, found: set<nat>,
                  lookups: nat, frames: nat, n: nat)
    requires Tally(rest + [f], root, before, found, lookups, frames, n)
    requires f.lo == f.hi && f.pods != {} && f.pods <= root && |after| == |before|
    requires forall i :: 0 <= i < |rest| ==> Disjoint(rest[i], f)
    requires forall p :: 0 <= p < |after| ==> after[p] == if p in f.pods then f.lo else before[p]
    ensures Tally(rest, root, after, found + {f.lo}, lookups, frames + 1, n)
  {
    hide CeilLog2, Sum, FoundSoFar, PodsApart, Slack, Waiting;
    FoundLeaf(rest, f, root, before, after, found);
    TallyRest(rest, f);
    LeafSlack(rest, f, found, n);
  }

  lemma LeafSlack(rest: seq<Frame>, f: Frame, found: set<nat>, n: nat)
    requires f.lo == f.hi && f.lo !in found
    ensures |found + {f.lo}| == |found| + 1
    ensures |found + {f.lo}| * CeilLog2(n + 1) + Sum(rest, Slack(n)) == |found| * CeilLog2(n + 1) + Sum(rest + [f], Slack(n))
  {
    hide Sum, Slack;
    SumPush(rest, f, Slack(n));
    FullSlack(f, n);
    OneMoreTimes(|found|, CeilLog2(n + 1));
  }

  lemma FullSlack(f: Frame, n: nat)
    requires f.lo == f.hi
    ensures Slack(n)(f) == CeilLog2(n + 1)
  {
  }

  lemma OneMoreTimes(a: nat, b: nat)
    ensures (a + 1) * b == a * b + b
  {
  }

  lemma FoundSplit(rest: seq<Frame>, f: Frame, first: Frame, second: Frame, root: set<nat>, lengths: seq<nat>, found: set<nat>)
    requires PodsApart(rest + [f]) && FoundSoFar(rest + [f], root, lengths, found)
    requires first.pods !! second.pods && first.pods + second.pods == f.pods
    requires f.lo <= first.lo && first.hi <= f.hi && f.lo <= second.lo && second.hi <= f.hi
    ensures var next := PushNonEmpty(PushNonEmpty(rest, first), second);
      PodsApart(next) && FoundSoFar(next, root, lengths, found)
  {
    hide Waiting, PodsApart;
    var st, next := rest + [f], PushNonEmpty(PushNonEmpty(rest, first), second);
    TallyRest(rest, f);
    SplitWaiting(rest, f, first, second);
    SplitPods(rest, f, first, second);
    assert st[|rest|] == f;
    assert forall i :: 0 <= i < |rest| ==> st[i] == rest[i];
    forall d | d in found ensures SettledAt(next, root, lengths, d) {
      assert SettledAt(st, root, lengths, d);
    }
    PushedFrames(rest, first, second);
    forall d, i | d in found && 0 <= i < |next| ensures d < next[i].lo || next[i].hi < d {
      assert next[i] in next;
      if next[i] in rest {
        var j :| 0 <= j < |rest| && rest[j] == next[i];
        assert st[j] == next[i];
      }
    }
  }

  lemma SplitWaiting(rest: seq<Frame>, f: Frame, first: Frame, second: Frame)
    requires first.pods + second.pods == f.pods
    ensures forall p :: Waiting(PushNonEmpty(PushNonEmpty(rest, first), second), p) <==> Waiting(rest, p) || p in f.pods
  {
    var next := PushNonEmpty(PushNonEmpty(rest, first), second);
    PushedFrames(rest, first, second);
    hide PushNonEmpty;
    forall p ensures Waiting(next, p) <==> Waiting(rest, p) || p in f.pods {
      if Waiting(rest, p) {
        var g :| g in rest && p in g.pods;
        assert g in next;
      }
      if p in f.pods {
        assert if p in first.pods then first in next else second in next && p in second.pods;
      }
    }
  }

  lemma SplitPods(rest: seq<Frame>, f: Frame, first: Frame, second: Frame)
    requires PodsApart(rest + [f]) && first.pods !! second.pods && first.pods + second.pods == f.pods
    ensures PodsApart(PushNonEmpty(PushNonEmpty(rest, first), second))
  {
    var st := rest + [f];
    assert st[|rest|] == f;
    assert forall i :: 0 <= i < |rest| ==> st[i] == rest[i] && rest[i].pods !! f.pods;
    assert forall i :: 0 <= i < |rest| ==> rest[i].pods !! first.pods && rest[i].pods !! second.pods;
  }

  /** A lookup takes one from the slack of its frame, or the other half brings its own. */
  lemma SlackSplit(rest: seq<Frame>, f: Frame, first: Frame, second: Frame, n: nat)
    requires f.pods != {} && first.pods + second.pods == f.pods && FitsSlack(f, n)
    requires CeilLog2(Width(first) + 1) < CeilLog2(Width(f) + 1) && CeilLog2(Width(second) + 1) < CeilLog2(Width(f) + 1)
    ensures Sum(PushNonEmpty(PushNonEmpty(rest, first), second), Slack(n)) > Sum(rest + [f], Slack(n))
  {
    hide CeilLog2, Sum;
    SplitSums(rest, f, first, second, Slack(n));
  }

  ghost predicate FitsSlack(f: Frame, n: nat) {
    CeilLog2(Width(f) + 1) <= CeilLog2(n + 1)
  }

  lemma HalvesOf(f: Frame, owners: set<nat>)
    requires f.lo < f.hi
    ensures var first, second := f.Upper(owners), f.Lower(owners);
      first.pods !! second.pods && first.pods + second.pods == f.pods
  {
    hide Probe;
  }

  lemma TallySplit(rest: seq<Frame>, f: Frame, owners: set<nat>, root: set<nat>, lengths: seq<nat>, found: set<nat>,
                   lookups: nat, frames: nat, n: nat)
    requires Tally(rest + [f], root, lengths, found, lookups, frames, n) && f.pods != {} && f.lo < f.hi <= n
    ensures Tally(PushNonEmpty(PushNonEmpty(rest, f.Upper(owners)), f.Lower(owners)), root, lengths, found,
                  lookups + 1, frames + 1, n)
  {
    hide CeilLog2, Sum, FoundSoFar, PodsApart, Slack, PushNonEmpty, Probe;
    var first, second := f.Upper(owners), f.Lower(owners);
    HalvesAreSmaller(f.lo, f.hi);
    CeilLog2Monotone(Width(f) + 1, n + 1);
    HalvesOf(f, owners);
    FoundSplit(rest, f, first, second, root, lengths, found);
    SlackSplit(rest, f, first, second, n);
  }

  /** The depths that the pods ended with. */
  ghost function DepthsFound(lengths: seq<nat>, root: set<nat>): set<nat> {
    set p | p in root && p < |lengths| :: lengths[p]
  }

  lemma TallyDone(root: set<nat>, lengths: seq<nat>, found: set<nat>, lookups: nat, frames: nat, n: nat)
    requires Tally([], root, lengths, found, lookups, frames, n)
    ensures frames == lookups + |DepthsFound(lengths, root)|
    ensures lookups <= |DepthsFound(lengths, root)| * CeilLog2(n + 1)
  {
    hide CeilLog2, Slack, Waiting;
    NobodyWaits();
    forall d ensures d in found <==> d in DepthsFound(lengths, root) {
      if d in found {
        assert SettledAt([], root, lengths, d);
      }
    }
    assert found == DepthsFound(lengths, root);
  }

  lemma NobodyWaits()
    ensures forall p :: !Waiting([], p)
  {
  }

  /** A search and its work, between two frames. */
  ghost predicate Tallied(st: seq<Frame>, probes: seq<Lookup>, chain: seq<u64>, start: Registry, root: set<nat>,
                          lengths: seq<nat>, found: set<nat>, frames: nat) {
    Searching(st, probes, chain, start, root, lengths) && Tally(st, root, lengths, found, |probes|, frames, |chain|)
  }

  lemma TalliedStart(chain: seq<u64>, start: Registry, root: set<nat>, lengths: seq<nat>)
    requires root != {} && forall p :: p in root ==> p < |lengths|
    requires forall p :: 0 <= p < |lengths| ==> lengths[p] == 0
    ensures Tallied([Frame(0, |chain|, root)], [], chain, start, root, lengths, {}, 0)
  {
    hide Searching, Tally;
    SearchingStart(chain, start, root, lengths);
    TallyStart(|chain|, root, lengths);
  }

  lemma TalliedTop(rest: seq<Frame>, f: Frame, probes: seq<Lookup>, chain: seq<u64>, start: Registry, root: set<nat>,
                   lengths: seq<nat>, found: set<nat>, frames: nat)
    requires Tallied(rest + [f], probes, chain, start, root, lengths, found, frames)
    ensures f.lo <= f.hi <= |chain| && f.pods <= root && f.pods != {}
  {
    hide Searching, Tally;
    SearchingTop(rest, f, probes, chain, start, root, lengths);
  }

  lemma TalliedLeaf(rest: seq<Frame>, f: Frame, probes: seq<Lookup>, chain: seq<u64>, start: Registry, root: set<nat>,
                    before: seq<nat>, after: seq<nat>, found: set<nat>, frames: nat)
    requires Tallied(rest + [f], probes, chain, start, root, before, found, frames) && f.lo == f.hi
    requires |after| == |before|
    requires forall p :: 0 <= p < |after| ==> after[p] == if p in f.pods then f.lo else before[p]
    ensures Tallied(rest, probes, chain, start, root, after, found + {f.lo}, frames + 1)
    ensures Sum(rest, Work) < Sum(rest + [f], Work)
  {
    hide Searching, Tally, Sum;
    SearchingTop(rest, f, probes, chain, start, root, before);
    SearchingApart(rest, f, probes, chain, start, root, before);
    SearchingLeaf(rest, f, probes, chain, start, root, before, after);
    TallyLeaf(rest, f, root, before, after, found, |probes|, frames, |chain|);
  }

  lemma TalliedSplit(rest: seq<Frame>, f: Frame, at: Registry, probes: seq<Lookup>, chain: seq<u64>, start: Registry,
                     root: set<nat>, lengths: seq<nat>, found: set<nat>, frames: nat)
    requires Tallied(rest + [f], probes, chain, start, root, lengths, found, frames) && f.lo < f.hi <= |chain|
    ensures var mid := Probe(f.lo, f.hi);
      var owners := at.Owners(chain[mid - 1]);
      var next := PushNonEmpty(PushNonEmpty(rest, f.Upper(owners)), f.Lower(owners));
      && Tallied(next, probes + [Lookup(mid - 1, at)], chain, start, root, lengths, found, frames + 1)
      && Sum(next, Work) < Sum(rest + [f], Work)
  {
    hide Searching, Tally, Sum, PushNonEmpty, Registry.Owners, Frame.Upper, Frame.Lower, CeilLog2;
    SearchingTop(rest, f, probes, chain, start, root, lengths);
    SearchingSplit(rest, f, at, probes, chain, start, root, lengths);
    TallySplit(rest, f, at.Owners(chain[Probe(f.lo, f.hi) - 1]), root, lengths, found, |probes|, frames, |chain|);
  }

  lemma TalliedDone(probes: seq<Lookup>, chain: seq<u64>, start: Registry, root: set<nat>, lengths: seq<nat>,
                    found: set<nat>, frames: nat)
    requires Tallied([], probes, chain, start, root, lengths, found, frames)
    ensures |probes| <= |chain| && DistinctLookups(probes) && ZeroOutside(root, lengths)
    ensures forall p :: 0 <= p < |lengths| && p in root ==> Answers(probes, chain, start, p, lengths[p])
    ensures frames == |probes| + |DepthsFound(lengths, root)|
    ensures |probes| <= |DepthsFound(lengths, root)| * CeilLog2(|chain| + 1)
  {
    hide Searching, Tally, Answers, DepthsFound, CeilLog2;
    SearchingDone(probes, chain, start, root, lengths);
    TallyDone(root, lengths, found, |probes|, frames, |chain|);
  }

  // Which pods keep an exact answer

  /** No step of the list takes the hash from the pod. */
  ghost predicate NeverTaken(steps: seq<Step>, pod: nat, hash: u64, shardCount: nat) {
    forall j :: 0 <= j < |steps| && Affects(steps[j], pod, hash, shardCount) ==> steps[j].AddOwner?
  }

  /** No step of the list gives the hash to the pod. */
  ghost predicate NeverGiven(steps: seq<Step>, pod: nat, hash: u64, shardCount: nat) {
    forall j :: 0 <= j < |steps| && Affects(steps[j], pod, hash, shardCount) ==> !steps[j].AddOwner?
  }

  lemma {:induction false} OverallSteps(others: nat -> seq<Step>, k: nat, pod: nat, hash: u64, count: nat)
    ensures (forall j :: NeverTaken(others(j), pod, hash, count)) ==> NeverTaken(Interleaved(others, k), pod, hash, count)
    ensures (forall j :: NeverGiven(others(j), pod, hash, count)) ==> NeverGiven(Interleaved(others, k), pod, hash, count)
  {
    hide Affects;
    if k > 0 {
      OverallSteps(others, k - 1, pod, hash, count);
      var a, b := Interleaved(others, k - 1), others(k - 1);
      assert (forall j :: NeverTaken(others(j), pod, hash, count)) ==> NeverTaken(b, pod, hash, count);
      assert (forall j :: NeverGiven(others(j), pod, hash, count)) ==> NeverGiven(b, pod, hash, count);
      assert forall j :: 0 <= j < |a + b| ==> (a + b)[j] == if j < |a| then a[j] else b[j - |a|];
    }
  }

  lemma OneWaySteps(start: Registry, steps: seq<Step>, pod: nat, hash: u64)
    ensures NeverTaken(steps, pod, hash, start.shardCount) ==>
      (pod in start.Owners(hash) ==> pod in Run(start, steps).Owners(hash))
    ensures NeverGiven(steps, pod, hash, start.shardCount) ==>
      (pod in Run(start, steps).Owners(hash) ==> pod in start.Owners(hash))
  {
    hide Run, Affects, Registry.Owners;
    LastStepDecides(start, steps, pod, hash);
    AddAffects(pod, hash, start.shardCount);
    if NeverTaken(steps, pod, hash, start.shardCount) && pod in start.Owners(hash) {
      LastAffecting(steps, pod, hash, start.shardCount);
    }
  }

  /** If only registrations affect the pair, the last step to do so is one, or none does. */
  lemma {:induction false} LastAffecting(steps: seq<Step>, pod: nat, hash: u64, count: nat)
    requires NeverTaken(steps, pod, hash, count)
    ensures Untouched(steps, pod, hash, count) || exists k: nat :: RegisteredAt(steps, k, pod, hash, count)
    decreases |steps|
  {
    hide Affects;
    if steps != [] {
      var n := |steps| - 1;
      if Affects(steps[n], pod, hash, count) {
        AffectsOnlyOwn(steps[n], pod, hash, count);
        assert RegisteredAt(steps, n, pod, hash, count);
      } else {
        LastAffecting(steps[..n], pod, hash, count);
        if k: nat :| RegisteredAt(steps[..n], k, pod, hash, count) {
          assert RegisteredAt(steps, k, pod, hash, count);
        }
      }
    }
  }

  /** Whatever happens to other pods: a pod that nobody evicts or cleans during the query gets no
      less than its depth at the start, one that nobody registers no more. */
  lemma OneWayQueries(probes: seq<Lookup>, others: nat -> seq<Step>, start: Registry, chain: seq<u64>, pod: nat)
    requires History(probes, others, start, |chain|)
    ensures (forall k, i :: 0 <= i < |chain| ==> NeverTaken(others(k), pod, chain[i], start.shardCount)) ==>
      NotLost(probes, chain, start, pod)
    ensures (forall k, i :: 0 <= i < |chain| ==> NeverGiven(others(k), pod, chain[i], start.shardCount)) ==>
      NotGained(probes, chain, start, pod)
  {
    hide Run, Registry.Owners, NeverTaken, NeverGiven;
    forall k | 0 <= k < |probes| && probes[k].index < |chain|
      ensures (forall j, i :: 0 <= i < |chain| ==> NeverTaken(others(j), pod, chain[i], start.shardCount)) ==>
        KeptAt(probes[k], chain, start, pod)
      ensures (forall j, i :: 0 <= i < |chain| ==> NeverGiven(others(j), pod, chain[i], start.shardCount)) ==>
        NotNewAt(probes[k], chain, start, pod)
    {
      var hash := chain[probes[k].index];
      OverallSteps(others, k + 1, pod, hash, start.shardCount);
      OneWaySteps(start, Interleaved(others, k + 1), pod, hash);
    }
  }

  /** A pod that no other thread registers, evicts or cleans during the query keeps its exact
      depth, whatever happens to the other pods. */
  lemma UntouchedIsSteady(probes: seq<Lookup>, others: nat -> seq<Step>, start: Registry, chain: seq<u64>, pod: nat)
    requires History(probes, others, start, |chain|)
    requires forall k, i :: 0 <= i < |chain| ==> Untouched(others(k), pod, chain[i], start.shardCount)
    ensures Steady(probes, chain, start, pod)
  {
    hide Run, NotLost, NotGained, History, Affects;
    forall k, i | 0 <= i < |chain|
      ensures NeverTaken(others(k), pod, chain[i], start.shardCount)
      ensures NeverGiven(others(k), pod, chain[i], start.shardCount)
    {
      assert Untouched(others(k), pod, chain[i], start.shardCount);
    }
    OneWayQueries(probes, others, start, chain, pod);
  }

  /** Without other threads every lookup sees the starting state. */
  lemma AloneIsSteady(probes: seq<Lookup>, others: nat -> seq<Step>, start: Registry, chain: seq<u64>)
    requires forall k :: others(k) == []
    requires History(probes, others, start, |chain|)
    ensures Run(start, Interleaved(others, |probes|)) == start
    ensures forall p: nat :: NotLost(probes, chain, start, p) && NotGained(probes, chain, start, p)
  {
    forall k: nat ensures Interleaved(others, k) == [] {
      NothingInterleaved(others, k);
    }
  }
}
