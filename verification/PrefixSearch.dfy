/** What the parallel binary search of src/calinix/cache_registry/prefix_query.rs computes,
    stated on sets of pods and independently of any loop.  A view lists, for every hash of the
    query chain, the pods that own it; nothing is assumed about ownership along the chain. */
module PrefixSearch {

  type View = seq<set<nat>>

  /** The probed depth of an interval, `(lo + hi).div_ceil(2)`. */
  function Probe(lo: nat, hi: nat): (mid: nat)
    requires lo < hi
    ensures lo < mid <= hi
    ensures hi - mid <= mid - lo <= hi - mid + 1
  {
    (lo + hi + 1) / 2
  }

  // One pod at a time

  /** Binary search over the ownership bits of one pod. */
  function SoloDepth(view: View, pod: nat, lo: nat, hi: nat): (d: nat)
    requires lo <= hi <= |view|
    ensures lo <= d <= hi
    decreases hi - lo
  {
    if lo == hi then lo
    else if pod in view[Probe(lo, hi) - 1] then SoloDepth(view, pod, Probe(lo, hi), hi)
    else SoloDepth(view, pod, lo, Probe(lo, hi) - 1)
  }

  /** The depth that the search finds for a pod. */
  function Depth(view: View, pod: nat): (d: nat)
    ensures d <= |view|
  {
    SoloDepth(view, pod, 0, |view|)
  }

  /** The linear scan: the first position from i on that the pod does not own. */
  function NaiveDepth(view: View, pod: nat, i: nat): (d: nat)
    requires i <= |view|
    ensures i <= d <= |view|
    ensures forall j :: i <= j < d ==> pod in view[j]
    ensures d < |view| ==> pod !in view[d]
    decreases |view| - i
  {
    if i < |view| && pod in view[i] then NaiveDepth(view, pod, i + 1) else i
  }

  /** The greatest depth up to k whose last hash the pod owns. */
  function HighestOwned(view: View, pod: nat, k: nat): (d: nat)
    requires k <= |view|
    ensures d <= k
    ensures d > 0 ==> pod in view[d - 1]
    ensures forall j :: d <= j < k ==> pod !in view[j]
  {
    if k == 0 || pod in view[k - 1] then k else HighestOwned(view, pod, k - 1)
  }

  ghost predicate PrefixClosed(view: View, pod: nat) {
    forall i, j :: 0 <= i < j < |view| && pod in view[j] ==> pod in view[i]
  }

  /** The search stops at a boundary of ownership. */
  lemma {:induction false} SoloBoundary(view: View, pod: nat, lo: nat, hi: nat)
    requires lo <= hi <= |view|
    requires lo > 0 ==> pod in view[lo - 1]
    requires hi < |view| ==> pod !in view[hi]
    ensures var d := SoloDepth(view, pod, lo, hi);
      (d > 0 ==> pod in view[d - 1]) && (d < |view| ==> pod !in view[d])
    decreases hi - lo
  {
    if lo < hi {
      var mid := Probe(lo, hi);
      if pod in view[mid - 1] {
        SoloBoundary(view, pod, mid, hi);
      } else {
        SoloBoundary(view, pod, lo, mid - 1);
      }
    }
  }

  /** Without any closure assumption the search lies between the scan and the last owned hash. */
  lemma DepthBracket(view: View, pod: nat)
    ensures var d := Depth(view, pod);
      && NaiveDepth(view, pod, 0) <= d <= HighestOwned(view, pod, |view|)
      && (d > 0 ==> pod in view[d - 1])
      && (d < |view| ==> pod !in view[d])
  {
    SoloBoundary(view, pod, 0, |view|);
  }

  /** With ownership closed under prefixes, fast search and linear scan agree. */
  lemma DepthOfClosed(view: View, pod: nat)
    requires PrefixClosed(view, pod)
    ensures Depth(view, pod) == NaiveDepth(view, pod, 0) == HighestOwned(view, pod, |view|)
  {
    DepthBracket(view, pod);
  }

  /** More ownership never means less depth. */
  lemma {:induction false} SoloMonotone(view: View, more: View, pod: nat, lo: nat, hi: nat)
    requires |view| == |more| && lo <= hi <= |view|
    requires forall i :: 0 <= i < |view| && pod in view[i] ==> pod in more[i]
    ensures SoloDepth(view, pod, lo, hi) <= SoloDepth(more, pod, lo, hi)
    decreases hi - lo
  {
    if lo < hi {
      var mid := Probe(lo, hi);
      if pod in view[mid - 1] {
        SoloMonotone(view, more, pod, mid, hi);
      } else if pod !in more[mid - 1] {
        SoloMonotone(view, more, pod, lo, mid - 1);
      }
    }
  }

  /** A pod's depth depends on its own ownership bits only. */
  lemma DepthIndependent(view: View, other: View, pod: nat)
    requires |view| == |other|
    requires forall i :: 0 <= i < |view| ==> (pod in view[i] <==> pod in other[i])
    ensures Depth(view, pod) == Depth(other, pod)
  {
    SoloMonotone(view, other, pod, 0, |view|);
    SoloMonotone(other, view, pod, 0, |view|);
  }

  lemma {:induction false} FullOwnerFullDepth(view: View, pod: nat, lo: nat, hi: nat)
    requires lo <= hi <= |view|
    requires forall i :: 0 <= i < |view| ==> pod in view[i]
    ensures SoloDepth(view, pod, lo, hi) == hi
    decreases hi - lo
  {
    if lo < hi {
      FullOwnerFullDepth(view, pod, Probe(lo, hi), hi);
    }
  }

  // All pods at once

  /** A set of pods whose depth is known to lie in [lo, hi]. */
  datatype Frame = Frame(lo: nat, hi: nat, pods: set<nat>) {

    ghost predicate Within(n: nat) {
      lo <= hi <= n
    }

    /** The pods that own the probed hash, and the interval they move to. */
    function Upper(owners: set<nat>): Frame
      requires lo < hi
    {
      Frame(Probe(lo, hi), hi, pods * owners)
    }

    function Lower(owners: set<nat>): Frame
      requires lo < hi
    {
      Frame(lo, Probe(lo, hi) - 1, pods - owners)
    }
  }

  /** The number of index lookups made for a frame and everything pushed from it. */
  ghost function Lookups(view: View, f: Frame): nat
    requires f.Within(|view|)
    decreases f.hi - f.lo
  {
    if f.pods == {} || f.lo == f.hi then 0
    else
      var owners := view[Probe(f.lo, f.hi) - 1];
      1 + Lookups(view, f.Upper(owners)) + Lookups(view, f.Lower(owners))
  }

  /** The number of frames processed when empty frames are not pushed. */
  ghost function FrameCount(view: View, f: Frame): nat
    requires f.Within(|view|)
    decreases f.hi - f.lo
  {
    if f.pods == {} then 0
    else if f.lo == f.hi then 1
    else
      var owners := view[Probe(f.lo, f.hi) - 1];
      1 + FrameCount(view, f.Upper(owners)) + FrameCount(view, f.Lower(owners))
  }

  /** The distinct depths found for the pods of a frame. */
  ghost function Depths(view: View, f: Frame): set<nat>
    requires f.Within(|view|)
  {
    set p | p in f.pods :: SoloDepth(view, p, f.lo, f.hi)
  }

  lemma DepthsInside(view: View, f: Frame)
    requires f.Within(|view|)
    ensures forall d :: d in Depths(view, f) ==> f.lo <= d <= f.hi
  {
  }

  lemma DepthsSplit(view: View, f: Frame)
    requires f.Within(|view|) && f.lo < f.hi
    ensures var owners := view[Probe(f.lo, f.hi) - 1];
      && Depths(view, f) == Depths(view, f.Upper(owners)) + Depths(view, f.Lower(owners))
      && |Depths(view, f)| == |Depths(view, f.Upper(owners))| + |Depths(view, f.Lower(owners))|
  {
    var owners := view[Probe(f.lo, f.hi) - 1];
    var up, low := f.Upper(owners), f.Lower(owners);
    DepthsInside(view, up);
    DepthsInside(view, low);
    forall d ensures d in Depths(view, f) <==> d in Depths(view, up) + Depths(view, low) {
      if d in Depths(view, f) {
        var p :| p in f.pods && SoloDepth(view, p, f.lo, f.hi) == d;
        assert p in up.pods || p in low.pods;
      }
      if d in Depths(view, up) {
        var p :| p in up.pods && SoloDepth(view, p, up.lo, up.hi) == d;
        assert SoloDepth(view, p, f.lo, f.hi) == d;
      }
      if d in Depths(view, low) {
        var p :| p in low.pods && SoloDepth(view, p, low.lo, low.hi) == d;
        assert SoloDepth(view, p, f.lo, f.hi) == d;
      }
    }
    assert Depths(view, up) !! Depths(view, low);
  }

  lemma LeafDepths(view: View, f: Frame)
    requires f.Within(|view|)
    ensures f.pods == {} ==> |Depths(view, f)| == 0
    ensures f.pods != {} && f.lo == f.hi ==> |Depths(view, f)| == 1
  {
    DepthsInside(view, f);
    if f.pods == {} {
      assert Depths(view, f) == {};
    } else if f.lo == f.hi {
      var p :| p in f.pods;
      assert SoloDepth(view, p, f.lo, f.hi) in Depths(view, f);
      assert Depths(view, f) == {f.lo};
    }
  }

  /** Every processed frame is a lookup or settles one depth nobody else has. */
  lemma {:induction false} FramesAreLookupsAndDepths(view: View, f: Frame)
    requires f.Within(|view|)
    ensures FrameCount(view, f) == Lookups(view, f) + |Depths(view, f)|
    decreases f.hi - f.lo
  {
    hide Depths, Probe;
    LeafDepths(view, f);
    if f.pods != {} && f.lo < f.hi {
      var owners := view[Probe(f.lo, f.hi) - 1];
      DepthsSplit(view, f);
      FramesAreLookupsAndDepths(view, f.Upper(owners));
      FramesAreLookupsAndDepths(view, f.Lower(owners));
    }
  }

  /** ceil(log2(size)) */
  function CeilLog2(size: nat): nat {
    if size <= 1 then 0 else 1 + CeilLog2((size + 1) / 2)
  }

  lemma {:induction false} CeilLog2Monotone(a: nat, b: nat)
    requires a <= b
    ensures CeilLog2(a) <= CeilLog2(b)
  {
    if a > 1 {
      CeilLog2Monotone((a + 1) / 2, (b + 1) / 2);
    }
  }

  lemma {:induction false} CeilLog2IsLog(size: nat, k: nat)
    ensures CeilLog2(size) <= k <==> size <= Power2(k)
  {
    if size > 1 && k > 0 {
      CeilLog2IsLog((size + 1) / 2, k - 1);
    }
  }

  function Power2(k: nat): (p: nat)
    ensures p >= 1
  {
    if k == 0 then 1 else 2 * Power2(k - 1)
  }

  /** Halves of an interval need one probe less than the interval. */
  lemma HalvesAreSmaller(lo: nat, hi: nat)
    requires lo < hi
    ensures CeilLog2(hi - Probe(lo, hi) + 1) < CeilLog2(hi - lo + 1)
    ensures CeilLog2(Probe(lo, hi) - lo) < CeilLog2(hi - lo + 1)
  {
    CeilLog2Monotone(hi - Probe(lo, hi) + 1, (hi - lo + 2) / 2);
    CeilLog2Monotone(Probe(lo, hi) - lo, (hi - lo + 2) / 2);
  }

  // When the search is the scan

  /** The probes beyond d that a search of [lo, hi] for depth d makes: they depend on the interval
      and on d alone. */
  function Overshoots(lo: nat, hi: nat, d: nat): (probes: set<nat>)
    requires lo <= d <= hi
    ensures forall p :: p in probes ==> d < p <= hi
    decreases hi - lo
  {
    if lo == hi then {}
    else if Probe(lo, hi) <= d then Overshoots(Probe(lo, hi), hi, d)
    else {Probe(lo, hi)} + Overshoots(lo, Probe(lo, hi) - 1, d)
  }

  lemma OneMore(p: nat, probes: set<nat>)
    ensures |{p} + probes| <= 1 + |probes|
  {
    if p in probes {
      assert {p} + probes == probes;
    }
  }

  lemma NoOvershoot(lo: nat)
    ensures |Overshoots(lo, lo, lo)| <= CeilLog2(1)
  {
  }

  lemma OvershootsStep(lo: nat, hi: nat, d: nat, mid: nat)
    requires lo <= d <= hi && lo < hi && mid == Probe(lo, hi)
    ensures |Overshoots(lo, hi, d)| <=
      if mid <= d then |Overshoots(mid, hi, d)| else 1 + |Overshoots(lo, mid - 1, d)|
  {
    hide Probe, CeilLog2;
    if mid > d {
      OneMore(mid, Overshoots(lo, mid - 1, d));
    }
  }

  /** A search for d makes at most ceil(log2) probes, so only so many can overshoot. */
  lemma {:induction false} FewOvershoots(lo: nat, hi: nat, d: nat)
    requires lo <= d <= hi
    ensures |Overshoots(lo, hi, d)| <= CeilLog2(hi - lo + 1)
    decreases hi - lo
  {
    hide CeilLog2, Overshoots, Probe;
    if lo == hi {
      NoOvershoot(lo);
    } else {
      var mid := Probe(lo, hi);
      OvershootsStep(lo, hi, d, mid);
      HalvesAreSmaller(lo, hi);
      if mid <= d {
        FewOvershoots(mid, hi, d);
      } else {
        FewOvershoots(lo, mid - 1, d);
      }
    }
  }

  /** The pod owns no hash that a search for d would probe beyond d. */
  ghost predicate NoneBeyond(view: View, pod: nat, probes: set<nat>)
    requires forall p :: p in probes ==> 0 < p <= |view|
  {
    forall p :: p in probes ==> pod !in view[p - 1]
  }

  lemma {:induction false} SoloIsScanExactly(view: View, pod: nat, lo: nat, hi: nat)
    requires lo <= NaiveDepth(view, pod, 0) <= hi <= |view|
    ensures var d := NaiveDepth(view, pod, 0);
      SoloDepth(view, pod, lo, hi) == d <==> NoneBeyond(view, pod, Overshoots(lo, hi, d))
    decreases hi - lo
  {
    var d := NaiveDepth(view, pod, 0);
    if lo < hi {
      var mid := Probe(lo, hi);
      if mid <= d {
        SoloIsScanExactly(view, pod, mid, hi);
      } else if pod in view[mid - 1] {
        assert mid in Overshoots(lo, hi, d);
      } else {
        SoloIsScanExactly(view, pod, lo, mid - 1);
      }
    }
  }

  /** The pod owns none of the hashes that a search for its scan depth would probe beyond it. */
  ghost predicate ClearPath(view: View, pod: nat) {
    NoneBeyond(view, pod, Overshoots(0, |view|, NaiveDepth(view, pod, 0)))
  }

  /** For any ownership whatever the search finds the scan's depth exactly on a clear path, which
      depends on at most ceil(log2(n + 1)) ownership bits beyond the scan. */
  lemma SearchIsScanExactly(view: View, pod: nat)
    ensures Depth(view, pod) == NaiveDepth(view, pod, 0) <==> ClearPath(view, pod)
    ensures |Overshoots(0, |view|, NaiveDepth(view, pod, 0))| <= CeilLog2(|view| + 1)
  {
    SoloIsScanExactly(view, pod, 0, |view|);
    FewOvershoots(0, |view|, NaiveDepth(view, pod, 0));
  }

  lemma SoloStep(view: View, pod: nat, lo: nat, hi: nat, mid: nat)
    requires lo < hi <= |view| && mid == (lo + hi + 1) / 2
    ensures lo < mid <= hi
    ensures SoloDepth(view, pod, lo, hi) ==
      if pod in view[mid - 1] then SoloDepth(view, pod, mid, hi) else SoloDepth(view, pod, lo, mid - 1)
  {
  }

  lemma SoloPoint(view: View, pod: nat, d: nat)
    ensures d <= |view| ==> SoloDepth(view, pod, d, d) == d
  {
  }

  /** Three hashes: the search probes the second, then the third or the first. */
  lemma ThreeHashes(view: View, pod: nat)
    requires |view| == 3
    ensures Depth(view, pod) ==
      if pod in view[1] then (if pod in view[2] then 3 else 2) else if pod in view[0] then 1 else 0
  {
    hide SoloDepth;
    SoloStep(view, pod, 0, 3, 2);
    SoloStep(view, pod, 2, 3, 3);
    SoloStep(view, pod, 0, 1, 1);
    SoloPoint(view, pod, 0);
    SoloPoint(view, pod, 1);
    SoloPoint(view, pod, 2);
    SoloPoint(view, pod, 3);
  }

  /** A gap the search jumps: a pod that owns only the second of three hashes. */
  lemma DepthBeyondGap()
    ensures Depth([{}, {0}, {}], 0) == 2 && NaiveDepth([{}, {0}, {}], 0, 0) == 0
  {
    var view: View := [{}, {0}, {}];
    hide Depth, SoloDepth;
    assert 0 in view[1] && 0 !in view[2] && 0 !in view[0];
    ThreeHashes(view, 0);
  }

  /** A gap that makes no difference: the hash beyond it is not among the probes. */
  lemma DepthBelowGap()
    ensures Depth([{0}, {}, {0}], 0) == 1 && NaiveDepth([{0}, {}, {0}], 0, 0) == 1
  {
    var view: View := [{0}, {}, {0}];
    hide Depth, SoloDepth;
    assert 0 in view[0] && 0 !in view[1];
    ThreeHashes(view, 0);
    assert NaiveDepth(view, 0, 0) == NaiveDepth(view, 0, 1);
  }

  /** A linear scan of the interval would make at least as many lookups. */
  lemma {:induction false} LookupsWithinWidth(view: View, f: Frame)
    requires f.Within(|view|)
    ensures Lookups(view, f) <= f.hi - f.lo
    decreases f.hi - f.lo
  {
    if f.pods != {} && f.lo < f.hi {
      var owners := view[Probe(f.lo, f.hi) - 1];
      LookupsWithinWidth(view, f.Upper(owners));
      LookupsWithinWidth(view, f.Lower(owners));
    }
  }

  /** Each distinct depth costs at most one binary search. */
  lemma {:induction false} LookupsPerDepth(view: View, f: Frame)
    requires f.Within(|view|)
    ensures Lookups(view, f) <= |Depths(view, f)| * CeilLog2(f.hi - f.lo + 1)
    decreases f.hi - f.lo
  {
    hide CeilLog2, Depths, Probe;
    if f.pods != {} && f.lo < f.hi {
      var owners := view[Probe(f.lo, f.hi) - 1];
      var up, low := f.Upper(owners), f.Lower(owners);
      LookupsPerDepth(view, up);
      LookupsPerDepth(view, low);
      DepthsSplit(view, f);
      SomeDepth(view, f);
      HalvesAreSmaller(f.lo, f.hi);
      ProbeSum(|Depths(view, up)|, |Depths(view, low)|, CeilLog2(up.hi - up.lo + 1),
               CeilLog2(low.hi - low.lo + 1), CeilLog2(f.hi - f.lo + 1));
    }
  }

  lemma SomeDepth(view: View, f: Frame)
    requires f.Within(|view|)
    ensures f.pods != {} <==> Depths(view, f) != {}
  {
    if p :| p in f.pods {
      assert SoloDepth(view, p, f.lo, f.hi) in Depths(view, f);
    }
  }

  lemma ProbeSum(a: nat, b: nat, x: nat, y: nat, z: nat)
    requires x < z && y < z && a + b > 0
    ensures 1 + a * x + b * y <= (a + b) * z
  {
    assert a * x <= a * (z - 1);
    assert b * y <= b * (z - 1);
    assert a * (z - 1) + b * (z - 1) == (a + b) * z - (a + b);
  }

  // The stack of the search

  function PushNonEmpty(st: seq<Frame>, f: Frame): seq<Frame> {
    if f.pods == {} then st else st + [f]
  }

  ghost function Sum(st: seq<Frame>, w: Frame -> nat): nat {
    if st == [] then 0 else Sum(st[..|st| - 1], w) + w(st[|st| - 1])
  }

  lemma SumPush(st: seq<Frame>, f: Frame, w: Frame -> nat)
    ensures Sum(st + [f], w) == Sum(st, w) + w(f)
    ensures Sum(PushNonEmpty(st, f), w) == Sum(st, w) + if f.pods == {} then 0 else w(f)
  {
    assert (st + [f])[..|st|] == st;
  }

  /** A bound on the probes still to come. */
  function Width(f: Frame): nat {
    if f.lo <= f.hi then f.hi - f.lo else 0
  }

  /** Decreases with every frame processed. */
  function Work(f: Frame): nat {
    2 * Width(f) + 1
  }

  ghost predicate FitsAt(f: Frame, i: nat, n: nat) {
    f.Within(n) && i + CeilLog2(f.hi - f.lo + 1) <= CeilLog2(n + 1)
  }

  /** Every frame fits its place: position plus remaining probes stay within those of the root. */
  ghost predicate Fits(st: seq<Frame>, n: nat) {
    forall i :: 0 <= i < |st| ==> FitsAt(st[i], i, n)
  }

  ghost predicate NonEmpty(st: seq<Frame>) {
    forall i :: 0 <= i < |st| ==> st[i].pods != {}
  }

  lemma FitsBound(st: seq<Frame>, n: nat)
    requires Fits(st, n)
    ensures |st| <= 1 + CeilLog2(n + 1)
  {
    if st != [] {
      assert FitsAt(st[|st| - 1], |st| - 1, n);
    }
  }

  /** Splitting the top frame, in either push order. */
  lemma SplitFits(rest: seq<Frame>, f: Frame, first: Frame, second: Frame, owners: set<nat>, n: nat)
    requires Fits(rest + [f], n) && f.lo < f.hi
    requires (first == f.Upper(owners) && second == f.Lower(owners))
          || (first == f.Lower(owners) && second == f.Upper(owners))
    ensures var st := PushNonEmpty(PushNonEmpty(rest, first), second);
      Fits(st, n) && (NonEmpty(rest) ==> NonEmpty(st))
  {
    hide CeilLog2;
    assert (rest + [f])[|rest|] == f;
    assert forall i :: 0 <= i < |rest| ==> (rest + [f])[i] == rest[i];
    HalvesAreSmaller(f.lo, f.hi);
  }

  lemma SplitSums(rest: seq<Frame>, f: Frame, first: Frame, second: Frame, w: Frame -> nat)
    ensures Sum(rest + [f], w) == Sum(rest, w) + w(f)
    ensures Sum(PushNonEmpty(PushNonEmpty(rest, first), second), w)
      == Sum(rest, w) + (if first.pods == {} then 0 else w(first)) + (if second.pods == {} then 0 else w(second))
  {
    SumPush(rest, f, w);
    SumPush(rest, first, w);
    SumPush(PushNonEmpty(rest, first), second, w);
  }

  // Where every pod is: still in a frame that may hold it, or settled

  /** `good(p, lo, hi)` says that the depth of p may be taken from [lo, hi]. */
  ghost predicate Covers(st: seq<Frame>, root: set<nat>, lengths: seq<nat>, good: (nat, nat, nat) -> bool) {
    && (forall f, p :: f in st && p in f.pods ==> p in root && good(p, f.lo, f.hi))
    && (forall p :: p in root ==> Waiting(st, p) || Settled(lengths, p, good))
  }

  ghost predicate Waiting(st: seq<Frame>, p: nat) {
    exists f :: f in st && p in f.pods
  }

  ghost predicate Settled(lengths: seq<nat>, p: nat, good: (nat, nat, nat) -> bool) {
    p < |lengths| ==> good(p, lengths[p], lengths[p])
  }

  lemma CoversStart(root: set<nat>, n: nat, lengths: seq<nat>, good: (nat, nat, nat) -> bool)
    requires forall p :: p in root ==> good(p, 0, n)
    ensures Covers([Frame(0, n, root)], root, lengths, good)
  {
    assert Frame(0, n, root) in [Frame(0, n, root)];
  }

  lemma CoversTop(rest: seq<Frame>, f: Frame, root: set<nat>, lengths: seq<nat>, good: (nat, nat, nat) -> bool)
    requires Covers(rest + [f], root, lengths, good)
    ensures f.pods <= root
    ensures forall p :: p in f.pods ==> good(p, f.lo, f.hi)
  {
    assert (rest + [f])[|rest|] == f;
    assert f in rest + [f];
  }

  ghost predicate Implies(good: (nat, nat, nat) -> bool, better: (nat, nat, nat) -> bool) {
    forall p, lo, hi :: good(p, lo, hi) ==> better(p, lo, hi)
  }

  /** What a lookup establishes for the two halves of a frame. */
  ghost predicate Halved(f: Frame, owners: set<nat>, good: (nat, nat, nat) -> bool)
    requires f.lo < f.hi
  {
    && (forall p :: p in f.pods * owners ==> good(p, Probe(f.lo, f.hi), f.hi))
    && (forall p :: p in f.pods - owners ==> good(p, f.lo, Probe(f.lo, f.hi) - 1))
  }

  lemma CoversWeaken(st: seq<Frame>, root: set<nat>, lengths: seq<nat>,
                     good: (nat, nat, nat) -> bool, better: (nat, nat, nat) -> bool)
    requires Covers(st, root, lengths, good) && Implies(good, better)
    ensures Covers(st, root, lengths, better)
  {
  }

  lemma CoversSplit(rest: seq<Frame>, f: Frame, owners: set<nat>, next: seq<Frame>,
                    root: set<nat>, lengths: seq<nat>, good: (nat, nat, nat) -> bool)
    requires f.lo < f.hi && Covers(rest + [f], root, lengths, good)
    requires forall g :: g in rest ==> g in next
    requires f.Upper(owners).pods != {} ==> f.Upper(owners) in next
    requires f.Lower(owners).pods != {} ==> f.Lower(owners) in next
    requires forall g :: g in next && g !in rest ==> g == f.Upper(owners) || g == f.Lower(owners)
    requires Halved(f, owners, good)
    ensures Covers(next, root, lengths, good)
  {
    assert f in rest + [f];
    assert forall g :: g in rest ==> g in rest + [f];
    forall p | p in root ensures Waiting(next, p) || Settled(lengths, p, good) {
      if Waiting(rest + [f], p) {
        var g :| g in rest + [f] && p in g.pods;
        if g !in rest {
          assert p in f.Upper(owners).pods || p in f.Lower(owners).pods;
        }
      }
    }
  }

  lemma CoversLeaf(rest: seq<Frame>, f: Frame, root: set<nat>, before: seq<nat>, after: seq<nat>,
                   good: (nat, nat, nat) -> bool)
    requires f.lo == f.hi && Covers(rest + [f], root, before, good)
    requires |after| == |before|
    requires forall p :: 0 <= p < |after| ==> after[p] == if p in f.pods then f.lo else before[p]
    ensures Covers(rest, root, after, good)
  {
    assert f in rest + [f];
    assert forall g :: g in rest ==> g in rest + [f];
    forall p | p in root ensures Waiting(rest, p) || Settled(after, p, good) {
      if Waiting(rest + [f], p) {
        var g :| g in rest + [f] && p in g.pods;
        assert g in rest || p in f.pods;
      } else {
        assert Settled(before, p, good);
      }
      if p in f.pods {
        assert Settled(after, p, good);
      }
    }
  }

  lemma PushedFrames(rest: seq<Frame>, first: Frame, second: Frame)
    ensures forall g :: g in PushNonEmpty(PushNonEmpty(rest, first), second) <==>
      (g in rest || (g == first && first.pods != {}) || (g == second && second.pods != {}))
  {
  }
}
