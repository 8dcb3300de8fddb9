/** The bookkeeping shared by the searches that count their work: where every pod is, how many
    index lookups were made and how many frames were processed. */
module CountedSearch {
  import opened PrefixSearch

  /** The depth of the pod is the one its own binary search finds inside [lo, hi]. */
  ghost predicate SoloInterval(view: View, pod: nat, lo: nat, hi: nat) {
    lo <= hi <= |view| && SoloDepth(view, pod, lo, hi) == Depth(view, pod)
  }

  ghost function SoloGood(view: View): (nat, nat, nat) -> bool {
    (pod: nat, lo: nat, hi: nat) => SoloInterval(view, pod, lo, hi)
  }

  ghost function LookupsOf(view: View): Frame -> nat {
    (f: Frame) => if f.Within(|view|) then Lookups(view, f) else 0
  }

  /** Frames processed when only nonempty frames are pushed, except for the root. */
  ghost function FramesOf(view: View): Frame -> nat {
    (f: Frame) => if f.pods == {} then 1 else if f.Within(|view|) then FrameCount(view, f) else 0
  }

  /** Frames processed when both children are always pushed. */
  ghost function AllFrames(view: View, f: Frame): nat
    requires f.Within(|view|)
    decreases f.hi - f.lo
  {
    if f.pods == {} || f.lo == f.hi then 1
    else
      var owners := view[Probe(f.lo, f.hi) - 1];
      1 + AllFrames(view, f.Upper(owners)) + AllFrames(view, f.Lower(owners))
  }

  ghost function AllFramesOf(view: View): Frame -> nat {
    (f: Frame) => if f.Within(|view|) then AllFrames(view, f) else 0
  }

  lemma {:induction false} AllFramesIsTwiceLookups(view: View, f: Frame)
    requires f.Within(|view|)
    ensures AllFrames(view, f) == 1 + 2 * Lookups(view, f)
    decreases f.hi - f.lo
  {
    if f.pods != {} && f.lo < f.hi {
      var owners := view[Probe(f.lo, f.hi) - 1];
      AllFramesIsTwiceLookups(view, f.Upper(owners));
      AllFramesIsTwiceLookups(view, f.Lower(owners));
    }
  }

  ghost predicate AllWithin(st: seq<Frame>, n: nat) {
    forall i :: 0 <= i < |st| ==> st[i].Within(n)
  }

  /** The state between two frames; `w` tells how many frames a frame will still cost. */
  ghost predicate Counting(st: seq<Frame>, view: View, root: set<nat>, lengths: seq<nat>,
                           lookups: nat, frames: nat, w: Frame -> nat) {
    && AllWithin(st, |view|)
    && Covers(st, root, lengths, SoloGood(view))
    && lookups + Sum(st, LookupsOf(view)) == LookupsOf(view)(Frame(0, |view|, root))
    && frames + Sum(st, w) == w(Frame(0, |view|, root))
    && forall p :: 0 <= p < |lengths| && p !in root ==> lengths[p] == 0
  }

  lemma CountingStart(view: View, root: set<nat>, lengths: seq<nat>, w: Frame -> nat)
    requires forall p :: 0 <= p < |lengths| ==> lengths[p] == 0
    ensures Counting([Frame(0, |view|, root)], view, root, lengths, 0, 0, w)
  {
    hide Covers, SoloInterval, LookupsOf;
    var f := Frame(0, |view|, root);
    assert [] + [f] == [f];
    SumPush([], f, LookupsOf(view));
    SumPush([], f, w);
    forall p: nat ensures SoloGood(view)(p, 0, |view|) {
      WholeInterval(view, p);
    }
    CoversStart(root, |view|, lengths, SoloGood(view));
  }

  lemma WholeInterval(view: View, pod: nat)
    ensures SoloInterval(view, pod, 0, |view|)
  {
  }

  lemma CountingTop(rest: seq<Frame>, f: Frame, view: View, root: set<nat>, lengths: seq<nat>,
                    lookups: nat, frames: nat, w: Frame -> nat)
    requires Counting(rest + [f], view, root, lengths, lookups, frames, w)
    ensures f.Within(|view|) && f.pods <= root
  {
    hide SoloGood, Covers;
    assert (rest + [f])[|rest|] == f;
    CoversTop(rest, f, root, lengths, SoloGood(view));
  }

  lemma SplitSolo(view: View, pod: nat, lo: nat, hi: nat)
    requires lo < hi <= |view| && SoloInterval(view, pod, lo, hi)
    ensures if pod in view[Probe(lo, hi) - 1] then SoloInterval(view, pod, Probe(lo, hi), hi)
      else SoloInterval(view, pod, lo, Probe(lo, hi) - 1)
  {
    hide Depth, Probe;
    var mid := Probe(lo, hi);
    if pod in view[mid - 1] {
      assert SoloDepth(view, pod, lo, hi) == SoloDepth(view, pod, mid, hi);
    } else {
      assert SoloDepth(view, pod, lo, hi) == SoloDepth(view, pod, lo, mid - 1);
    }
  }

  /** A round that looks up one hash and pushes the nonempty children. */
  lemma CountingSplit(rest: seq<Frame>, f: Frame, view: View, root: set<nat>, lengths: seq<nat>,
                      lookups: nat, frames: nat)
    requires Counting(rest + [f], view, root, lengths, lookups, frames, FramesOf(view))
    requires f.pods != {} && f.lo < f.hi <= |view|
    ensures var owners := view[Probe(f.lo, f.hi) - 1];
      var next := PushNonEmpty(PushNonEmpty(rest, f.Upper(owners)), f.Lower(owners));
      && Counting(next, view, root, lengths, lookups + 1, frames + 1, FramesOf(view))
      && Sum(next, Work) < Sum(rest + [f], Work)
  {
    hide Sum, Probe, Covers, SoloInterval, LookupsOf, FramesOf, Work, PushNonEmpty, AllWithin;
    var owners := view[Probe(f.lo, f.hi) - 1];
    var first, second := f.Upper(owners), f.Lower(owners);
    WithinSplit(rest, f, owners, |view|);
    SplitSums(rest, f, first, second, LookupsOf(view));
    SplitSums(rest, f, first, second, FramesOf(view));
    SplitSums(rest, f, first, second, Work);
    SplitWeights(view, f);
    PushedFrames(rest, first, second);
    SplitCovers(rest, f, view, PushNonEmpty(PushNonEmpty(rest, first), second), root, lengths);
  }

  lemma WithinSplit(rest: seq<Frame>, f: Frame, owners: set<nat>, n: nat)
    requires AllWithin(rest + [f], n) && f.lo < f.hi
    ensures f.Within(n)
    ensures AllWithin(PushNonEmpty(PushNonEmpty(rest, f.Upper(owners)), f.Lower(owners)), n)
    ensures AllWithin(rest + [f.Upper(owners)] + [f.Lower(owners)], n)
  {
    hide Probe;
    assert (rest + [f])[|rest|] == f;
    assert forall i :: 0 <= i < |rest| ==> (rest + [f])[i] == rest[i];
  }

  /** What a lookup costs, and what it leaves to the children. */
  lemma SplitWeights(view: View, f: Frame)
    requires f.Within(|view|) && f.pods != {} && f.lo < f.hi
    ensures var owners := view[Probe(f.lo, f.hi) - 1];
      var up, low := f.Upper(owners), f.Lower(owners);
      && LookupsOf(view)(f) == 1 + LookupsOf(view)(up) + LookupsOf(view)(low)
      && (up.pods == {} ==> LookupsOf(view)(up) == 0) && (low.pods == {} ==> LookupsOf(view)(low) == 0)
      && FramesOf(view)(f) == 1 + (if up.pods == {} then 0 else FramesOf(view)(up))
                                + (if low.pods == {} then 0 else FramesOf(view)(low))
      && AllFramesOf(view)(f) == 1 + AllFramesOf(view)(up) + AllFramesOf(view)(low)
      && Work(f) == 1 + Work(up) + Work(low)
  {
    hide Probe;
    var owners := view[Probe(f.lo, f.hi) - 1];
    var up, low := f.Upper(owners), f.Lower(owners);
    assert up.Within(|view|) && low.Within(|view|);
    assert Lookups(view, f) == 1 + Lookups(view, up) + Lookups(view, low);
    assert FrameCount(view, f) == 1 + FrameCount(view, up) + FrameCount(view, low);
    assert AllFrames(view, f) == 1 + AllFrames(view, up) + AllFrames(view, low);
    assert up.pods == {} ==> Lookups(view, up) == 0 && FrameCount(view, up) == 0;
    assert low.pods == {} ==> Lookups(view, low) == 0 && FrameCount(view, low) == 0;
    assert Work(f) == 1 + Work(up) + Work(low);
  }

  /** A round that pushes both children, empty or not. */
  lemma CountingSplitAll(rest: seq<Frame>, f: Frame, view: View, root: set<nat>, lengths: seq<nat>,
                         lookups: nat, frames: nat)
    requires Counting(rest + [f], view, root, lengths, lookups, frames, AllFramesOf(view))
    requires f.pods != {} && f.lo < f.hi <= |view|
    ensures var owners := view[Probe(f.lo, f.hi) - 1];
      var next := rest + [f.Upper(owners)] + [f.Lower(owners)];
      && Counting(next, view, root, lengths, lookups + 1, frames + 1, AllFramesOf(view))
      && Sum(next, Work) < Sum(rest + [f], Work)
  {
    hide Sum, Probe, Covers, SoloInterval, LookupsOf, AllFramesOf, Work, AllWithin;
    var owners := view[Probe(f.lo, f.hi) - 1];
    var first, second := f.Upper(owners), f.Lower(owners);
    WithinSplit(rest, f, owners, |view|);
    PushBothSums(rest, f, first, second, LookupsOf(view));
    PushBothSums(rest, f, first, second, AllFramesOf(view));
    PushBothSums(rest, f, first, second, Work);
    SplitWeights(view, f);
    SplitCovers(rest, f, view, rest + [first] + [second], root, lengths);
  }

  lemma PushBothSums(rest: seq<Frame>, f: Frame, first: Frame, second: Frame, w: Frame -> nat)
    ensures Sum(rest + [f], w) == Sum(rest, w) + w(f)
    ensures Sum(rest + [first] + [second], w) == Sum(rest, w) + w(first) + w(second)
  {
    SumPush(rest, f, w);
    SumPush(rest, first, w);
    SumPush(rest + [first], second, w);
  }

  lemma SplitCovers(rest: seq<Frame>, f: Frame, view: View, next: seq<Frame>, root: set<nat>, lengths: seq<nat>)
    requires f.Within(|view|) && f.lo < f.hi
    requires Covers(rest + [f], root, lengths, SoloGood(view))
    requires var owners := view[Probe(f.lo, f.hi) - 1];
      && (forall g :: g in rest ==> g in next)
      && (f.Upper(owners).pods != {} ==> f.Upper(owners) in next)
      && (f.Lower(owners).pods != {} ==> f.Lower(owners) in next)
      && (forall g :: g in next && g !in rest ==> g == f.Upper(owners) || g == f.Lower(owners))
    ensures Covers(next, root, lengths, SoloGood(view))
  {
    hide Probe, Covers, SoloInterval;
    var owners := view[Probe(f.lo, f.hi) - 1];
    CoversTop(rest, f, root, lengths, SoloGood(view));
    forall p | p in f.pods
      ensures if p in owners then SoloGood(view)(p, Probe(f.lo, f.hi), f.hi)
        else SoloGood(view)(p, f.lo, Probe(f.lo, f.hi) - 1)
    {
      assert SoloGood(view)(p, f.lo, f.hi);
      SplitSolo(view, p, f.lo, f.hi);
    }
    CoversSplit(rest, f, owners, next, root, lengths, SoloGood(view));
  }

  /** A frame that costs no lookup: a settled depth, or nobody at all. */
  lemma CountingLeaf(rest: seq<Frame>, f: Frame, view: View, root: set<nat>, before: seq<nat>, after: seq<nat>,
                     lookups: nat, frames: nat, w: Frame -> nat)
    requires Counting(rest + [f], view, root, before, lookups, frames, w)
    requires (f.pods == {} || f.lo == f.hi) && w(f) == 1
    requires |after| == |before|
    requires forall p :: 0 <= p < |after| ==> after[p] == if p in f.pods then f.lo else before[p]
    ensures Counting(rest, view, root, after, lookups, frames + 1, w)
    ensures Sum(rest, Work) < Sum(rest + [f], Work)
  {
    hide SoloGood, Covers, Sum, LookupsOf;
    assert (rest + [f])[|rest|] == f;
    assert forall i :: 0 <= i < |rest| ==> (rest + [f])[i] == rest[i];
    LeafLookups(view, f);
    CoversTop(rest, f, root, before, SoloGood(view));
    SumPush(rest, f, LookupsOf(view));
    SumPush(rest, f, w);
    SumPush(rest, f, Work);
    if f.pods == {} {
      assert after == before;
      CoversDropEmpty(rest, f, root, before, SoloGood(view));
    } else {
      CoversLeaf(rest, f, root, before, after, SoloGood(view));
    }
  }

  lemma LeafLookups(view: View, f: Frame)
    requires f.pods == {} || f.lo == f.hi
    ensures LookupsOf(view)(f) == 0
  {
  }

  lemma CoversDropEmpty(rest: seq<Frame>, f: Frame, root: set<nat>, lengths: seq<nat>, good: (nat, nat, nat) -> bool)
    requires f.pods == {} && Covers(rest + [f], root, lengths, good)
    ensures Covers(rest, root, lengths, good)
  {
    assert forall g :: g in rest ==> g in rest + [f];
    forall p | p in root ensures Waiting(rest, p) || Settled(lengths, p, good) {
      if Waiting(rest + [f], p) {
        var g :| g in rest + [f] && p in g.pods;
        assert g in rest;
      }
    }
  }

  /** A leaf costs one frame under either count. */
  lemma LeafWeight(view: View, f: Frame)
    requires f.Within(|view|) && (f.pods == {} || f.lo == f.hi)
    ensures FramesOf(view)(f) == 1 && AllFramesOf(view)(f) == 1
  {
  }

  /** The finished search: every pod's own binary search, and the exact counts. */
  lemma CountingDone(view: View, root: set<nat>, lengths: seq<nat>, lookups: nat, frames: nat, w: Frame -> nat)
    requires Counting([], view, root, lengths, lookups, frames, w)
    ensures forall p :: 0 <= p < |lengths| ==> lengths[p] == if p in root then Depth(view, p) else 0
    ensures lookups == Lookups(view, Frame(0, |view|, root))
    ensures frames == w(Frame(0, |view|, root))
  {
    hide Depth, Lookups;
    forall p | 0 <= p < |lengths| && p in root ensures lengths[p] == Depth(view, p) {
      assert !Waiting([], p);
      assert Settled(lengths, p, SoloGood(view));
    }
  }
}
