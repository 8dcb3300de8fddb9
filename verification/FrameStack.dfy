/** The frame stack of src/calinix/cache_registry/prefix_query.rs: 32 inline slots, then a heap
    vector that takes over everything. */
module FrameStack {
  import opened Wrappers
  import opened Bitmap
  import opened PrefixSearch

  const INLINE_SEARCH_FRAMES: nat := 32

  datatype SearchFrame = SearchFrame(minPrefixDepth: nat, maxPrefixDepth: nat, candidatePods: HostBitmap) {
    ghost function Abs(): Frame {
      Frame(minPrefixDepth, maxPrefixDepth, candidatePods.Pods())
    }
  }

  /** The stack as the frames on sets of pods that the specification speaks of. */
  ghost function AbsAll(frames: seq<SearchFrame>): (st: seq<Frame>)
    ensures |st| == |frames|
  {
    seq(|frames|, i requires 0 <= i < |frames| => frames[i].Abs())
  }

  lemma AbsPush(frames: seq<SearchFrame>, f: SearchFrame)
    ensures AbsAll(frames + [f]) == AbsAll(frames) + [f.Abs()]
  {
  }

  lemma Power2Of31()
    ensures Power2(31) == 0x8000_0000
  {
    assert Power2(8) == 0x100 && Power2(16) == 0x1_0000 && Power2(24) == 0x100_0000;
  }

  /** A stack whose frames fit never outgrows one frame per remaining halving, nor, for any chain
      shorter than 2^31 hashes, the inline slots. */
  lemma StackBound(st: seq<Frame>, n: nat)
    requires Fits(st, n)
    ensures |st| <= 1 + CeilLog2(n + 1)
    ensures n + 1 <= 0x8000_0000 ==> |st| <= 32
  {
    hide CeilLog2, Fits, Power2;
    FitsBound(st, n);
    Power2Of31();
    CeilLog2IsLog(n + 1, 31);
  }

  class SearchStack {
    const frames: array<SearchFrame>
    var len: nat
    var heap: Option<seq<SearchFrame>>

    ghost predicate Valid()
      reads this
    {
      frames.Length == INLINE_SEARCH_FRAMES && len <= INLINE_SEARCH_FRAMES
    }

    /** The frames from bottom to top, wherever they are stored. */
    ghost function Contents(): seq<SearchFrame>
      requires Valid()
      reads this, frames
    {
      match heap
      case Some(h) => h
      case None => frames[..len]
    }

    /** The same as frames on sets of pods. */
    ghost function Frames(): seq<Frame>
      requires Valid()
      reads this, frames
    {
      AbsAll(Contents())
    }

    constructor ()
      ensures Valid() && fresh(frames) && Contents() == [] && heap.None?
    {
      frames := new SearchFrame[INLINE_SEARCH_FRAMES](_ => SearchFrame(0, 0, HostBitmap.Empty()));
      len := 0;
      heap := None;
    }

    method Push(frame: SearchFrame)
      requires Valid()
      modifies this, frames
      ensures Valid() && Contents() == old(Contents()) + [frame]
      ensures heap.None? <==> old(heap).None? && |Contents()| <= 32
    {
      if heap.Some? {
        heap := Some(heap.value + [frame]);
      } else if len < INLINE_SEARCH_FRAMES {
        frames[len] := frame;
        len := len + 1;
      } else {
        SpillToHeap(frame);
      }
    }

    method Pop() returns (top: Option<SearchFrame>)
      requires Valid()
      modifies this
      ensures Valid() && (heap.None? <==> old(heap).None?)
      ensures top.None? <==> old(Contents()) == []
      ensures top.None? ==> Contents() == []
      ensures top.Some? ==> Contents() + [top.value] == old(Contents())
    {
      if heap.Some? {
        if heap.value == [] {
          return None;
        }
        top := Some(heap.value[|heap.value| - 1]);
        heap := Some(heap.value[..|heap.value| - 1]);
        return;
      }
      if len > 0 {
        len := len - 1;
        top := Some(frames[len]);
      } else {
        top := None;
      }
    }

    method SpillToHeap(frame: SearchFrame)
      requires Valid() && heap.None?
      modifies this
      ensures Valid() && heap == Some(old(Contents()) + [frame])
    {
      var spilled: seq<SearchFrame> := [];
      for index := 0 to len
        invariant heap.None? && len == old(len) && spilled == frames[..index]
      {
        spilled := spilled + [frames[index]];
      }
      len := 0;
      heap := Some(spilled + [frame]);
    }
  }
}
