/** A fixed set of at most 256 pods, kept as four 64-bit words
    (src/calinix/cache_registry/host_bitmap.rs).  Everything outside this module talks about
    `Pods()`, the set of pod ids a bitmap stands for. */
module Bitmap {
  import opened MachineWord
  import opened Wrappers

  const MAX_PODS: nat := 256
  const WORDS: nat := 4
  const BITS_PER_WORD: nat := 64

  type Words = ws: seq<Word> | |ws| == WORDS witness [Word(0), Word(0), Word(0), Word(0)]

  datatype HostBitmap = HostBitmap(words: Words) {

    predicate Contains(pod: nat) {
      pod < MAX_PODS && words[pod / BITS_PER_WORD].Bit(pod % BITS_PER_WORD)
    }

    ghost function Pods(): set<nat> {
      set pod: nat | pod < MAX_PODS && Contains(pod)
    }

    static function Empty(): (b: HostBitmap)
      ensures b.Pods() == {}
    {
      hide Word.Bit;
      HostBitmap([Word.Zero(), Word.Zero(), Word.Zero(), Word.Zero()])
    }

    predicate IsEmpty()
      ensures IsEmpty() <==> Pods() == {}
    {
      hide Word.Bit, Word.IsZero;
      NonEmptyWord(this);
      words[0].IsZero() && words[1].IsZero() && words[2].IsZero() && words[3].IsZero()
    }

    /** `set`, which ignores pods the four words cannot hold. */
    function Set(pod: nat): (b: HostBitmap)
      ensures b.Pods() == if pod < 256 then Pods() + {pod} else Pods()
    {
      hide Word.Bit, Word.With;
      if pod >= MAX_PODS then this
      else
        var w := pod / BITS_PER_WORD;
        HostBitmap(words[w := words[w].With(pod % BITS_PER_WORD)])
    }

    function Clear(pod: nat): (b: HostBitmap)
      ensures b.Pods() == Pods() - {pod}
    {
      hide Word.Bit, Word.Without;
      if pod >= MAX_PODS then this
      else
        var w := pod / BITS_PER_WORD;
        HostBitmap(words[w := words[w].Without(pod % BITS_PER_WORD)])
    }

    function And(other: HostBitmap): (b: HostBitmap)
      ensures b.Pods() == Pods() * other.Pods()
    {
      hide Word.Bit, Word.And;
      HostBitmap([words[0].And(other.words[0]), words[1].And(other.words[1]),
                  words[2].And(other.words[2]), words[3].And(other.words[3])])
    }

    function Minus(other: HostBitmap): (b: HostBitmap)
      ensures b.Pods() == Pods() - other.Pods()
    {
      hide Word.Bit, Word.AndNot;
      HostBitmap([words[0].AndNot(other.words[0]), words[1].AndNot(other.words[1]),
                  words[2].AndNot(other.words[2]), words[3].AndNot(other.words[3])])
    }

    /** `first_set_bit`: the least pod of the set. */
    method FirstSetBit() returns (first: Option<nat>)
      ensures first.None? <==> Pods() == {}
      ensures first.Some? ==> Least(Pods(), first.value)
    {
      hide Word.Bit, Word.IsZero, Word.TrailingZeros;
      for w := 0 to WORDS
        invariant forall p :: p in Pods() ==> w <= p / BITS_PER_WORD
      {
        if !words[w].IsZero() {
          var bit := words[w].TrailingZeros();
          InPods(this, w, bit);
          return Some(w * BITS_PER_WORD + bit);
        }
      }
      first := None;
    }

    /** `highest_set_bit_plus_one`: one more than the greatest pod, or 0 for the empty set. */
    method HighestSetBitPlusOne() returns (bound: nat)
      ensures bound <= 256
      ensures forall p :: p in Pods() ==> p < bound
      ensures bound > 0 ==> bound - 1 in Pods()
    {
      hide Word.Bit, Word.IsZero, Word.HighestBit;
      var w := WORDS;
      while w > 0
        invariant w <= WORDS
        invariant forall p :: p in Pods() ==> p / BITS_PER_WORD < w
      {
        w := w - 1;
        if !words[w].IsZero() {
          var bit := words[w].HighestBit();
          InPods(this, w, bit);
          return w * BITS_PER_WORD + bit + 1;
        }
      }
      bound := 0;
    }

    /** `for_each_set_bit`, with the visited pods collected as `iter_set_bits` does. */
    method IterSetBits() returns (visited: seq<nat>)
      ensures Ascending(visited)
      ensures forall p :: p in visited <==> p in Pods()
    {
      hide Word.Bit, Word.IsZero, Word.TrailingZeros, Word.DropLowest;
      visited := [];
      for w := 0 to WORDS
        invariant Ascending(visited)
        invariant forall p :: p in visited <==> p in Pods() && p / BITS_PER_WORD < w
      {
        var remaining := words[w];
        while !remaining.IsZero()
          invariant Ascending(visited)
          invariant forall j: nat :: j < 64 && remaining.Bit(j) ==> words[w].Bit(j)
          invariant forall p: nat :: p in visited <==> p in Pods() && Passed(p, w, remaining)
          invariant Ahead(visited, w, remaining)
          decreases remaining.value
        {
          var bit := remaining.TrailingZeros();
          InPods(this, w, bit);
          PassedNext(w, remaining);
          AheadNext(visited, w, remaining);
          visited := visited + [w * BITS_PER_WORD + bit];
          remaining := remaining.DropLowest();
        }
      }
    }

    /** `full_for_count`: the pods below `count`, capped at 256. */
    static method FullForCount(count: nat) returns (bitmap: HostBitmap)
      ensures forall p: nat :: p in bitmap.Pods() <==> p < 256 && p < count
    {
      hide Word.Bit, Word.Max, Word.Low, Word.Zero;
      var words: Words := [Word.Zero(), Word.Zero(), Word.Zero(), Word.Zero()];
      var capped := if count < MAX_PODS then count else MAX_PODS;
      var fullWords := capped / BITS_PER_WORD;
      for i := 0 to fullWords
        invariant |words| == WORDS
        invariant forall k :: 0 <= k < i ==> words[k] == Word.Max()
        invariant forall k :: i <= k < WORDS ==> words[k] == Word.Zero()
      {
        words := words[i := Word.Max()];
      }
      var remaining := capped % BITS_PER_WORD;
      if remaining > 0 && fullWords < WORDS {
        words := words[fullWords := Word.Low(remaining)];
      }
      bitmap := HostBitmap(words);
      assert forall p: nat :: p < MAX_PODS ==> (bitmap.Contains(p) <==> p < count);
    }
  }

  lemma InPods(b: HostBitmap, w: nat, i: nat)
    requires w < WORDS && i < BITS_PER_WORD
    ensures w * BITS_PER_WORD + i in b.Pods() <==> b.words[w].Bit(i)
  {
    hide Word.Bit;
    assert (w * BITS_PER_WORD + i) / BITS_PER_WORD == w;
    assert (w * BITS_PER_WORD + i) % BITS_PER_WORD == i;
  }

  lemma NonEmptyWord(b: HostBitmap)
    ensures forall w :: 0 <= w < WORDS && !b.words[w].IsZero() ==> b.Pods() != {}
  {
    hide Word.Bit, Word.IsZero, Word.TrailingZeros;
    forall w | 0 <= w < WORDS && !b.words[w].IsZero() ensures b.Pods() != {} {
      InPods(b, w, b.words[w].TrailingZeros());
    }
  }

  lemma PodInRange(b: HostBitmap, pod: nat)
    requires pod in b.Pods()
    ensures pod < MAX_PODS
  {
  }

  ghost predicate Least(pods: set<nat>, pod: nat) {
    pod in pods && forall p :: p in pods ==> pod <= p
  }

  // Visiting order

  predicate Ascending(pods: seq<nat>) {
    forall i, j :: 0 <= i < j < |pods| ==> pods[i] < pods[j]
  }

  /** Visiting has gone past p when word w is being read and `remaining` is left of it. */
  ghost predicate Passed(p: nat, w: nat, remaining: Word) {
    p / BITS_PER_WORD < w || (p / BITS_PER_WORD == w && !remaining.Bit(p % BITS_PER_WORD))
  }

  /** What is left of word w lies beyond every visited pod. */
  ghost predicate Ahead(visited: seq<nat>, w: nat, remaining: Word) {
    forall p: nat, j: nat :: p in visited && j < 64 && remaining.Bit(j) ==> p < w * BITS_PER_WORD + j
  }

  lemma PassedNext(w: nat, remaining: Word)
    requires !remaining.IsZero()
    ensures forall p: nat :: Passed(p, w, remaining.DropLowest()) <==>
      Passed(p, w, remaining) || p == w * BITS_PER_WORD + remaining.TrailingZeros()
  {
    hide Word.Bit, Word.IsZero, Word.TrailingZeros, Word.DropLowest;
  }

  lemma AheadNext(visited: seq<nat>, w: nat, remaining: Word)
    requires !remaining.IsZero()
    requires Ascending(visited) && Ahead(visited, w, remaining)
    ensures var next := visited + [w * BITS_PER_WORD + remaining.TrailingZeros()];
      Ascending(next) && Ahead(next, w, remaining.DropLowest())
  {
    hide Word.Bit, Word.IsZero, Word.TrailingZeros, Word.DropLowest;
    var bit := remaining.TrailingZeros();
    assert forall i :: 0 <= i < |visited| ==> visited[i] in visited;
    forall j: nat | j < 64 && remaining.DropLowest().Bit(j) ensures bit < j {
      assert remaining.Bit(j);
    }
  }

  /** An ascending list is determined by its members, so `IterSetBits` fixes the visiting order. */
  lemma {:induction false} AscendingUnique(a: seq<nat>, b: seq<nat>)
    requires Ascending(a) && Ascending(b)
    requires forall p :: p in a <==> p in b
    ensures a == b
  {
    if a == [] {
      assert forall i :: 0 <= i < |b| ==> b[i] in b;
    } else {
      assert a[0] in a && b != [];
      assert b[0] in a;
      assert a[0] == b[0];
      TailMembers(a);
      TailMembers(b);
      AscendingUnique(a[1..], b[1..]);
    }
  }

  lemma TailMembers(a: seq<nat>)
    requires Ascending(a) && a != []
    ensures forall p :: p in a[1..] <==> p in a && p != a[0]
  {
  }
}
