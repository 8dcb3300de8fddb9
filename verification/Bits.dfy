/** The 64-bit word operations behind `HostBitmap`, bit by bit: first as facts about machine
    words and one-bit masks, then about bit positions. */
module Bits {

  // Single-bit masks, as machine words only

  // The word operators have names so that facts about bit positions need not look inside them.

  function Meet(w: bv64, v: bv64): bv64 {
    w & v
  }

  function Join(w: bv64, v: bv64): bv64 {
    w | v
  }

  function Except(w: bv64, v: bv64): bv64 {
    w & !v
  }

  function Twice(w: bv64): bv64 {
    w << 1
  }

  /** w has the bit (or one of the bits) of m. */
  predicate Has(w: bv64, m: bv64) {
    w & m != 0
  }

  predicate OneHot(m: bv64) {
    m != 0 && m & (m - 1) == 0
  }

  lemma OneHotDichotomy(w: bv64, m: bv64)
    requires OneHot(m)
    ensures w & m == 0 || w & m == m
  {
  }

  lemma AndMeets(w: bv64, v: bv64, m: bv64)
    ensures (w & v) & m == (w & m) & (v & m)
  {
  }

  lemma OrMeets(w: bv64, v: bv64, m: bv64)
    ensures (w | v) & m == (w & m) | (v & m)
  {
  }

  lemma ExceptMeets(w: bv64, v: bv64, m: bv64)
    ensures (w & !v) & m == (w & m) & !(v & m)
  {
  }

  lemma OneHotMeet(w: bv64, v: bv64, m: bv64)
    requires OneHot(m)
    ensures Has(Meet(w, v), m) <==> Has(w, m) && Has(v, m)
  {
    OneHotDichotomy(w, m);
    OneHotDichotomy(v, m);
    AndMeets(w, v, m);
    hide OneHot;
  }

  lemma OneHotJoin(w: bv64, m: bv64, k: bv64)
    requires OneHot(m) && OneHot(k) && (m == k || !Has(m, k))
    ensures Has(Join(w, m), k) <==> m == k || Has(w, k)
  {
    OrMeets(w, m, k);
    OneHotDichotomy(w, k);
    OneHotDichotomy(m, k);
  }

  lemma ExceptCases(x: bv64, y: bv64, m: bv64)
    requires (x == 0 || x == m) && (y == 0 || y == m) && m != 0
    ensures x & !y != 0 <==> x != 0 && y == 0
  {
  }

  lemma OneHotExcept(w: bv64, v: bv64, m: bv64)
    requires OneHot(m)
    ensures Has(Except(w, v), m) <==> Has(w, m) && !Has(v, m)
  {
    OneHotDichotomy(w, m);
    OneHotDichotomy(v, m);
    ExceptMeets(w, v, m);
    ExceptCases(w & m, v & m, m);
  }

  /** m lies below k: the two share no bit, and every bit of m is among the bits below k. */
  predicate Below(m: bv64, k: bv64) {
    m & k == 0 && k & (m - 1) == 0 && m & (k - 1) == m
  }

  lemma DoubledAbove(m: bv64, k: bv64)
    requires OneHot(m) && OneHot(k) && OneHot(Twice(k)) && Below(m, k)
    ensures Below(m, Twice(k))
  {
    assert (k << 1) - 1 == (k - 1) | k;
    assert m & ((k << 1) - 1) == m;
  }

  lemma BelowDouble(m: bv64)
    requires OneHot(m) && OneHot(Twice(m))
    ensures Below(m, Twice(m))
  {
  }

  /** No bit of w lies below the bit of m. */
  predicate NoneBelow(w: bv64, m: bv64) {
    w & (m - 1) == 0
  }

  lemma ScanStep(w: bv64, m: bv64)
    requires OneHot(m) && NoneBelow(w, m) && !Has(w, m)
    ensures NoneBelow(w, m << 1)
    ensures m == 0x8000_0000_0000_0000 ==> w == 0
  {
  }

  /** `remaining & (remaining - 1)` */
  function DropLowest(r: bv64): bv64 {
    r & (r - 1)
  }

  lemma LowestBorrows(r: bv64, m: bv64)
    requires OneHot(m) && Has(r, m) && NoneBelow(r, m)
    ensures r & (r - 1) == r & !m
  {
    assert r - 1 == (r & !m) | (m - 1);
  }

  lemma LowestCleared(r: bv64, m: bv64)
    requires OneHot(m) && Has(r, m) && NoneBelow(r, m)
    ensures DropLowest(r) == Except(r, m)
  {
    LowestBorrows(r, m);
    hide OneHot, Has, NoneBelow;
  }

  lemma ClearedIsLess(r: bv64, m: bv64)
    requires Has(r, m)
    ensures Except(r, m) < r
  {
  }

  lemma SelfHas(m: bv64)
    requires OneHot(m)
    ensures Has(m, m)
  {
  }

  lemma DropLowestHas(r: bv64, m: bv64, k: bv64)
    requires OneHot(m) && OneHot(k) && (m == k || !Has(m, k))
    requires Has(r, m) && NoneBelow(r, m)
    ensures Has(DropLowest(r), k) <==> m != k && Has(r, k)
    ensures DropLowest(r) < r
  {
    hide Has, OneHot, Except, DropLowest, NoneBelow;
    LowestCleared(r, m);
    ClearedIsLess(r, m);
    OneHotExcept(r, m, k);
    if m == k {
      SelfHas(k);
    }
  }

  // Bit positions

  /** `w << i`, written as i doublings. */
  function ShiftLeft(w: bv64, i: nat): bv64 {
    if i == 0 then w else Twice(ShiftLeft(w, i - 1))
  }

  /** `1_u64 << i` */
  function Mask(i: nat): bv64
    requires i < 64
  {
    ShiftLeft(1, i)
  }

  predicate Bit(w: bv64, i: nat)
    requires i < 64
  {
    Has(w, Mask(i))
  }

  lemma TopMask()
    ensures Mask(63) == 0x8000_0000_0000_0000
  {
    assert ShiftLeft(1, 12) == 1 << 12;
    assert ShiftLeft(1, 24) == 1 << 24;
    assert ShiftLeft(1, 36) == 1 << 36;
    assert ShiftLeft(1, 48) == 1 << 48;
    assert ShiftLeft(1, 60) == 1 << 60;
  }

  lemma {:induction false} MaskNonZero(i: nat)
    requires i < 64
    ensures Mask(i) != 0
    decreases 64 - i
  {
    if i == 63 {
      TopMask();
    } else {
      MaskNonZero(i + 1);
      assert Mask(i + 1) == Mask(i) << 1;
    }
  }

  lemma {:induction false} MaskOneHot(i: nat)
    requires i < 64
    ensures OneHot(Mask(i))
  {
    MaskNonZero(i);
    if i > 0 {
      MaskOneHot(i - 1);
    }
  }

  lemma MaskTwice(i: nat)
    requires 0 < i < 64
    ensures Mask(i) == Twice(Mask(i - 1))
  {
    hide Twice;
  }

  lemma {:induction false} MasksOrdered(i: nat, j: nat)
    requires i < j < 64
    ensures Below(Mask(i), Mask(j))
  {
    hide Below, OneHot, Twice, Mask;
    MaskOneHot(i);
    MaskOneHot(j - 1);
    MaskOneHot(j);
    MaskTwice(j);
    if i < j - 1 {
      MasksOrdered(i, j - 1);
      DoubledAbove(Mask(i), Mask(j - 1));
    } else {
      BelowDouble(Mask(i));
    }
  }

  lemma MeetBit(w: bv64, v: bv64, i: nat)
    requires i < 64
    ensures Bit(Meet(w, v), i) <==> Bit(w, i) && Bit(v, i)
  {
    hide Has, OneHot, Meet, Mask;
    MaskOneHot(i);
    OneHotMeet(w, v, Mask(i));
  }

  lemma ExceptBit(w: bv64, v: bv64, i: nat)
    requires i < 64
    ensures Bit(Except(w, v), i) <==> Bit(w, i) && !Bit(v, i)
  {
    hide Has, OneHot, Except, Mask;
    MaskOneHot(i);
    OneHotExcept(w, v, Mask(i));
  }

  lemma SelfBit(m: bv64)
    requires OneHot(m)
    ensures Has(m, m) && !Has(m - 1, m)
  {
  }

  /** `1_u64 << k` has exactly bit k, and `(1_u64 << k) - 1` exactly the bits below k. */
  lemma MaskBits(k: nat, i: nat)
    requires k < 64 && i < 64
    ensures Bit(Mask(k), i) <==> i == k
    ensures Bit(Mask(k) - 1, i) <==> i < k
  {
    MaskOneHot(k);
    MaskOneHot(i);
    if i < k {
      MasksOrdered(i, k);
      Commuted(Mask(i), Mask(k));
    } else if k < i {
      MasksOrdered(k, i);
      Commuted(Mask(k), Mask(i));
    } else {
      SelfBit(Mask(k));
    }
  }

  lemma Commuted(m: bv64, k: bv64)
    requires OneHot(m) && OneHot(k) && Below(m, k)
    ensures !Has(k, m) && !Has(m, k)
    ensures Has(k - 1, m) && !Has(m - 1, k)
  {
  }

  lemma MasksDiffer(k: nat, i: nat)
    requires k < 64 && i < 64
    ensures OneHot(Mask(k)) && OneHot(Mask(i))
    ensures Mask(k) == Mask(i) <==> k == i
    ensures k != i ==> !Has(Mask(k), Mask(i))
  {
    hide Has, OneHot, Mask;
    MaskOneHot(k);
    MaskOneHot(i);
    MaskBits(k, i);
    MaskBits(k, k);
  }

  /** `w | 1_u64 << k` adds bit k. */
  lemma SetBit(w: bv64, k: nat, i: nat)
    requires k < 64 && i < 64
    ensures Bit(Join(w, Mask(k)), i) <==> i == k || Bit(w, i)
  {
    hide Has, OneHot, Join, Mask;
    MasksDiffer(k, i);
    OneHotJoin(w, Mask(k), Mask(i));
  }

  /** `w & !(1_u64 << k)` removes bit k. */
  lemma ClearBit(w: bv64, k: nat, i: nat)
    requires k < 64 && i < 64
    ensures Bit(Except(w, Mask(k)), i) <==> i != k && Bit(w, i)
  {
    hide Has, OneHot, Except, Mask;
    MasksDiffer(k, i);
    MaskOneHot(i);
    SelfHas(Mask(i));
    OneHotExcept(w, Mask(k), Mask(i));
  }

  lemma ConstantBits(i: nat)
    requires i < 64
    ensures !Bit(0, i)
    ensures Bit(0xFFFF_FFFF_FFFF_FFFF, i)
  {
    MaskNonZero(i);
  }

  /** `u64::trailing_zeros` of a nonzero word, scanning up from bit k. */
  function TrailingZeros(w: bv64, k: nat): (i: nat)
    requires w != 0 && k < 64 && NoneBelow(w, Mask(k))
    ensures k <= i < 64 && Bit(w, i) && NoneBelow(w, Mask(i))
    decreases 64 - k
  {
    if Bit(w, k) then k
    else
      ScanOn(w, k);
      TrailingZeros(w, k + 1)
  }

  lemma ScanOn(w: bv64, k: nat)
    requires w != 0 && k < 64 && NoneBelow(w, Mask(k)) && !Bit(w, k)
    ensures k < 63 && NoneBelow(w, Mask(k + 1))
  {
    MaskOneHot(k);
    ScanStep(w, Mask(k));
    TopMask();
  }

  lemma TrailingZerosIsLeast(w: bv64, j: nat)
    requires w != 0 && j < 64 && NoneBelow(w, Mask(0)) && Bit(w, j)
    ensures TrailingZeros(w, 0) <= j
  {
    var i := TrailingZeros(w, 0);
    if j < i {
      MasksOrdered(j, i);
      BelowNone(w, Mask(j), Mask(i));
    }
  }

  lemma BelowNone(w: bv64, m: bv64, k: bv64)
    requires Below(m, k) && NoneBelow(w, k)
    ensures !Has(w, m)
  {
  }

  lemma StartOfScan(w: bv64)
    ensures NoneBelow(w, Mask(0))
  {
  }

  /** `remaining &= remaining - 1` removes exactly the lowest set bit. */
  lemma DropLowestBit(r: bv64, j: nat)
    requires r != 0 && j < 64 && NoneBelow(r, Mask(0))
    ensures Bit(DropLowest(r), j) <==> Bit(r, j) && j != TrailingZeros(r, 0)
    ensures DropLowest(r) < r
  {
    hide Has, OneHot, Mask, DropLowest, NoneBelow;
    var i := TrailingZeros(r, 0);
    MasksDiffer(i, j);
    DropLowestHas(r, Mask(i), Mask(j));
  }
}

/** A `u64` used as a set of 64 bit positions. */
module MachineWord {
  import opened Bits

  datatype Word = Word(value: bv64) {

    predicate Bit(i: nat)
      requires i < 64
    {
      Has(value, Mask(i))
    }

    predicate IsZero()
      ensures IsZero() <==> forall i: nat :: i < 64 ==> !Bit(i)
    {
      ZeroBits(this);
      value == 0
    }

    static function Zero(): (r: Word)
      ensures r.IsZero()
    {
      Word(0)
    }

    /** `u64::MAX` */
    static function Max(): (r: Word)
      ensures forall i: nat :: i < 64 ==> r.Bit(i)
    {
      MaxBits();
      Word(0xFFFF_FFFF_FFFF_FFFF)
    }

    /** `(1_u64 << k) - 1` */
    static function Low(k: nat): (r: Word)
      requires k < 64
      ensures forall i: nat :: i < 64 ==> (r.Bit(i) <==> i < k)
    {
      var low := Word(Mask(k) - 1);
      LowBits(k, low);
      low
    }

    function And(other: Word): (r: Word)
      ensures forall i: nat :: i < 64 ==> (r.Bit(i) <==> Bit(i) && other.Bit(i))
    {
      MeetBits(this, other);
      Word(Meet(value, other.value))
    }

    function AndNot(other: Word): (r: Word)
      ensures forall i: nat :: i < 64 ==> (r.Bit(i) <==> Bit(i) && !other.Bit(i))
    {
      ExceptBits(this, other);
      Word(Except(value, other.value))
    }

    /** `word | 1_u64 << k` */
    function With(k: nat): (r: Word)
      requires k < 64
      ensures forall i: nat :: i < 64 ==> (r.Bit(i) <==> i == k || Bit(i))
    {
      WithBits(this, k);
      Word(Join(value, Mask(k)))
    }

    /** `word & !(1_u64 << k)` */
    function Without(k: nat): (r: Word)
      requires k < 64
      ensures forall i: nat :: i < 64 ==> (r.Bit(i) <==> i != k && Bit(i))
    {
      WithoutBits(this, k);
      Word(Except(value, Mask(k)))
    }

    /** `trailing_zeros` of a nonzero word */
    function TrailingZeros(): (i: nat)
      requires !IsZero()
      ensures i < 64 && Bit(i) && forall j: nat :: j < i ==> !Bit(j)
    {
      TrailingZerosLeast(this);
      Bits.TrailingZeros(value, 0)
    }

    /** `63 - leading_zeros` of a nonzero word */
    function HighestBit(): (i: nat)
      requires !IsZero()
      ensures i < 64 && Bit(i) && forall j: nat :: i < j < 64 ==> !Bit(j)
    {
      HighestFrom(63)
    }

    function HighestFrom(k: nat): (i: nat)
      requires k < 64 && exists j: nat :: j <= k && Bit(j)
      ensures i <= k && Bit(i) && forall j: nat :: i < j <= k ==> !Bit(j)
    {
      if Bit(k) then k else HighestFrom(k - 1)
    }

    /** `remaining & (remaining - 1)`: the lowest set bit is gone, nothing else changes. */
    function DropLowest(): (r: Word)
      requires !IsZero()
      ensures forall i: nat :: i < 64 ==> (r.Bit(i) <==> Bit(i) && i != TrailingZeros())
      ensures r.value < value
    {
      DropLowestBits(this);
      Word(Bits.DropLowest(value))
    }
  }

  lemma ZeroBits(w: Word)
    ensures w.value == 0 <==> forall i: nat :: i < 64 ==> !w.Bit(i)
  {
    hide Has, Mask, NoneBelow;
    if w.value == 0 {
      forall i: nat | i < 64 ensures !w.Bit(i) { ConstantBits(i); }
    } else {
      StartOfScan(w.value);
      assert w.Bit(Bits.TrailingZeros(w.value, 0));
    }
  }

  lemma MaxBits()
    ensures forall i: nat :: i < 64 ==> Word(0xFFFF_FFFF_FFFF_FFFF).Bit(i)
  {
    hide Has, Mask;
    forall i: nat | i < 64 ensures Word(0xFFFF_FFFF_FFFF_FFFF).Bit(i) { ConstantBits(i); }
  }

  lemma LowBits(k: nat, low: Word)
    requires k < 64 && low.value == Mask(k) - 1
    ensures forall i: nat :: i < 64 ==> (low.Bit(i) <==> i < k)
  {
    hide Has, Mask;
    forall i: nat | i < 64 ensures low.Bit(i) <==> i < k { MaskBits(k, i); }
  }

  lemma MeetBits(w: Word, v: Word)
    ensures forall i: nat :: i < 64 ==> (Word(Meet(w.value, v.value)).Bit(i) <==> w.Bit(i) && v.Bit(i))
  {
    hide Has, Mask, Meet;
    forall i: nat | i < 64 ensures Word(Meet(w.value, v.value)).Bit(i) <==> w.Bit(i) && v.Bit(i) {
      MeetBit(w.value, v.value, i);
    }
  }

  lemma ExceptBits(w: Word, v: Word)
    ensures forall i: nat :: i < 64 ==> (Word(Except(w.value, v.value)).Bit(i) <==> w.Bit(i) && !v.Bit(i))
  {
    hide Has, Mask, Except;
    forall i: nat | i < 64 ensures Word(Except(w.value, v.value)).Bit(i) <==> w.Bit(i) && !v.Bit(i) {
      ExceptBit(w.value, v.value, i);
    }
  }

  lemma WithBits(w: Word, k: nat)
    requires k < 64
    ensures forall i: nat :: i < 64 ==> (Word(Join(w.value, Mask(k))).Bit(i) <==> i == k || w.Bit(i))
  {
    hide Has, Mask;
    forall i: nat | i < 64 ensures Word(Join(w.value, Mask(k))).Bit(i) <==> i == k || w.Bit(i) {
      SetBit(w.value, k, i);
    }
  }

  lemma WithoutBits(w: Word, k: nat)
    requires k < 64
    ensures forall i: nat :: i < 64 ==> (Word(Except(w.value, Mask(k))).Bit(i) <==> i != k && w.Bit(i))
  {
    hide Has, Mask;
    forall i: nat | i < 64 ensures Word(Except(w.value, Mask(k))).Bit(i) <==> i != k && w.Bit(i) {
      ClearBit(w.value, k, i);
    }
  }

  lemma TrailingZerosLeast(w: Word)
    requires w.value != 0
    ensures NoneBelow(w.value, Mask(0))
    ensures w.Bit(Bits.TrailingZeros(w.value, 0))
    ensures forall j: nat :: j < 64 && j < Bits.TrailingZeros(w.value, 0) ==> !w.Bit(j)
  {
    hide Has, Mask, NoneBelow;
    StartOfScan(w.value);
    forall j: nat | j < 64 && j < Bits.TrailingZeros(w.value, 0) ensures !w.Bit(j) {
      if w.Bit(j) {
        TrailingZerosIsLeast(w.value, j);
      }
    }
  }

  lemma DropLowestBits(w: Word)
    requires !w.IsZero()
    ensures Bits.DropLowest(w.value) < w.value
    ensures forall i: nat :: i < 64 ==>
      (Word(Bits.DropLowest(w.value)).Bit(i) <==> w.Bit(i) && i != w.TrailingZeros())
  {
    hide Has, Mask, NoneBelow, DropLowest;
    StartOfScan(w.value);
    DropLowestBit(w.value, 0);
    forall i: nat | i < 64
      ensures Word(Bits.DropLowest(w.value)).Bit(i) <==> w.Bit(i) && i != w.TrailingZeros()
    {
      DropLowestBit(w.value, i);
    }
  }
}
