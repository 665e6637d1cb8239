/**
 Geometry of the 8192-slot ring: 128 words of 64 bits, addressed by the
 absolute packet counter. A bitmap is read slot by slot (`Slot`), and each
 masked word write is described by the slots it changes.
 */
module Ring {
  import opened Word64
  import opened History

  const NUM_BLOCKS: nat := 128
  const BLOCK_BITS: nat := 64
  const RING_MASK: u64 := 127
  const BIT_MASK: u64 := 63

  /** Slot shared by all counters congruent modulo the window size. */
  function RingSlot(c: nat): nat {
    c % WINDOW_SIZE
  }

  predicate Slot(bitmap: seq<u64>, s: nat)
    requires |bitmap| == NUM_BLOCKS && s < WINDOW_SIZE
  {
    Bit(bitmap[s / BLOCK_BITS], s % BLOCK_BITS)
  }

  /** Word of the ring that holds `c`'s slot. */
  function RingIndex(c: u64): (w: nat)
    ensures w == RingSlot(c) / BLOCK_BITS < NUM_BLOCKS
  {
    AndMask127(c / BLOCK_BITS);
    SlotParts(c);
    And(c / BLOCK_BITS, RING_MASK)
  }

  /** Position of `c`'s slot within its word. */
  function BitIndex(c: u64): (b: nat)
    ensures b == RingSlot(c) % BLOCK_BITS < BLOCK_BITS
  {
    AndMask63(c);
    SlotParts(c);
    And(c, BIT_MASK)
  }

  function BitOf(c: u64): u64 {
    Shl(1, BitIndex(c))
  }

  /** Bits `lo..=hi` set, all others clear. */
  function MaskBetween(lo: nat, hi: nat): u64
    requires lo <= hi < BLOCK_BITS
  {
    Shl(Shr(MAX, 63 - (hi - lo)), lo)
  }

  lemma MaskBetweenBit(lo: nat, hi: nat, i: nat)
    requires lo <= hi < BLOCK_BITS && i < BLOCK_BITS
    ensures Bit(MaskBetween(lo, hi), i) <==> lo <= i <= hi
  {
    ShlBit(Shr(MAX, 63 - (hi - lo)), lo, i);
    if lo <= i {
      ShrBit(MAX, 63 - (hi - lo), i - lo);
      OnesIsMax();
      OnesBit(64, i - lo + (63 - (hi - lo)));
    }
  }

  lemma SlotParts(c: nat)
    ensures RingSlot(c) / BLOCK_BITS == c / BLOCK_BITS % NUM_BLOCKS
    ensures RingSlot(c) % BLOCK_BITS == c % BLOCK_BITS
  {
    var q, r := c / WINDOW_SIZE, c % WINDOW_SIZE;
    assert c / BLOCK_BITS == NUM_BLOCKS * q + r / BLOCK_BITS;
  }

  /** Two different counters less than a window apart have different slots. */
  lemma SlotsApart(x: nat, y: nat)
    requires x < y < x + WINDOW_SIZE
    ensures RingSlot(x) != RingSlot(y)
  {
  }

  /** `bitmap[w] & bit != 0` reads the counter's slot. */
  lemma TestSlot(bitmap: seq<u64>, c: u64)
    requires |bitmap| == NUM_BLOCKS
    ensures And(bitmap[RingIndex(c)], BitOf(c)) != 0 <==> Slot(bitmap, RingSlot(c))
  {
    TestBit(bitmap[RingIndex(c)], BitIndex(c));
  }

  /** `bitmap[w] |= bit` sets the counter's slot and no other. */
  lemma SetSlot(bitmap: seq<u64>, c: u64, s: nat)
    requires |bitmap| == NUM_BLOCKS && s < WINDOW_SIZE
    ensures Or(bitmap[RingIndex(c)], BitOf(c)) < TWO_64
    ensures Slot(bitmap[RingIndex(c) := Or(bitmap[RingIndex(c)], BitOf(c))], s) <==> Slot(bitmap, s) || s == RingSlot(c)
  {
    var w := RingIndex(c);
    OrFits(bitmap[w], BitOf(c));
    OrBit(bitmap[w], BitOf(c), s % BLOCK_BITS);
    OneBit(BitIndex(c), s % BLOCK_BITS);
    SameSlot(s, RingSlot(c));
  }

  lemma SameSlot(s: nat, t: nat)
    ensures s == t <==> s / BLOCK_BITS == t / BLOCK_BITS && s % BLOCK_BITS == t % BLOCK_BITS
  {
  }

  /** `bitmap[w] &= !mask_between(lo, hi)` clears those slots of word `w`. */
  lemma MaskedWrite(bitmap: seq<u64>, w: nat, lo: nat, hi: nat, s: nat)
    requires |bitmap| == NUM_BLOCKS && w < NUM_BLOCKS && lo <= hi < BLOCK_BITS && s < WINDOW_SIZE
    ensures Slot(bitmap[w := And(bitmap[w], Not(MaskBetween(lo, hi)))], s)
            <==> Slot(bitmap, s) && !(s / BLOCK_BITS == w && lo <= s % BLOCK_BITS <= hi)
  {
    var i := s % BLOCK_BITS;
    AndBit(bitmap[w], Not(MaskBetween(lo, hi)), i);
    NotBit(MaskBetween(lo, hi), i);
    MaskBetweenBit(lo, hi, i);
  }

  /** `bitmap[w] = 0` clears the whole word. */
  lemma ZeroWrite(bitmap: seq<u64>, w: nat, s: nat)
    requires |bitmap| == NUM_BLOCKS && w < NUM_BLOCKS && s < WINDOW_SIZE
    ensures Slot(bitmap[w := 0], s) <==> Slot(bitmap, s) && s / BLOCK_BITS != w
  {
    ZeroBit(s % BLOCK_BITS);
  }

  /** Slot `s` belongs to some counter in `[lo, hi]`. */
  ghost predicate Covered(lo: nat, hi: nat, s: nat) {
    exists c: nat :: lo <= c <= hi && RingSlot(c) == s
  }

  /** Counters that share a word cover a run of positions in it. */
  lemma CoveredInWord(lo: nat, hi: nat, s: nat)
    requires lo <= hi && lo / BLOCK_BITS == hi / BLOCK_BITS && s < WINDOW_SIZE
    ensures Covered(lo, hi, s) <==>
      s / BLOCK_BITS == RingSlot(lo) / BLOCK_BITS && lo % BLOCK_BITS <= s % BLOCK_BITS <= hi % BLOCK_BITS
  {
    SlotParts(lo);
    if Covered(lo, hi, s) {
      var c: nat :| lo <= c <= hi && RingSlot(c) == s;
      SlotParts(c);
      Between(lo, c, hi);
    }
    if s / BLOCK_BITS == RingSlot(lo) / BLOCK_BITS && lo % BLOCK_BITS <= s % BLOCK_BITS <= hi % BLOCK_BITS {
      var c := lo / BLOCK_BITS * BLOCK_BITS + s % BLOCK_BITS;
      Between(lo, c, hi);
      SlotParts(c);
      SameSlot(s, RingSlot(c));
    }
  }

  lemma Between(lo: nat, c: nat, hi: nat)
    requires lo <= hi && lo / BLOCK_BITS == hi / BLOCK_BITS
    ensures lo <= c <= hi <==> c / BLOCK_BITS == lo / BLOCK_BITS && lo % BLOCK_BITS <= c % BLOCK_BITS <= hi % BLOCK_BITS
  {
  }

  /** Two adjacent ranges cover what their union covers. */
  lemma CoveredSplit(lo: nat, mid: nat, hi: nat, s: nat)
    requires lo <= mid <= hi
    ensures Covered(lo, hi, s) <==> Covered(lo, mid, s) || Covered(mid + 1, hi, s)
  {
    if Covered(lo, hi, s) {
      var c: nat :| lo <= c <= hi && RingSlot(c) == s;
      assert c <= mid || mid + 1 <= c;
    }
  }
}
