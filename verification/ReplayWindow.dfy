/**
 The replay window that is shipped: a ring indexed by the absolute counter. It
 never moves a bit; an advance only clears the slots of skipped counters.
 */
module ReplayWindows {
  import opened Word64
  import opened History
  import opened Ring

  /** Inside the window below `max`, a set slot means "accepted". Slots are
      shared by all congruent counters, and this is the only reading of one
      that means anything. */
  ghost predicate Mirrors(bitmap: seq<u64>, max: u64, h: set<u64>) {
    |bitmap| == NUM_BLOCKS
    && forall c: u64 | max - WINDOW_SIZE < c <= max :: Slot(bitmap, RingSlot(c)) <==> c in h
  }

  ghost predicate IsMaximum(h: set<u64>, max: u64) {
    max in h && forall x <- h :: x <= max
  }

  /** Below `c`, the slots already say what `h` says. */
  ghost predicate MirrorsBelow(bitmap: seq<u64>, c: u64, h: set<u64>) {
    |bitmap| == NUM_BLOCKS
    && forall x: u64 | c - WINDOW_SIZE < x < c :: Slot(bitmap, RingSlot(x)) <==> x in h
  }

  /** Clearing the skipped counters moves the mirror up to below `c`. */
  lemma ClearingMirrors(before: seq<u64>, after: seq<u64>, max: u64, c: u64, h: set<u64>)
    requires Mirrors(before, max, h) && IsMaximum(h, max) && max < c
    requires Cleared(before, after, max + 1, c - 1)
    ensures MirrorsBelow(after, c, h)
  {
    forall x: u64 | c - WINDOW_SIZE < x < c ensures Slot(after, RingSlot(x)) <==> x in h {
      assert x > max ==> Covered(max + 1, c - 1, RingSlot(x));
      if x <= max && Covered(max + 1, c - 1, RingSlot(x)) {
        var y: nat :| max + 1 <= y <= c - 1 && RingSlot(y) == RingSlot(x);
        SlotsApart(x, y);
      }
    }
  }

  lemma ZeroMirrors(bitmap: seq<u64>, c: u64, h: set<u64>)
    requires |bitmap| == NUM_BLOCKS && forall i | 0 <= i < NUM_BLOCKS :: bitmap[i] == 0
    requires forall x <- h :: x + WINDOW_SIZE <= c
    ensures MirrorsBelow(bitmap, c, h)
  {
    forall x: u64 | c - WINDOW_SIZE < x < c ensures !Slot(bitmap, RingSlot(x)) {
      ZeroBit(RingSlot(x) % BLOCK_BITS);
    }
  }

  /** Setting the slot of the new maximum completes the mirror. */
  lemma TopMirrors(bitmap: seq<u64>, c: u64, h: set<u64>)
    requires MirrorsBelow(bitmap, c, h)
    ensures Or(bitmap[RingIndex(c)], BitOf(c)) < TWO_64
    ensures Mirrors(bitmap[RingIndex(c) := Or(bitmap[RingIndex(c)], BitOf(c))], c, h + {c})
  {
    SetSlot(bitmap, c, RingSlot(c));
    var after := bitmap[RingIndex(c) := Or(bitmap[RingIndex(c)], BitOf(c))];
    forall x: u64 | c - WINDOW_SIZE < x <= c ensures Slot(after, RingSlot(x)) <==> x in h + {c} {
      SetSlot(bitmap, c, RingSlot(x));
      if x < c {
        SlotsApart(x, c);
      }
    }
  }

  /** Accepting a counter inside the window sets its own slot only. */
  lemma FillMirrors(bitmap: seq<u64>, max: u64, c: u64, h: set<u64>)
    requires Mirrors(bitmap, max, h) && max - WINDOW_SIZE < c <= max
    ensures Or(bitmap[RingIndex(c)], BitOf(c)) < TWO_64
    ensures Mirrors(bitmap[RingIndex(c) := Or(bitmap[RingIndex(c)], BitOf(c))], max, h + {c})
  {
    SetSlot(bitmap, c, RingSlot(c));
    var after := bitmap[RingIndex(c) := Or(bitmap[RingIndex(c)], BitOf(c))];
    forall x: u64 | max - WINDOW_SIZE < x <= max ensures Slot(after, RingSlot(x)) <==> x in h + {c} {
      SetSlot(bitmap, c, RingSlot(x));
      if x != c {
        SlotsApart(if x < c then x else c, if x < c then c else x);
      }
    }
  }

  /** A counter any whole number of windows below the maximum shares the
      maximum's slot, which is set: there the slot test alone would refuse too. */
  lemma BoundarySharesMaximum(w: ReplayWindow, c: u64)
    requires w.Valid() && w.initialized && c < w.maxCounter && (w.maxCounter - c) % WINDOW_SIZE == 0
    ensures Slot(w.bitmap[..], RingSlot(c)) && !Accepts(w.accepted, c)
  {
    SlotsCongruent(c, w.maxCounter);
    assert Slot(w.bitmap[..], RingSlot(w.maxCounter)) <==> w.maxCounter in w.accepted;
    AcceptsByMaximum(w.accepted, w.maxCounter, c);
  }

  lemma SlotsCongruent(c: nat, max: nat)
    requires c <= max
    ensures RingSlot(c) == RingSlot(max - (max - c) % WINDOW_SIZE)
  {
    var q := (max - c) / WINDOW_SIZE;
    assert max - (max - c) % WINDOW_SIZE == c + q * WINDOW_SIZE;
    SlotsPeriodic(c, q);
  }

  lemma {:induction false} SlotsPeriodic(c: nat, q: nat)
    ensures RingSlot(c + q * WINDOW_SIZE) == RingSlot(c)
    decreases q
  {
    if q > 0 {
      SlotsPeriodic(c, q - 1);
      assert c + q * WINDOW_SIZE == (c + (q - 1) * WINDOW_SIZE) + WINDOW_SIZE;
    }
  }

  /** In a window that accepted only its maximum, every other slot is clear.
      So at every age beyond the window that is not a whole number of windows,
      the slot test would accept, and only the range check refuses. */
  lemma RangeCheckNeeded(w: ReplayWindow, c: u64)
    requires w.Valid() && w.accepted == {w.maxCounter} && c < w.maxCounter
    ensures Slot(w.bitmap[..], RingSlot(c)) <==> (w.maxCounter - c) % WINDOW_SIZE == 0
    ensures !Accepts(w.accepted, c) <==> w.maxCounter - c >= WINDOW_SIZE
  {
    var max := w.maxCounter;
    var x: u64 := max - (max - c) % WINDOW_SIZE;
    SlotsCongruent(c, max);
    assert w.initialized && max - WINDOW_SIZE < x <= max;
    assert Slot(w.bitmap[..], RingSlot(x)) <==> x in w.accepted;
  }

  /** Such windows exist, for every maximum. */
  method CommitOnly(max: u64) returns (w: ReplayWindow)
    ensures w.Valid() && w.accepted == {max} && w.maxCounter == max
  {
    w := new ReplayWindow();
    var _, _ := w.Commit(max);
    assert w.accepted == {max};
  }

  /** A valid window counts its history exactly until all 2^64 counters have
      been accepted, which takes a maximum of 2^64 - 1. */
  lemma CountExact(w: ReplayWindow)
    requires w.Valid() && w.initialized
    ensures |w.accepted| <= w.maxCounter + 1
    ensures w.packetsReceived == |w.accepted| <==> exists c: u64 :: c !in w.accepted
    ensures w.maxCounter < MAX ==> w.packetsReceived == |w.accepted|
  {
    SizeBound(w.accepted, w.maxCounter);
    CountExactUntilFull(w.accepted);
  }

  class ReplayWindow {
    var maxCounter: u64
    const bitmap: array<u64>
    var packetsReceived: u64
    var initialized: bool

    /** Every counter accepted so far. */
    ghost var accepted: set<u64>

    ghost predicate Valid()
      reads this, bitmap
    {
      && bitmap.Length == NUM_BLOCKS
      && (initialized <==> accepted != {})
      && (initialized ==> IsMaximum(accepted, maxCounter) && Mirrors(bitmap[..], maxCounter, accepted))
      && packetsReceived == |accepted| % TWO_64
    }

    constructor ()
      ensures Valid() && fresh(bitmap) && accepted == {} && !initialized
    {
      maxCounter := 0;
      bitmap := new u64[NUM_BLOCKS](_ => 0);
      packetsReceived := 0;
      initialized := false;
      accepted := {};
    }

    /** Pre-check before paying for decryption. */
    predicate WouldReject(c: u64)
      requires Valid()
      reads this, bitmap
      ensures WouldReject(c) <==> !Accepts(accepted, c)
    {
      if !initialized then
        false
      else
        AcceptsByMaximum(accepted, maxCounter, c);
        if c > maxCounter then false
        else if maxCounter - c >= WINDOW_SIZE then true
        else
          TestSlot(bitmap[..], c);
          And(bitmap[RingIndex(c)], BitOf(c)) != 0
    }

    /** Record an authenticated counter. `cleared` counts the words written to
        erase skipped counters. */
    method Commit(c: u64) returns (ok: bool, ghost cleared: nat)
      requires Valid()
      modifies this, bitmap
      ensures Valid()
      ensures ok <==> Accepts(old(accepted), c)
      ensures accepted == History.Commit(old(accepted), c)
      ensures !ok ==> unchanged(this) && unchanged(bitmap)
      ensures cleared <= NUM_BLOCKS + 1
      ensures old(initialized) && c < old(maxCounter) + WINDOW_SIZE
              ==> cleared <= (if c <= old(maxCounter) + 1 then 0 else (c - old(maxCounter) - 2) / BLOCK_BITS + 2)
    {
      cleared := 0;
      if !initialized {
        initialized := true;
        maxCounter := c;
        Wipe();
        cleared := NUM_BLOCKS;
        ZeroMirrors(bitmap[..], c, accepted);
        TopMirrors(bitmap[..], c, accepted);
        OrZero(BitOf(c));
        bitmap[RingIndex(c)] := BitOf(c);
        Count(c);
        return true, cleared;
      }
      AcceptsByMaximum(accepted, maxCounter, c);
      if c > maxCounter {
        var diff := c - maxCounter;
        if diff >= WINDOW_SIZE {
          Wipe();
          cleared := NUM_BLOCKS;
          ZeroMirrors(bitmap[..], c, accepted);
        } else if diff > 1 {
          ghost var before := bitmap[..];
          cleared := ClearRange(maxCounter + 1, c - 1);
          ClearingMirrors(before, bitmap[..], maxCounter, c, accepted);
        }
        TopMirrors(bitmap[..], c, accepted);
        bitmap[RingIndex(c)] := Or(bitmap[RingIndex(c)], BitOf(c));
        maxCounter := c;
        Count(c);
        return true, cleared;
      }
      var age := maxCounter - c;
      if age >= WINDOW_SIZE {
        return false, 0;
      }
      var word, bit := RingIndex(c), BitOf(c);
      TestSlot(bitmap[..], c);
      if And(bitmap[word], bit) != 0 {
        return false, 0;
      }
      FillMirrors(bitmap[..], maxCounter, c, accepted);
      bitmap[word] := Or(bitmap[word], bit);
      Count(c);
      return true, 0;
    }

    /** `packets_received += 1`, wrapping; the new counter joins the history. */
    method Count(c: u64)
      requires c !in accepted && packetsReceived == |accepted| % TWO_64
      modifies this`packetsReceived, this`accepted
      ensures accepted == old(accepted) + {c} && packetsReceived == |accepted| % TWO_64
    {
      packetsReceived := (packetsReceived + 1) % TWO_64;
      accepted := accepted + {c};
    }

    /** `bitmap = [0; NUM_BLOCKS]` */
    method Wipe()
      modifies bitmap
      ensures forall i | 0 <= i < bitmap.Length :: bitmap[i] == 0
    {
      for i := 0 to bitmap.Length
        invariant forall j | 0 <= j < i :: bitmap[j] == 0
      {
        bitmap[i] := 0;
      }
    }

    /** Clear the slots of every counter in `[lo, hi]` and no other, in
        `writes` word writes. */
    method ClearRange(lo: u64, hi: u64) returns (ghost writes: nat)
      requires bitmap.Length == NUM_BLOCKS && lo <= hi && hi - lo < WINDOW_SIZE
      modifies bitmap
      ensures Cleared(old(bitmap[..]), bitmap[..], lo, hi)
      ensures writes <= (hi - lo) / BLOCK_BITS + 2 && writes <= NUM_BLOCKS + 1
    {
      ghost var before := bitmap[..];
      var loWord, hiWord := lo / BLOCK_BITS, hi / BLOCK_BITS;
      var loBit, hiBit := BitIndex(lo), BitIndex(hi);
      writes := 1;

      if loWord == hiWord {
        FirstWrite(before, lo, hi);
        bitmap[RingIndex(lo)] := And(bitmap[RingIndex(lo)], Not(MaskBetween(loBit, hiBit)));
        return;
      }

      ghost var end := loWord * BLOCK_BITS + 63;
      FirstWrite(before, lo, end);
      bitmap[RingIndex(lo)] := And(bitmap[RingIndex(lo)], Not(MaskBetween(loBit, 63)));
      for word := loWord + 1 to hiWord
        invariant end == word * BLOCK_BITS - 1 && writes == word - loWord
        invariant Cleared(before, bitmap[..], lo, end)
      {
        WholeWrite(before, bitmap[..], lo, end, word);
        bitmap[And(word, RING_MASK)] := 0;
        writes := writes + 1;
        end := end + 64;
      }
      LastWrite(before, bitmap[..], lo, end, hi);
      bitmap[RingIndex(hi)] := And(bitmap[RingIndex(hi)], Not(MaskBetween(0, hiBit)));
      writes := writes + 1;
    }
  }

  /** `after` lacks the slots of the counters in `[lo, hi]` and is otherwise
      `before`. */
  ghost predicate Cleared(before: seq<u64>, after: seq<u64>, lo: nat, hi: nat) {
    |before| == |after| == NUM_BLOCKS
    && forall s | 0 <= s < WINDOW_SIZE :: Slot(after, s) <==> Slot(before, s) && !Covered(lo, hi, s)
  }

  /** The masked write of the lowest word. */
  lemma FirstWrite(before: seq<u64>, lo: u64, end: u64)
    requires |before| == NUM_BLOCKS && lo <= end && lo / BLOCK_BITS == end / BLOCK_BITS
    ensures lo % BLOCK_BITS <= end % BLOCK_BITS && BitIndex(lo) == lo % BLOCK_BITS && BitIndex(end) == end % BLOCK_BITS
    ensures Cleared(before, before[RingIndex(lo) := And(before[RingIndex(lo)], Not(MaskBetween(BitIndex(lo), BitIndex(end))))], lo, end)
  {
    SlotParts(lo);
    SlotParts(end);
    var after := before[RingIndex(lo) := And(before[RingIndex(lo)], Not(MaskBetween(BitIndex(lo), BitIndex(end))))];
    forall s | 0 <= s < WINDOW_SIZE ensures Slot(after, s) <==> Slot(before, s) && !Covered(lo, end, s) {
      MaskedWrite(before, RingIndex(lo), BitIndex(lo), BitIndex(end), s);
      CoveredInWord(lo, end, s);
    }
  }

  lemma WordEnd(end: int, word: nat)
    requires end == word * BLOCK_BITS - 1
    ensures (end + 64) / BLOCK_BITS == word && (end + 64) % BLOCK_BITS == 63
  {
  }

  /** One slot after the zero write of a whole word. */
  lemma WholeWriteSlot(before: seq<u64>, bitmap: seq<u64>, lo: nat, end: nat, word: nat, w: nat, s: nat)
    requires lo <= end == word * BLOCK_BITS - 1 && Cleared(before, bitmap, lo, end) && w == word % NUM_BLOCKS && s < WINDOW_SIZE
    ensures Slot(bitmap[w := 0], s) <==> Slot(before, s) && !Covered(lo, end + 64, s)
  {
    WordEnd(end, word);
    ZeroWrite(bitmap, w, s);
    ExtendWord(lo, end, end + 64, s);
  }

  /** One pass of the whole-word loop. */
  lemma WholeWrite(before: seq<u64>, bitmap: seq<u64>, lo: nat, end: nat, word: nat)
    requires lo <= end == word * BLOCK_BITS - 1 && Cleared(before, bitmap, lo, end)
    ensures And(word, RING_MASK) < NUM_BLOCKS
    ensures Cleared(before, bitmap[And(word, RING_MASK) := 0], lo, end + 64)
  {
    AndMask127(word);
    var w := And(word, RING_MASK);
    forall s | 0 <= s < WINDOW_SIZE ensures Slot(bitmap[w := 0], s) <==> Slot(before, s) && !Covered(lo, end + 64, s) {
      WholeWriteSlot(before, bitmap, lo, end, word, w, s);
    }
  }

  /** The masked write of the highest word, even when it is the lowest word's
      slot again. */
  lemma LastWrite(before: seq<u64>, bitmap: seq<u64>, lo: nat, end: nat, hi: u64)
    requires lo <= end < hi && end + 1 == hi / BLOCK_BITS * BLOCK_BITS && Cleared(before, bitmap, lo, end)
    ensures Cleared(before, bitmap[RingIndex(hi) := And(bitmap[RingIndex(hi)], Not(MaskBetween(0, BitIndex(hi))))], lo, hi)
  {
    SlotParts(hi);
    var after := bitmap[RingIndex(hi) := And(bitmap[RingIndex(hi)], Not(MaskBetween(0, BitIndex(hi))))];
    forall s | 0 <= s < WINDOW_SIZE ensures Slot(after, s) <==> Slot(before, s) && !Covered(lo, hi, s) {
      MaskedWrite(bitmap, RingIndex(hi), 0, BitIndex(hi), s);
      ExtendWord(lo, end, hi, s);
    }
  }

  /** Extending a covered range from a word's end into the next word. */
  lemma ExtendWord(lo: nat, end: nat, hi: nat, s: nat)
    requires lo <= end < hi && end + 1 == hi / BLOCK_BITS * BLOCK_BITS && s < WINDOW_SIZE
    ensures Covered(lo, hi, s) <==>
      Covered(lo, end, s)
      || (s / BLOCK_BITS == hi / BLOCK_BITS % NUM_BLOCKS && s % BLOCK_BITS <= hi % BLOCK_BITS)
  {
    CoveredSplit(lo, end, hi, s);
    CoveredInWord(end + 1, hi, s);
    SlotParts(end + 1);
  }
}
