/**
 The earlier replay window, kept as the oracle for the ring: bit `a` stands
 for the counter of age `a`, and every advance shifts all 128 words.
 */
module ReferenceWindows {
  import opened Word64
  import opened History
  import opened Ring

  /** Bit `a` is set exactly when the counter of age `a` was accepted. */
  ghost predicate MirrorsAges(bitmap: seq<u64>, max: u64, h: set<u64>) {
    |bitmap| == NUM_BLOCKS
    && forall a | 0 <= a < WINDOW_SIZE :: Slot(bitmap, a) <==> max - a in h
  }

  /** Word `i` of the bitmap shifted up by `count`: the word `count / 64` below
      it, with the carry from the word below that. */
  function ShiftedWord(bitmap: seq<u64>, count: nat, i: nat): (w: u64)
    requires |bitmap| == NUM_BLOCKS && count < WINDOW_SIZE && i < NUM_BLOCKS
  {
    var blockShift, bitShift := count / BLOCK_BITS, count % BLOCK_BITS;
    if bitShift == 0 then
      if i >= blockShift then bitmap[i - blockShift] else 0
    else
      var lower := if i >= blockShift then Shl(bitmap[i - blockShift], bitShift) else 0;
      var upper := if i > blockShift then Shr(bitmap[i - blockShift - 1], BLOCK_BITS - bitShift) else 0;
      OrFits(lower, upper);
      Or(lower, upper)
  }

  /** `after` is `before` moved up by `count` bits, zeros coming in below. */
  ghost predicate Shifted(before: seq<u64>, after: seq<u64>, count: nat) {
    |before| == |after| == NUM_BLOCKS
    && forall s | 0 <= s < WINDOW_SIZE :: Slot(after, s) <==> s >= count && Slot(before, s - count)
  }

  /** The part of a shifted word that comes from `i - blockShift`. */
  lemma LowerBit(bitmap: seq<u64>, i: nat, b: nat, blockShift: nat, bitShift: nat)
    requires |bitmap| == NUM_BLOCKS && blockShift <= i < NUM_BLOCKS && b < BLOCK_BITS && bitShift < BLOCK_BITS
    ensures Bit(Shl(bitmap[i - blockShift], bitShift), b)
            <==> b >= bitShift && Slot(bitmap, (i - blockShift) * BLOCK_BITS + (b - bitShift))
  {
    ShlBit(bitmap[i - blockShift], bitShift, b);
    if b >= bitShift {
      Locate((i - blockShift) * BLOCK_BITS + (b - bitShift), i - blockShift, b - bitShift);
    }
  }

  /** The carry from the word below that. */
  lemma UpperBit(bitmap: seq<u64>, i: nat, b: nat, blockShift: nat, bitShift: nat)
    requires |bitmap| == NUM_BLOCKS && blockShift < i < NUM_BLOCKS && b < BLOCK_BITS && 0 < bitShift < BLOCK_BITS
    ensures Bit(Shr(bitmap[i - blockShift - 1], BLOCK_BITS - bitShift), b)
            <==> b < bitShift && Slot(bitmap, (i - blockShift - 1) * BLOCK_BITS + (b + BLOCK_BITS - bitShift))
  {
    ShrBit(bitmap[i - blockShift - 1], BLOCK_BITS - bitShift, b);
    if b < bitShift {
      Locate((i - blockShift - 1) * BLOCK_BITS + (b + BLOCK_BITS - bitShift), i - blockShift - 1, b + BLOCK_BITS - bitShift);
    } else {
      OnesIsMax();
      HighBit(64, bitmap[i - blockShift - 1], b + (BLOCK_BITS - bitShift));
    }
  }

  lemma ShiftedWordBit(bitmap: seq<u64>, count: nat, s: nat)
    requires |bitmap| == NUM_BLOCKS && count < WINDOW_SIZE && s < WINDOW_SIZE
    ensures Bit(ShiftedWord(bitmap, count, s / BLOCK_BITS), s % BLOCK_BITS) <==> s >= count && Slot(bitmap, s - count)
  {
    var i, b := s / BLOCK_BITS, s % BLOCK_BITS;
    var blockShift, bitShift := count / BLOCK_BITS, count % BLOCK_BITS;
    ZeroBit(b);
    if bitShift == 0 {
      if i >= blockShift {
        Locate(s - count, i - blockShift, b);
      }
    } else {
      var lower := if i >= blockShift then Shl(bitmap[i - blockShift], bitShift) else 0;
      var upper := if i > blockShift then Shr(bitmap[i - blockShift - 1], BLOCK_BITS - bitShift) else 0;
      OrBit(lower, upper, b);
      if i >= blockShift {
        LowerBit(bitmap, i, b, blockShift, bitShift);
      }
      if i > blockShift {
        UpperBit(bitmap, i, b, blockShift, bitShift);
      }
    }
  }

  lemma Locate(s: nat, i: nat, b: nat)
    requires s == i * BLOCK_BITS + b && b < BLOCK_BITS
    ensures s / BLOCK_BITS == i && s % BLOCK_BITS == b
  {
  }

  lemma FirstMirrors(bitmap: seq<u64>, c: u64)
    requires |bitmap| == NUM_BLOCKS && forall i | 0 <= i < NUM_BLOCKS :: bitmap[i] == 0
    ensures MirrorsAges(bitmap[0 := 1], c, {c})
  {
    var first := bitmap[0 := 1];
    forall s | 0 <= s < WINDOW_SIZE ensures Slot(first, s) <==> s == 0 {
      ZeroBit(s % BLOCK_BITS);
      OneBit(0, s % BLOCK_BITS);
    }
  }

  /** Shifting by the advance re-ages every bit; age 0 is the new maximum. */
  lemma ShiftMirrors(before: seq<u64>, after: seq<u64>, max: u64, c: u64, h: set<u64>)
    requires MirrorsAges(before, max, h) && max < c && (forall x <- h :: x <= max) && Shifted(before, after, c - max)
    ensures Or(after[0], 1) < TWO_64
    ensures MirrorsAges(after[0 := Or(after[0], 1)], c, h + {c})
  {
    OrFits(after[0], 1);
    var top := after[0 := Or(after[0], 1)];
    forall s | 0 <= s < WINDOW_SIZE ensures Slot(top, s) <==> Slot(after, s) || s == 0 {
      OrBit(after[0], 1, s % BLOCK_BITS);
      OneBit(0, s % BLOCK_BITS);
    }
  }

  class ReferenceWindow {
    var maxCounter: u64
    const bitmap: array<u64>
    var packetsReceived: u64
    var initialized: bool
    ghost var accepted: set<u64>

    ghost predicate Valid()
      reads this, bitmap
    {
      && bitmap.Length == NUM_BLOCKS
      && (initialized <==> accepted != {})
      && (initialized ==> maxCounter in accepted && forall x <- accepted :: x <= maxCounter)
      && (initialized ==> MirrorsAges(bitmap[..], maxCounter, accepted))
      && (!initialized ==> forall i | 0 <= i < NUM_BLOCKS :: bitmap[i] == 0)
      && packetsReceived == |accepted| % TWO_64
    }

    constructor ()
      ensures Valid() && fresh(bitmap) && accepted == {} && !initialized
    {
      maxCounter := 0;
      bitmap := new u64[NUM_BLOCKS](_ => 0);
      packetsReceived := 0;
      initialized := false;
      accepted := {};
    }

    predicate TestBit(position: u64)
      requires bitmap.Length == NUM_BLOCKS
      reads this, bitmap
      ensures TestBit(position) <==> position < WINDOW_SIZE && Slot(bitmap[..], position)
    {
      var block, bit := position / BLOCK_BITS, position % BLOCK_BITS;
      if block < NUM_BLOCKS then
        Word64.TestBit(bitmap[block], bit);
        And(bitmap[block], Shl(1, bit)) != 0
      else
        false
    }

    method SetBit(position: u64)
      requires bitmap.Length == NUM_BLOCKS
      modifies bitmap
      ensures forall s | 0 <= s < WINDOW_SIZE :: Slot(bitmap[..], s) <==> Slot(old(bitmap[..]), s) || s == position
    {
      var block, bit := position / BLOCK_BITS, position % BLOCK_BITS;
      if block < NUM_BLOCKS {
        ghost var before := bitmap[..];
        OrFits(bitmap[block], Shl(1, bit));
        bitmap[block] := Or(bitmap[block], Shl(1, bit));
        forall s | 0 <= s < WINDOW_SIZE ensures Slot(bitmap[..], s) <==> Slot(before, s) || s == position {
          OrBit(before[block], Shl(1, bit), s % BLOCK_BITS);
          OneBit(bit, s % BLOCK_BITS);
          SameSlot(s, position);
        }
      }
    }

    /** Shift in place, from the top word down. */
    method ShiftLeft(count: u64)
      requires bitmap.Length == NUM_BLOCKS
      modifies bitmap
      ensures Shifted(old(bitmap[..]), bitmap[..], count)
    {
      ghost var before := bitmap[..];
      if count >= WINDOW_SIZE {
        for i := 0 to NUM_BLOCKS
          invariant forall j | 0 <= j < i :: bitmap[j] == 0
        {
          bitmap[i] := 0;
        }
        forall s | 0 <= s < WINDOW_SIZE ensures !Slot(bitmap[..], s) {
          ZeroBit(s % BLOCK_BITS);
        }
        return;
      }
      var blockShift, bitShift := count / BLOCK_BITS, count % BLOCK_BITS;
      if bitShift == 0 {
        for i := NUM_BLOCKS downto blockShift
          invariant forall j | 0 <= j < i :: bitmap[j] == before[j]
          invariant forall j | i <= j < NUM_BLOCKS :: bitmap[j] == ShiftedWord(before, count, j)
        {
          bitmap[i] := bitmap[i - blockShift];
        }
        for i := 0 to blockShift
          invariant forall j | 0 <= j < i || blockShift <= j < NUM_BLOCKS :: bitmap[j] == ShiftedWord(before, count, j)
        {
          bitmap[i] := 0;
        }
      } else {
        for i := NUM_BLOCKS downto 0
          invariant forall j | 0 <= j < i :: bitmap[j] == before[j]
          invariant forall j | i <= j < NUM_BLOCKS :: bitmap[j] == ShiftedWord(before, count, j)
        {
          var lower := if i >= blockShift then Shl(bitmap[i - blockShift], bitShift) else 0;
          var upper := if i > blockShift then Shr(bitmap[i - blockShift - 1], BLOCK_BITS - bitShift) else 0;
          OrFits(lower, upper);
          bitmap[i] := Or(lower, upper);
        }
      }
      forall s | 0 <= s < WINDOW_SIZE
        ensures Slot(bitmap[..], s) <==> s >= count && Slot(before, s - count)
      {
        ShiftedWordBit(before, count, s);
      }
    }

    predicate WouldReject(c: u64)
      requires Valid()
      reads this, bitmap
      ensures WouldReject(c) <==> !Accepts(accepted, c)
    {
      if !initialized then
        false
      else
        AcceptsByMaximum(accepted, maxCounter, c);
        if c > maxCounter then false
        else if maxCounter - c >= WINDOW_SIZE then true
        else TestBit(maxCounter - c)
    }

    method Commit(c: u64) returns (ok: bool)
      requires Valid()
      modifies this, bitmap
      ensures Valid()
      ensures ok <==> Accepts(old(accepted), c)
      ensures accepted == History.Commit(old(accepted), c)
      ensures !ok ==> unchanged(this) && unchanged(bitmap)
    {
      if !initialized {
        initialized := true;
        maxCounter := c;
        FirstMirrors(bitmap[..], c);
        bitmap[0] := 1;
        Count(c);
        return true;
      }
      AcceptsByMaximum(accepted, maxCounter, c);
      if c > maxCounter {
        ghost var before := bitmap[..];
        ShiftLeft(c - maxCounter);
        ShiftMirrors(before, bitmap[..], maxCounter, c, accepted);
        bitmap[0] := Or(bitmap[0], 1);
        maxCounter := c;
        Count(c);
        return true;
      }
      var age := maxCounter - c;
      if age < WINDOW_SIZE {
        if TestBit(age) {
          return false;
        }
        SetBit(age);
        Count(c);
        return true;
      }
      return false;
    }

    method Count(c: u64)
      requires c !in accepted && packetsReceived == |accepted| % TWO_64
      modifies this`packetsReceived, this`accepted
      ensures accepted == old(accepted) + {c} && packetsReceived == |accepted| % TWO_64
    {
      packetsReceived := (packetsReceived + 1) % TWO_64;
      accepted := accepted + {c};
    }
  }
}
