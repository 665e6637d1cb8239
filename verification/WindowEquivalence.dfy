/**
 The ring and the shifting window decide alike on every counter sequence.
 */
module WindowEquivalence {
  import opened Word64
  import opened History
  import opened Ring
  import opened ReplayWindows
  import opened ReferenceWindows

  /** Same maximum, same count, and for every age the shifting window's bit is
      the ring's bit of the counter of that age. */
  ghost predicate Agree(ring: ReplayWindow, reference: ReferenceWindow)
    requires ring.Valid() && reference.Valid()
    reads ring, ring.bitmap, reference, reference.bitmap
  {
    && ring.initialized == reference.initialized
    && ring.packetsReceived == reference.packetsReceived
    && (ring.initialized ==> ring.maxCounter == reference.maxCounter)
    && (ring.initialized ==>
          forall a | 0 <= a < WINDOW_SIZE && a <= ring.maxCounter ::
            Slot(reference.bitmap[..], a) <==> Slot(ring.bitmap[..], RingSlot(ring.maxCounter - a)))
  }

  /** Windows with the same history agree: the history determines all that
      either of them shows. */
  lemma SameHistoryAgree(ring: ReplayWindow, reference: ReferenceWindow)
    requires ring.Valid() && reference.Valid() && ring.accepted == reference.accepted
    ensures Agree(ring, reference)
    ensures forall c: u64 :: ring.WouldReject(c) == reference.WouldReject(c)
  {
    if ring.initialized {
      forall a | 0 <= a < WINDOW_SIZE && a <= ring.maxCounter
        ensures Slot(reference.bitmap[..], a) <==> Slot(ring.bitmap[..], RingSlot(ring.maxCounter - a))
      {
        var c: u64 := ring.maxCounter - a;
        assert Slot(ring.bitmap[..], RingSlot(c)) <==> c in ring.accepted;
      }
    }
  }

  /** Feed any counter sequence to both windows. After every step both answers
      were the history's answer and the windows agree. */
  method Differential(cs: seq<u64>) returns (ring: ReplayWindow, reference: ReferenceWindow, verdicts: seq<bool>)
    ensures ring.Valid() && reference.Valid() && Agree(ring, reference)
    ensures verdicts == Verdicts({}, cs)
    ensures ring.accepted == reference.accepted == Run({}, cs)
    ensures |ring.accepted| == CountTrue(verdicts)
  {
    ring := new ReplayWindow();
    reference := new ReferenceWindow();
    verdicts := [];
    assert cs[..0] == [];
    for i := 0 to |cs|
      invariant ring.Valid() && reference.Valid() && fresh(ring) && fresh(ring.bitmap)
      invariant fresh(reference) && fresh(reference.bitmap) && ring.bitmap != reference.bitmap
      invariant ring.accepted == reference.accepted == Run({}, cs[..i])
      invariant verdicts == Verdicts({}, cs[..i])
    {
      assert cs[..i + 1] == cs[..i] + [cs[i]];
      RunExtends({}, cs[..i], cs[i]);
      SameHistoryAgree(ring, reference);
      assert ring.WouldReject(cs[i]) == reference.WouldReject(cs[i]);
      var a, _ := ring.Commit(cs[i]);
      var b := reference.Commit(cs[i]);
      assert a == b;
      verdicts := verdicts + [a];
    }
    assert cs[..|cs|] == cs;
    SameHistoryAgree(ring, reference);
    RunCounts({}, cs);
  }
}
