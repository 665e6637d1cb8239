/**
 A sender, a receiver, and between them a network that may drop, reorder,
 duplicate, alter and invent packets, with key rotations on both sides.
 */
module EndToEnd {
  import opened Word64
  import opened History
  import opened Wire
  import opened Aead
  import opened Sessions
  import opened SessionRuns

  /** What the 16-bit length field can announce. */
  type Payload = p: bytes | |p| < 0x1_0000

  /** One successful encryption. */
  datatype Sending = Sending(key: Key, counter: u64, sid: SessionId, plain: Payload, iv: Iv, encoded: bool)

  /** One successful decryption; `horizon` is how many sendings preceded it. */
  datatype Arrival = Arrival(counter: u64, sid: SessionId, iv: Iv, flags: u16, delivery: Delivery, horizon: nat)

  datatype World = World(tx: Tx, rx: Rx, sent: seq<Sending>, arrived: seq<Arrival>)

  datatype Event =
    | Rotate(tx: TxEvent)
    | Send(counter: u64, sid: SessionId, plain: bytes, iv: Iv, encoded: bool)
    | Deliver(rx: RxEvent)

  const START: World := World(Tx(None, None), Rx(None, None, {}), [], [])

  /** Sender and receiver each negotiated a wire version. */
  datatype Setting = Setting(algorithm: Algorithm, sender: Version, receiver: Version)

  ghost function Step(g: Setting, w: World, e: Event): World {
    match e
    case Rotate(t) => w.(tx := TxStep(w.tx, t))
    case Send(counter, sid, plain, iv, encoded) =>
      if w.tx.current.None? || |plain| >= 0x1_0000 || |plain| > g.algorithm.maxPlain then w
      else w.(sent := w.sent + [Sending(w.tx.current.value, counter, sid, plain, iv, encoded)])
    case Deliver(r) =>
      w.(rx := RxStep(g.algorithm, g.receiver, w.rx, r),
         arrived := if Arrives(g, w, r) then w.arrived + [ArrivalOf(g, w, r)] else w.arrived)
  }

  ghost predicate Arrives(g: Setting, w: World, r: RxEvent) {
    r.Receive? && !Refused(g.algorithm, g.receiver, w.rx, r)
  }

  ghost function ArrivalOf(g: Setting, w: World, r: RxEvent): Arrival
    requires Arrives(g, w, r)
  {
    var h := Parse(r.wire);
    Arrival(h.counter, r.sid, h.iv, h.flags, Decide(g.algorithm, g.receiver, w.rx, r.sid, r.wire, r.room).value, |w.sent|)
  }

  /** `k` sealed this message with this nonce and associated data. */
  ghost predicate Made(g: Setting, x: Sending, k: Key, iv: Iv, ad: bytes, p: bytes) {
    x.key == k && x.iv == iv && x.plain == p
    && BuildAad(g.sender, x.sid, x.counter, SendFlags(x.encoded)) == ad
  }

  /** The ideal-cipher assumption: of the packets the network presents, only
      those the sender sealed open under a key of the receiver. */
  ghost predicate Unforged(g: Setting, w: World, e: Event) {
    e.Deliver? && e.rx.Receive? ==>
      var wire := e.rx.wire;
      |wire| >= WIRE_OVERHEAD && |wire| >= WIRE_OVERHEAD + Parse(wire).dataLen ==>
        forall k | w.rx.current == Some(k) || w.rx.previous == Some(k) ::
          var p := OpenWith(g.algorithm, g.receiver, k, e.rx.sid, wire);
          var h := Parse(wire);
          p.Some? ==> exists x <- w.sent ::
            Made(g, x, k, h.iv, BuildAad(g.receiver, e.rx.sid, h.counter, h.flags), p.value)
  }

  ghost predicate UnforgedRun(g: Setting, w: World, es: seq<Event>)
    decreases |es|
  {
    es == [] || (Unforged(g, w, es[0]) && UnforgedRun(g, Step(g, w, es[0]), es[1..]))
  }

  ghost function Run(g: Setting, w: World, es: seq<Event>): World
    decreases |es|
  {
    if es == [] then w else Run(g, Step(g, w, es[0]), es[1..])
  }

  /** The arrival is what the sending carried. Flags are compared only where
      the version binds them. */
  ghost predicate Matches(g: Setting, r: Arrival, x: Sending) {
    && r.delivery.plain == x.plain && r.sid == x.sid && r.counter == x.counter && r.iv == x.iv
    && (g.sender == Version2 <==> g.receiver == Version2)
    && (g.receiver == Version2 ==> r.flags == SendFlags(x.encoded) && r.delivery.encoded == x.encoded)
  }

  ghost predicate HasSource(g: Setting, w: World, r: Arrival) {
    exists i :: 0 <= i < |w.sent| && i < r.horizon && Matches(g, r, w.sent[i])
  }

  ghost predicate Authentic(g: Setting, w: World) {
    && (forall r <- w.arrived :: HasSource(g, w, r) && r.counter in w.rx.accepted)
    && (forall i, j | 0 <= i < j < |w.arrived| :: w.arrived[i].counter != w.arrived[j].counter)
  }

  /** A packet that opens is one the sender sealed, field by field. */
  lemma ArrivalHasSource(g: Setting, w: World, r: RxEvent)
    requires Arrives(g, w, r) && Unforged(g, w, Deliver(r))
    ensures HasSource(g, w, ArrivalOf(g, w, r))
  {
    var wire, h := r.wire, Parse(r.wire);
    var k := if OpenWith(g.algorithm, g.receiver, w.rx.current.value, r.sid, wire).Some?
             then w.rx.current.value else w.rx.previous.value;
    var p := OpenWith(g.algorithm, g.receiver, k, r.sid, wire);
    var x :| x in w.sent && Made(g, x, k, h.iv, BuildAad(g.receiver, r.sid, h.counter, h.flags), p.value);
    AadInjective(g.sender, x.sid, x.counter, SendFlags(x.encoded), g.receiver, r.sid, h.counter, h.flags);
    assert Matches(g, ArrivalOf(g, w, r), x);
    var i :| 0 <= i < |w.sent| && w.sent[i] == x;
  }

  lemma SourcesSurvive(g: Setting, w: World, w': World)
    requires Authentic(g, w) && w.sent <= w'.sent
    ensures forall r <- w.arrived :: HasSource(g, w', r)
  {
    forall r <- w.arrived ensures HasSource(g, w', r) {
      var i :| 0 <= i < |w.sent| && i < r.horizon && Matches(g, r, w.sent[i]);
      assert w'.sent[i] == w.sent[i];
    }
  }

  lemma StepKeepsAuthentic(g: Setting, w: World, e: Event)
    requires Authentic(g, w) && Unforged(g, w, e)
    ensures Authentic(g, Step(g, w, e))
  {
    var w' := Step(g, w, e);
    SourcesSurvive(g, w, w');
    if e.Deliver? && Arrives(g, w, e.rx) {
      ArrivalHasSource(g, w, e.rx);
      assert HasSource(g, w', ArrivalOf(g, w, e.rx));
      assert Accepts(w.rx.accepted, Parse(e.rx.wire).counter);
    }
  }

  /** In every run, every successful decryption is an earlier encryption of the
      same plaintext, session, counter and iv (and flags under Version2), and
      no counter is delivered twice. */
  lemma {:induction false} EveryArrivalAuthentic(g: Setting, w: World, es: seq<Event>)
    requires Authentic(g, w) && UnforgedRun(g, w, es)
    ensures Authentic(g, Run(g, w, es))
    decreases |es|
  {
    if es != [] {
      StepKeepsAuthentic(g, w, es[0]);
      EveryArrivalAuthentic(g, Step(g, w, es[0]), es[1..]);
    }
  }

  /** From the start: every arrival has a source of its own. */
  lemma ArrivalsHaveOwnSources(g: Setting, es: seq<Event>)
    requires UnforgedRun(g, START, es)
    ensures var w := Run(g, START, es);
      && (forall r <- w.arrived :: HasSource(g, w, r))
      && (forall i, j, x | 0 <= i < |w.arrived| && 0 <= j < |w.arrived| && Matches(g, w.arrived[i], x) && Matches(g, w.arrived[j], x) ::
            i == j)
  {
    EveryArrivalAuthentic(g, START, es);
  }

  /** The bytes an encryption puts on the wire. */
  function PacketOf(g: Setting, x: Sending): bytes {
    Packet(g.algorithm, g.sender, x.key, x.counter, x.sid, x.plain, x.iv, x.encoded)
  }

  /** A sending whose key is one of the receiver's two and whose counter is
      still fresh is delivered when the network presents its packet, whatever
      happened since it was sent. */
  lemma SendingArrives(g: Setting, w: World, x: Sending, junk: bytes, room: nat)
    requires Lawful(g.algorithm) && Unambiguous(g.algorithm) && (g.sender == Version2 <==> g.receiver == Version2)
    requires x in w.sent && |x.plain| <= room && Accepts(w.rx.accepted, x.counter)
    requires w.rx.current == Some(x.key) || (w.rx.current.Some? && w.rx.previous == Some(x.key))
    ensures var w' := Step(g, w, Deliver(Receive(x.sid, PacketOf(g, x) + junk, room)));
      && |w'.arrived| == |w.arrived| + 1
      && Matches(g, w'.arrived[|w.arrived|], x)
      && w'.arrived[|w.arrived|].delivery == Delivery(x.plain, x.encoded)
  {
    assert BuildAad(g.sender, x.sid, x.counter, SendFlags(x.encoded)) == BuildAad(g.receiver, x.sid, x.counter, SendFlags(x.encoded));
    assert PacketOf(g, x) == Packet(g.algorithm, g.receiver, x.key, x.counter, x.sid, x.plain, x.iv, x.encoded);
    RoundTripUnambiguous(g.algorithm, g.receiver, w.rx, x.key, x.counter, x.sid, x.plain, x.iv, x.encoded, junk, room);
    PacketHeader(g.algorithm, g.sender, x.key, x.counter, x.sid, x.plain, x.iv, x.encoded, junk);
  }

  // ---- Two session objects make the world ----

  ghost function TxOf(s: ExpresslaneSession): Tx
    reads s
  {
    Tx(s.currentSelf, s.nextSelf)
  }

  /** What an encryption call logs. */
  function Logged(a: Algorithm, key: Option<Key>, e: Event): seq<Sending>
    requires e.Send?
  {
    if key.None? || |e.plain| >= 0x1_0000 || |e.plain| > a.maxPlain then []
    else [Sending(key.value, e.counter, e.sid, e.plain, e.iv, e.encoded)]
  }

  /** The packets written are those of the sendings logged. */
  ghost predicate Wrote(g: Setting, packets: seq<bytes>, sent: seq<Sending>) {
    |packets| == |sent| && forall i | 0 <= i < |sent| :: packets[i] == PacketOf(g, sent[i])
  }

  /** An encryption call, and the packet it put on the wire. */
  method SendOne(g: Setting, sender: ExpresslaneSession, e: Event) returns (packets: seq<bytes>, more: seq<Sending>)
    requires sender.Valid() && e.Send? && sender.algorithm == g.algorithm && sender.version == g.sender
    modifies sender`packetsSent
    ensures sender.Valid() && sender.packetsSent == (old(sender.packetsSent) + |more|) % TWO_64
    ensures more == Logged(g.algorithm, sender.currentSelf, e)
    ensures Wrote(g, packets, more)
  {
    var out := new byte[WIRE_OVERHEAD + |e.plain|](_ => 0);
    var r := sender.Encrypt(e.counter, e.sid, e.plain, e.iv, e.encoded, out);
    packets, more := [], [];
    if r.Ok? {
      packets, more := [out[..]], [Sending(sender.currentSelf.value, e.counter, e.sid, e.plain, e.iv, e.encoded)];
      ghost var packet := PacketOf(g, more[0]);
      assert out[..] == packet + [];
      assert packet + [] == packet;
    }
  }

  /** A key or a packet reaches the receiver. */
  method DeliverOne(receiver: ExpresslaneSession, r: RxEvent, horizon: nat) returns (more: seq<Arrival>)
    requires receiver.Valid()
    modifies receiver, receiver.window, receiver.window.bitmap
    ensures receiver.Valid()
    ensures receiver.RxState() == RxStep(receiver.algorithm, receiver.version, old(receiver.RxState()), r)
    ensures |receiver.window.accepted| == |old(receiver.window.accepted)| + |more|
    ensures var d := DeliveredBy(receiver.algorithm, receiver.version, old(receiver.RxState()), r);
      if d == [] then more == []
      else |r.wire| >= WIRE_OVERHEAD
           && more == [Arrival(Parse(r.wire).counter, r.sid, Parse(r.wire).iv, Parse(r.wire).flags, d[0], horizon)]
  {
    var answer := Handle(receiver, r);
    more := [];
    if answer.Received? && answer.received.Ok? {
      var h := Parse(r.wire);
      more := [Arrival(h.counter, r.sid, h.iv, h.flags, answer.received.value, horizon)];
    }
  }

  /** The two ends of a setting, sharing nothing. */
  ghost predicate Ends(g: Setting, sender: ExpresslaneSession, receiver: ExpresslaneSession)
    reads sender, sender.window, sender.window.bitmap, receiver, receiver.window, receiver.window.bitmap
  {
    && sender.Valid() && sender.algorithm == g.algorithm && sender.version == g.sender
    && receiver.Valid() && receiver.algorithm == g.algorithm && receiver.version == g.receiver
    && sender != receiver && sender.window != receiver.window && sender.window.bitmap != receiver.window.bitmap
  }

  /** The sender stages or promotes a key. */
  method RotateOne(sender: ExpresslaneSession, e: TxEvent)
    requires sender.Valid()
    modifies sender`nextSelf, sender`currentSelf, sender`selfKeyInstalled
    ensures sender.Valid() && TxOf(sender) == TxStep(old(TxOf(sender)), e)
  {
    match e {
      case Stage(k) => var _ := sender.UpdateNextSelfKey(k);
      case Promote => sender.PromoteSelfKey();
    }
  }

  /** One event on the objects is one step of the world. */
  method Play(g: Setting, sender: ExpresslaneSession, receiver: ExpresslaneSession, sent: seq<Sending>, arrived: seq<Arrival>, e: Event)
    returns (packets: seq<bytes>, moreSent: seq<Sending>, moreArrived: seq<Arrival>)
    requires Ends(g, sender, receiver)
    modifies sender, receiver, receiver.window, receiver.window.bitmap
    ensures Ends(g, sender, receiver)
    ensures World(TxOf(sender), receiver.RxState(), sent + moreSent, arrived + moreArrived)
            == Step(g, World(old(TxOf(sender)), old(receiver.RxState()), sent, arrived), e)
    ensures Wrote(g, packets, moreSent)
    ensures sender.nextCounter == old(sender.nextCounter)
    ensures |moreSent| <= 1 && sender.packetsSent == (old(sender.packetsSent) + |moreSent|) % TWO_64
    ensures |receiver.window.accepted| == |old(receiver.window.accepted)| + |moreArrived|
  {
    packets, moreSent, moreArrived := [], [], [];
    assert sent + [] == sent && arrived + [] == arrived;
    match e {
      case Rotate(t) => RotateOne(sender, t);
      case Send(_, _, _, _, _) => packets, moreSent := SendOne(g, sender, e);
      case Deliver(r) => moreArrived := DeliverOne(receiver, r, |sent|);
    }
  }

  /** The objects and their logs are at world `w`. */
  ghost predicate At(g: Setting, w: World, sender: ExpresslaneSession, receiver: ExpresslaneSession,
                     packets: seq<bytes>, sent: seq<Sending>, arrived: seq<Arrival>)
    reads sender, sender.window, sender.window.bitmap, receiver, receiver.window, receiver.window.bitmap
  {
    && Ends(g, sender, receiver)
    && w == World(TxOf(sender), receiver.RxState(), sent, arrived)
    && Wrote(g, packets, sent)
    && sender.packetsSent == |sent| % TWO_64
    && |receiver.window.accepted| == |arrived|
  }

  /** One event keeps objects and logs together with the world. */
  method PlayOn(g: Setting, ghost w: World, sender: ExpresslaneSession, receiver: ExpresslaneSession,
                packets: seq<bytes>, sent: seq<Sending>, arrived: seq<Arrival>, e: Event)
    returns (packets': seq<bytes>, sent': seq<Sending>, arrived': seq<Arrival>)
    requires At(g, w, sender, receiver, packets, sent, arrived)
    modifies sender, receiver, receiver.window, receiver.window.bitmap
    ensures At(g, Step(g, w, e), sender, receiver, packets', sent', arrived')
    ensures sender.nextCounter == old(sender.nextCounter)
  {
    var morePackets, moreSent, moreArrived := Play(g, sender, receiver, sent, arrived, e);
    WrapOn(old(sender.packetsSent), |sent|, |moreSent|);
    packets', sent', arrived' := packets + morePackets, sent + moreSent, arrived + moreArrived;
  }

  lemma {:induction false} RunExtends(g: Setting, w: World, es: seq<Event>, e: Event)
    ensures Run(g, w, es + [e]) == Step(g, Run(g, w, es), e)
    decreases |es|
  {
    if es == [] {
      assert (es + [e])[1..] == [];
    } else {
      assert (es + [e])[1..] == es[1..] + [e];
      RunExtends(g, Step(g, w, es[0]), es[1..], e);
    }
  }

  /** Drive a sending and a receiving session object through any events: they
      make the world of the run, every packet written is that of the sending it
      is logged as, and both counters count. */
  method Drive(g: Setting, es: seq<Event>)
    returns (sender: ExpresslaneSession, receiver: ExpresslaneSession, packets: seq<bytes>, sent: seq<Sending>, arrived: seq<Arrival>)
    requires Lawful(g.algorithm)
    ensures sender.Valid() && receiver.Valid()
    ensures World(TxOf(sender), receiver.RxState(), sent, arrived) == Run(g, START, es)
    ensures Wrote(g, packets, sent)
    ensures sender.packetsSent == |sent| % TWO_64 && receiver.window.packetsReceived == |arrived| % TWO_64
  {
    sender := new ExpresslaneSession(g.algorithm, g.sender);
    receiver := new ExpresslaneSession(g.algorithm, g.receiver);
    packets, sent, arrived := [], [], [];
    for i := 0 to |es|
      invariant At(g, Run(g, START, es[..i]), sender, receiver, packets, sent, arrived)
      invariant fresh(sender) && fresh(receiver) && fresh(receiver.window) && fresh(receiver.window.bitmap)
    {
      assert es[..i + 1] == es[..i] + [es[i]];
      RunExtends(g, START, es[..i], es[i]);
      packets, sent, arrived := PlayOn(g, Run(g, START, es[..i]), sender, receiver, packets, sent, arrived, es[i]);
    }
    assert es[..|es|] == es;
  }

  // ---- Counters reserved from the sender ----

  /** How many sends there are. */
  function Sends(es: seq<Event>): nat {
    if es == [] then 0 else Sends(es[..|es| - 1]) + (if es[|es| - 1].Send? then 1 else 0)
  }

  function WithCounter(e: Event, k: nat): Event {
    if e.Send? then e.(counter := k % TWO_64) else e
  }

  /** The events with the k-th send, counting from 1, on counter k mod 2^64. */
  function Numbered(es: seq<Event>): seq<Event> {
    if es == [] then [] else Numbered(es[..|es| - 1]) + [WithCounter(es[|es| - 1], Sends(es[..|es| - 1]) + 1)]
  }

  /** A counter of one of the first `n` sends. */
  ghost predicate Among(c: u64, n: nat) {
    exists k :: 1 <= k <= n && c == k % TWO_64
  }

  ghost predicate DistinctCounters(sent: seq<Sending>) {
    forall i, j | 0 <= i < j < |sent| :: sent[i].counter != sent[j].counter
  }

  lemma FreshCounter(sent: seq<Sending>, n: nat)
    requires n < TWO_64 && forall x <- sent :: Among(x.counter, n)
    ensures forall x <- sent :: x.counter != (n + 1) % TWO_64
  {
    forall x <- sent ensures x.counter != (n + 1) % TWO_64 {
      var k :| 1 <= k <= n && x.counter == k % TWO_64;
      WrapDistinct(k, n + 1);
    }
  }

  lemma MoreAmong(c: u64, n: nat)
    requires Among(c, n)
    ensures Among(c, n + 1)
  {
    var k :| 1 <= k <= n && c == k % TWO_64;
    assert 1 <= k <= n + 1;
  }

  /** Reserved counters of the first 2^64 sends are pairwise distinct. */
  lemma {:induction false} ReservedCountersDiffer(g: Setting, es: seq<Event>)
    requires Sends(es) <= TWO_64
    ensures var sent := Run(g, START, Numbered(es)).sent;
      DistinctCounters(sent) && forall x <- sent :: Among(x.counter, Sends(es))
    decreases |es|
  {
    if es != [] {
      var before, e := es[..|es| - 1], es[|es| - 1];
      var n := Sends(before);
      ReservedCountersDiffer(g, before);
      RunExtends(g, START, Numbered(before), WithCounter(e, n + 1));
      var w := Run(g, START, Numbered(before));
      if e.Send? {
        FreshCounter(w.sent, n);
        forall x <- w.sent ensures Among(x.counter, n + 1) {
          MoreAmong(x.counter, n);
        }
        assert Among((n + 1) % TWO_64, n + 1);
      }
    }
  }

  /** With reserved counters, every arrival of a run of up to 2^64 sends comes
      from exactly one sending. */
  lemma ExactlyOneSource(g: Setting, es: seq<Event>, r: Arrival)
    requires Sends(es) <= TWO_64 && UnforgedRun(g, START, Numbered(es)) && r in Run(g, START, Numbered(es)).arrived
    ensures var w := Run(g, START, Numbered(es));
      exists i :: 0 <= i < |w.sent| && i < r.horizon && Matches(g, r, w.sent[i])
                  && forall j | 0 <= j < |w.sent| && Matches(g, r, w.sent[j]) :: j == i
  {
    var w := Run(g, START, Numbered(es));
    EveryArrivalAuthentic(g, START, Numbered(es));
    ReservedCountersDiffer(g, es);
    assert HasSource(g, w, r);
    var i :| 0 <= i < |w.sent| && i < r.horizon && Matches(g, r, w.sent[i]);
    forall j | 0 <= j < |w.sent| && Matches(g, r, w.sent[j]) ensures j == i {
      assert w.sent[j].counter == w.sent[i].counter;
    }
  }

  /** One event, a send being on the next reserved counter; `n` sends came
      before. */
  method PlayReserved(g: Setting, ghost w: World, sender: ExpresslaneSession, receiver: ExpresslaneSession,
                      packets: seq<bytes>, sent: seq<Sending>, arrived: seq<Arrival>, e: Event, ghost n: nat)
    returns (packets': seq<bytes>, sent': seq<Sending>, arrived': seq<Arrival>)
    requires At(g, w, sender, receiver, packets, sent, arrived) && sender.nextCounter == n % TWO_64
    modifies sender, receiver, receiver.window, receiver.window.bitmap
    ensures At(g, Step(g, w, WithCounter(e, n + 1)), sender, receiver, packets', sent', arrived')
    ensures sender.nextCounter == (n + if e.Send? then 1 else 0) % TWO_64
  {
    var numbered := e;
    if e.Send? {
      var c := sender.ReserveCounter(n);
      numbered := e.(counter := c);
    }
    packets', sent', arrived' := PlayOn(g, w, sender, receiver, packets, sent, arrived, numbered);
  }

  /** Drive the two objects with every counter reserved from the sender: they
      make the world of the numbered run. */
  method DriveReserved(g: Setting, es: seq<Event>)
    returns (sender: ExpresslaneSession, receiver: ExpresslaneSession, packets: seq<bytes>, sent: seq<Sending>, arrived: seq<Arrival>)
    requires Lawful(g.algorithm)
    ensures At(g, Run(g, START, Numbered(es)), sender, receiver, packets, sent, arrived)
    ensures sender.nextCounter == Sends(es) % TWO_64
    ensures fresh(sender) && fresh(receiver) && fresh(receiver.window) && fresh(receiver.window.bitmap)
    decreases |es|
  {
    if es == [] {
      sender := new ExpresslaneSession(g.algorithm, g.sender);
      receiver := new ExpresslaneSession(g.algorithm, g.receiver);
      packets, sent, arrived := [], [], [];
    } else {
      var before, e := es[..|es| - 1], es[|es| - 1];
      ghost var n := Sends(before);
      sender, receiver, packets, sent, arrived := DriveReserved(g, before);
      RunExtends(g, START, Numbered(before), WithCounter(e, n + 1));
      packets, sent, arrived := PlayReserved(g, Run(g, START, Numbered(before)), sender, receiver, packets, sent, arrived, e, n);
    }
  }
}
