/**
 Whole runs of a receiver and of a sender's key rotations, and the session
 object driven through them.
 */
module SessionRuns {
  import opened Word64
  import opened History
  import opened Wire
  import opened Aead
  import opened Sessions

  // ---- One packet ----

  /** Bytes after the announced payload are ignored. */
  lemma TrailingBytesIgnored(a: Algorithm, version: Version, rx: Rx, sid: SessionId, wire: bytes, junk: bytes, room: nat)
    requires |wire| >= WIRE_OVERHEAD && |wire| >= WIRE_OVERHEAD + Parse(wire).dataLen
    ensures Decide(a, version, rx, sid, wire + junk, room) == Decide(a, version, rx, sid, wire, room)
  {
    SliceOfPrefix(wire, junk, WIRE_OVERHEAD, WIRE_OVERHEAD + Parse(wire).dataLen);
    ParseIgnoresTail(wire, junk);
  }

  lemma SliceOfPrefix(s: bytes, t: bytes, i: nat, j: nat)
    requires i <= j <= |s|
    ensures (s + t)[i..j] == s[i..j]
  {
  }

  lemma ParseIgnoresTail(wire: bytes, junk: bytes)
    requires |wire| >= WIRE_OVERHEAD
    ensures Parse(wire + junk) == Parse(wire)
  {
    SliceOfPrefix(wire, junk, 0, 8);
    SliceOfPrefix(wire, junk, 8, 20);
    SliceOfPrefix(wire, junk, 20, 36);
    SliceOfPrefix(wire, junk, 36, 38);
    SliceOfPrefix(wire, junk, 38, 40);
  }

  /** What the receiver sees of a packet with header `h` around a sealed payload. */
  lemma OpenLayout(a: Algorithm, version: Version, k: Key, sid: SessionId, h: Header, payload: bytes)
    requires |payload| == h.dataLen
    ensures var wire := Layout(h, payload);
      && Parse(wire) == h
      && OpenWith(a, version, k, sid, wire) == a.open(k, h.iv, BuildAad(version, sid, h.counter, h.flags), Sealed(payload, h.tag))
  {
    ParseLayout(h, payload);
    assert Layout(h, payload)[WIRE_OVERHEAD..WIRE_OVERHEAD + |payload|] == payload;
  }

  lemma PacketHeader(a: Algorithm, version: Version, k: Key, counter: u64, sid: SessionId,
                     plain: bytes, iv: Iv, encoded: bool, junk: bytes)
    requires |plain| < 0x1_0000
    ensures var h := Parse(Packet(a, version, k, counter, sid, plain, iv, encoded) + junk);
      h.counter == counter && h.iv == iv && h.dataLen == |plain| && h.flags == SendFlags(encoded)
  {
    var flags := SendFlags(encoded);
    var s := a.seal(k, iv, BuildAad(version, sid, counter, flags), plain);
    var h := Header(counter, iv, s.tag, |plain|, flags);
    ParseLayout(h, s.payload + junk);
    assert Layout(h, s.payload) + junk == Layout(h, s.payload + junk);
  }

  /** A fresh packet sealed under the current or the previous peer key arrives
      intact, unless the current key opens it to something else: AES-GCM does
      not rule out a second key that also authenticates. */
  lemma RoundTrip(a: Algorithm, version: Version, rx: Rx, k: Key, counter: u64, sid: SessionId,
                  plain: bytes, iv: Iv, encoded: bool, junk: bytes, room: nat)
    requires Lawful(a) && |plain| < 0x1_0000 && |plain| <= room && Accepts(rx.accepted, counter)
    requires rx.current.Some? && (rx.current == Some(k) || rx.previous == Some(k))
    ensures var wire := Packet(a, version, k, counter, sid, plain, iv, encoded);
      && |wire| >= WIRE_OVERHEAD && |wire| >= WIRE_OVERHEAD + Parse(wire).dataLen
      && (Decide(a, version, rx, sid, wire + junk, room) == Ok(Delivery(plain, encoded))
          <==> OpenWith(a, version, rx.current.value, sid, wire) in {None, Some(plain)})
      && (rx.current == Some(k) ==> OpenWith(a, version, rx.current.value, sid, wire) == Some(plain))
  {
    var flags := SendFlags(encoded);
    var s := a.seal(k, iv, BuildAad(version, sid, counter, flags), plain);
    var h := Header(counter, iv, s.tag, |plain|, flags);
    OpenLayout(a, version, k, sid, h, s.payload);
    OpenLayout(a, version, rx.current.value, sid, h, s.payload);
    TrailingBytesIgnored(a, version, rx, sid, Layout(h, s.payload), junk, room);
  }

  /** Under an unambiguous algorithm nothing but a fresh counter, room and one
      of the last two keys is needed. */
  lemma RoundTripUnambiguous(a: Algorithm, version: Version, rx: Rx, k: Key, counter: u64, sid: SessionId,
                             plain: bytes, iv: Iv, encoded: bool, junk: bytes, room: nat)
    requires Lawful(a) && Unambiguous(a) && |plain| < 0x1_0000 && |plain| <= room && Accepts(rx.accepted, counter)
    requires rx.current.Some? && (rx.current == Some(k) || rx.previous == Some(k))
    ensures Decide(a, version, rx, sid, Packet(a, version, k, counter, sid, plain, iv, encoded) + junk, room)
            == Ok(Delivery(plain, encoded))
  {
    RoundTrip(a, version, rx, k, counter, sid, plain, iv, encoded, junk, room);
    var flags := SendFlags(encoded);
    var s := a.seal(k, iv, BuildAad(version, sid, counter, flags), plain);
    var h := Header(counter, iv, s.tag, |plain|, flags);
    OpenLayout(a, version, rx.current.value, sid, h, s.payload);
  }

  /** What the current key opens is delivered, whatever the previous key says. */
  lemma CurrentKeyFirst(a: Algorithm, version: Version, rx: Rx, sid: SessionId, h: Header, payload: bytes, junk: bytes, room: nat)
    requires |payload| == h.dataLen <= room && Accepts(rx.accepted, h.counter) && rx.current.Some?
    ensures var p := a.open(rx.current.value, h.iv, BuildAad(version, sid, h.counter, h.flags), Sealed(payload, h.tag));
      p.Some? ==> Decide(a, version, rx, sid, Layout(h, payload) + junk, room) == Ok(Delivery(p.value, IsEncoded(h.flags)))
  {
    OpenLayout(a, version, rx.current.value, sid, h, payload);
    TrailingBytesIgnored(a, version, rx, sid, Layout(h, payload), junk, room);
  }

  /** Such keys are possible: a lawful cipher under which every nonempty packet
      of the previous key is delivered as something else, whenever the current
      key begins with another byte. */
  lemma FallbackCanFail(version: Version, rx: Rx, k: Key, counter: u64, sid: SessionId,
                        plain: bytes, iv: Iv, encoded: bool, junk: bytes, room: nat)
    requires 0 < |plain| < 0x1_0000 && |plain| <= room && Accepts(rx.accepted, counter)
    requires rx.current.Some? && rx.previous == Some(k) && rx.current.value[0] != k[0]
    ensures Lawful(Shifting())
    ensures var r := Decide(Shifting(), version, rx, sid, Packet(Shifting(), version, k, counter, sid, plain, iv, encoded) + junk, room);
      r.Ok? && |r.value.plain| == |plain| && r.value.plain[0] != plain[0]
  {
    ShiftingIsLawful();
    var flags := SendFlags(encoded);
    var s := Shifting().seal(k, iv, BuildAad(version, sid, counter, flags), plain);
    var h := Header(counter, iv, s.tag, |plain|, flags);
    ShiftedApart(k, rx.current.value, iv, BuildAad(version, sid, counter, flags), plain);
    CurrentKeyFirst(Shifting(), version, rx, sid, h, s.payload, junk, room);
  }

  /** A packet whose flags field the network replaced. */
  function WithFlags(wire: bytes, altered: u16): bytes
    requires |wire| >= WIRE_OVERHEAD
  {
    wire[..38] + ToBytes(altered, 2) + wire[40..]
  }

  lemma WithFlagsParses(wire: bytes, altered: u16)
    requires |wire| >= WIRE_OVERHEAD
    ensures Parse(WithFlags(wire, altered)) == Parse(wire).(flags := altered)
    ensures WithFlags(wire, altered)[WIRE_OVERHEAD..] == wire[WIRE_OVERHEAD..]
  {
    var wire' := WithFlags(wire, altered);
    FieldRoundTrip(0, altered);
    assert wire'[0..8] == wire[0..8] && wire'[8..20] == wire[8..20] && wire'[20..36] == wire[20..36];
    assert wire'[36..38] == wire[36..38] && wire'[38..40] == ToBytes(altered, 2);
  }

  lemma OpenIgnoresFlags(a: Algorithm, version: Version, k: Key, sid: SessionId, wire: bytes, altered: u16)
    requires version != Version2 && |wire| >= WIRE_OVERHEAD && |wire| >= WIRE_OVERHEAD + Parse(wire).dataLen
    ensures Parse(WithFlags(wire, altered)).dataLen == Parse(wire).dataLen
    ensures OpenWith(a, version, k, sid, WithFlags(wire, altered)) == OpenWith(a, version, k, sid, wire)
  {
    WithFlagsParses(wire, altered);
    var n := Parse(wire).dataLen;
    assert WithFlags(wire, altered)[WIRE_OVERHEAD..WIRE_OVERHEAD + n] == WithFlags(wire, altered)[WIRE_OVERHEAD..][..n];
    assert wire[WIRE_OVERHEAD..WIRE_OVERHEAD + n] == wire[WIRE_OVERHEAD..][..n];
  }

  function Reflag(r: Result<Delivery>, altered: u16): Result<Delivery> {
    if r.Ok? then Ok(r.value.(encoded := IsEncoded(altered))) else r
  }

  /** Before Version2 the flags are not authenticated: whatever the network
      makes of them, every packet, genuine or not, gets the answer it would have
      had, with the altered `encoded` flag. */
  lemma FlagsUnboundBeforeVersion2(a: Algorithm, version: Version, rx: Rx, sid: SessionId, wire: bytes, altered: u16, room: nat)
    requires version != Version2 && |wire| >= WIRE_OVERHEAD
    ensures Decide(a, version, rx, sid, WithFlags(wire, altered), room) == Reflag(Decide(a, version, rx, sid, wire, room), altered)
  {
    WithFlagsParses(wire, altered);
    if |wire| >= WIRE_OVERHEAD + Parse(wire).dataLen && rx.current.Some? {
      OpenIgnoresFlags(a, version, rx.current.value, sid, wire, altered);
      if rx.previous.Some? {
        OpenIgnoresFlags(a, version, rx.previous.value, sid, wire, altered);
      }
    }
  }

  // ---- Which error a packet gets ----

  /** A packet cut short, in its header or in its payload. */
  lemma CutShort(a: Algorithm, version: Version, rx: Rx, k: Key, counter: u64, sid: SessionId,
                 plain: bytes, iv: Iv, encoded: bool, n: nat, room: nat)
    requires Lawful(a) && |plain| < 0x1_0000 && n < WIRE_OVERHEAD + |plain|
    ensures var wire := Packet(a, version, k, counter, sid, plain, iv, encoded);
      && n < |wire|
      && Decide(a, version, rx, sid, wire[..n], room)
         == Err(if n < WIRE_OVERHEAD || Accepts(rx.accepted, counter) then InsufficientData else Replayed)
  {
    var wire := Packet(a, version, k, counter, sid, plain, iv, encoded);
    PacketHeader(a, version, k, counter, sid, plain, iv, encoded, []);
    assert wire + [] == wire;
    CutWire(a, version, rx, sid, wire, n, room);
  }

  lemma CutWire(a: Algorithm, version: Version, rx: Rx, sid: SessionId, wire: bytes, n: nat, room: nat)
    requires WIRE_OVERHEAD <= |wire| && n < WIRE_OVERHEAD + Parse(wire).dataLen && n <= |wire|
    ensures Decide(a, version, rx, sid, wire[..n], room)
            == Err(if n < WIRE_OVERHEAD || Accepts(rx.accepted, Parse(wire).counter) then InsufficientData else Replayed)
  {
    if n >= WIRE_OVERHEAD {
      assert wire == wire[..n] + wire[n..];
      ParseIgnoresTail(wire[..n], wire[n..]);
    }
  }

  /** A fresh packet for which the caller has no room. */
  lemma NoRoom(a: Algorithm, version: Version, rx: Rx, k: Key, counter: u64, sid: SessionId,
               plain: bytes, iv: Iv, encoded: bool, junk: bytes, room: nat)
    requires Lawful(a) && room < |plain| < 0x1_0000 && Accepts(rx.accepted, counter)
    ensures Decide(a, version, rx, sid, Packet(a, version, k, counter, sid, plain, iv, encoded) + junk, room) == Err(BufferTooSmall)
  {
    PacketHeader(a, version, k, counter, sid, plain, iv, encoded, junk);
  }

  /** A fresh packet before any key was installed. */
  lemma NoKey(a: Algorithm, version: Version, es: seq<RxEvent>, k: Key, counter: u64, sid: SessionId,
              plain: bytes, iv: Iv, encoded: bool, junk: bytes, room: nat)
    requires Lawful(a) && |plain| < 0x1_0000 && |plain| <= room && Installs(es) == []
    requires Accepts(RxRun(a, version, Rx(None, None, {}), es).accepted, counter)
    ensures Decide(a, version, RxRun(a, version, Rx(None, None, {}), es), sid,
                   Packet(a, version, k, counter, sid, plain, iv, encoded) + junk, room) == Err(KeyNotSet)
  {
    PeerSlotsAreLastTwo(a, version, es);
    PacketHeader(a, version, k, counter, sid, plain, iv, encoded, junk);
  }

  /** A fresh packet, or a forgery made like one, that neither key opens. */
  lemma NeitherKeyOpens(a: Algorithm, version: Version, rx: Rx, sid: SessionId, h: Header, payload: bytes, junk: bytes, room: nat)
    requires |payload| == h.dataLen <= room && Accepts(rx.accepted, h.counter) && rx.current.Some?
    requires forall k | rx.current == Some(k) || rx.previous == Some(k) ::
      a.open(k, h.iv, BuildAad(version, sid, h.counter, h.flags), Sealed(payload, h.tag)) == None
    ensures Decide(a, version, rx, sid, Layout(h, payload) + junk, room) == Err(InvalidData)
  {
    OpenLayout(a, version, rx.current.value, sid, h, payload);
    if rx.previous.Some? {
      OpenLayout(a, version, rx.previous.value, sid, h, payload);
    }
    TrailingBytesIgnored(a, version, rx, sid, Layout(h, payload), junk, room);
  }

  // ---- Receiver runs ----

  datatype RxEvent = Install(key: Key) | Receive(sid: SessionId, wire: bytes, room: nat)

  ghost predicate Refused(a: Algorithm, version: Version, rx: Rx, e: RxEvent) {
    match e
    case Install(k) => IsInvalid(k)
    case Receive(sid, wire, room) => Decide(a, version, rx, sid, wire, room).Err?
  }

  ghost function RxStep(a: Algorithm, version: Version, rx: Rx, e: RxEvent): Rx {
    if Refused(a, version, rx, e) then rx
    else match e
      case Install(k) => rx.(current := Some(k), previous := rx.current)
      case Receive(sid, wire, room) => Remember(rx, wire, Decide(a, version, rx, sid, wire, room))
  }

  ghost function RxRun(a: Algorithm, version: Version, rx: Rx, es: seq<RxEvent>): Rx
    decreases |es|
  {
    if es == [] then rx else RxRun(a, version, RxStep(a, version, rx, es[0]), es[1..])
  }

  /** What one event delivers. */
  ghost function DeliveredBy(a: Algorithm, version: Version, rx: Rx, e: RxEvent): seq<Delivery> {
    if e.Receive? && !Refused(a, version, rx, e) then [Decide(a, version, rx, e.sid, e.wire, e.room).value] else []
  }

  /** The packets delivered in a run, in order. */
  ghost function Deliveries(a: Algorithm, version: Version, rx: Rx, es: seq<RxEvent>): seq<Delivery>
    decreases |es|
  {
    if es == [] then []
    else DeliveredBy(a, version, rx, es[0]) + Deliveries(a, version, RxStep(a, version, rx, es[0]), es[1..])
  }

  /** What the caller is told about one event. */
  datatype Answer = Installed(installed: Result<()>) | Received(received: Result<Delivery>)

  ghost function AnswerTo(a: Algorithm, version: Version, rx: Rx, e: RxEvent): Answer {
    match e
    case Install(k) => Installed(if IsInvalid(k) then Err(InvalidKey) else Ok(()))
    case Receive(sid, wire, room) => Received(Decide(a, version, rx, sid, wire, room))
  }

  /** All answers of a run, errors included. */
  ghost function Answers(a: Algorithm, version: Version, rx: Rx, es: seq<RxEvent>): seq<Answer>
    decreases |es|
  {
    if es == [] then []
    else [AnswerTo(a, version, rx, es[0])] + Answers(a, version, RxStep(a, version, rx, es[0]), es[1..])
  }

  lemma {:induction false} RxRunExtends(a: Algorithm, version: Version, rx: Rx, es: seq<RxEvent>, e: RxEvent)
    ensures RxRun(a, version, rx, es + [e]) == RxStep(a, version, RxRun(a, version, rx, es), e)
    decreases |es|
  {
    if es == [] {
      assert (es + [e])[1..] == [];
    } else {
      assert (es + [e])[1..] == es[1..] + [e];
      RxRunExtends(a, version, RxStep(a, version, rx, es[0]), es[1..], e);
    }
  }

  lemma {:induction false} DeliveriesExtend(a: Algorithm, version: Version, rx: Rx, es: seq<RxEvent>, e: RxEvent)
    ensures Deliveries(a, version, rx, es + [e])
            == Deliveries(a, version, rx, es) + DeliveredBy(a, version, RxRun(a, version, rx, es), e)
    decreases |es|
  {
    if es == [] {
      assert (es + [e])[1..] == [];
    } else {
      assert (es + [e])[1..] == es[1..] + [e];
      DeliveriesExtend(a, version, RxStep(a, version, rx, es[0]), es[1..], e);
    }
  }

  lemma {:induction false} AnswersExtend(a: Algorithm, version: Version, rx: Rx, es: seq<RxEvent>, e: RxEvent)
    ensures Answers(a, version, rx, es + [e]) == Answers(a, version, rx, es) + [AnswerTo(a, version, RxRun(a, version, rx, es), e)]
    decreases |es|
  {
    if es == [] {
      assert (es + [e])[1..] == [];
    } else {
      assert (es + [e])[1..] == es[1..] + [e];
      AnswersExtend(a, version, RxStep(a, version, rx, es[0]), es[1..], e);
    }
  }

  lemma {:induction false} AcceptedStays(a: Algorithm, version: Version, rx: Rx, es: seq<RxEvent>)
    ensures rx.accepted <= RxRun(a, version, rx, es).accepted
    decreases |es|
  {
    if es != [] {
      AcceptedStays(a, version, RxStep(a, version, rx, es[0]), es[1..]);
    }
  }

  /** Once a packet was delivered, every later packet with its counter is
      answered Replayed, whatever else it holds and whatever happened since. */
  lemma DeliveredThenReplayed(a: Algorithm, version: Version, rx: Rx, e: RxEvent, es: seq<RxEvent>, again: RxEvent)
    requires e.Receive? && !Refused(a, version, rx, e)
    requires again.Receive? && |again.wire| >= WIRE_OVERHEAD && Parse(again.wire).counter == Parse(e.wire).counter
    ensures AnswerTo(a, version, RxRun(a, version, RxStep(a, version, rx, e), es), again) == Received(Err(Replayed))
  {
    AcceptedStays(a, version, RxStep(a, version, rx, e), es);
  }

  /** So is every packet whose counter a delivery has left a window behind. */
  lemma TooOldThenReplayed(a: Algorithm, version: Version, rx: Rx, e: RxEvent, es: seq<RxEvent>, old': RxEvent)
    requires e.Receive? && !Refused(a, version, rx, e)
    requires old'.Receive? && |old'.wire| >= WIRE_OVERHEAD && Parse(old'.wire).counter + 8192 <= Parse(e.wire).counter
    ensures AnswerTo(a, version, RxRun(a, version, RxStep(a, version, rx, e), es), old') == Received(Err(Replayed))
  {
    AcceptedStays(a, version, RxStep(a, version, rx, e), es);
  }

  /** The elements marked in `keep`. */
  function Kept<T>(xs: seq<T>, keep: seq<bool>): seq<T>
    requires |xs| == |keep|
    decreases |xs|
  {
    if xs == [] then [] else (if keep[0] then [xs[0]] else []) + Kept(xs[1..], keep[1..])
  }

  /** Every event not kept is refused when its turn comes. */
  ghost predicate DropsRefused(a: Algorithm, version: Version, rx: Rx, es: seq<RxEvent>, keep: seq<bool>)
    requires |es| == |keep|
    decreases |es|
  {
    es == []
    || ((keep[0] || Refused(a, version, rx, es[0])) && DropsRefused(a, version, RxStep(a, version, rx, es[0]), es[1..], keep[1..]))
  }

  lemma {:induction false} AnswersLength(a: Algorithm, version: Version, rx: Rx, es: seq<RxEvent>)
    ensures |Answers(a, version, rx, es)| == |es|
    decreases |es|
  {
    if es != [] {
      AnswersLength(a, version, RxStep(a, version, rx, es[0]), es[1..]);
    }
  }

  /** Whichever refused packets and keys are put into a run or taken out of it,
      and wherever, every other event gets the same answer, errors included,
      and the same is delivered and remembered. */
  lemma {:induction false} RefusalsLeaveNoTrace(a: Algorithm, version: Version, rx: Rx, es: seq<RxEvent>, keep: seq<bool>)
    requires |es| == |keep| && DropsRefused(a, version, rx, es, keep)
    ensures |Answers(a, version, rx, es)| == |es|
    ensures Answers(a, version, rx, Kept(es, keep)) == Kept(Answers(a, version, rx, es), keep)
    ensures RxRun(a, version, rx, Kept(es, keep)) == RxRun(a, version, rx, es)
    ensures Deliveries(a, version, rx, Kept(es, keep)) == Deliveries(a, version, rx, es)
    decreases |es|
  {
    AnswersLength(a, version, rx, es);
    if es != [] {
      var rx' := RxStep(a, version, rx, es[0]);
      AnswersLength(a, version, rx', es[1..]);
      RefusalsLeaveNoTrace(a, version, rx', es[1..], keep[1..]);
      assert Answers(a, version, rx, es)[1..] == Answers(a, version, rx', es[1..]);
      if keep[0] {
        assert Kept(es, keep)[1..] == Kept(es[1..], keep[1..]);
      } else {
        assert Kept(es, keep) == Kept(es[1..], keep[1..]);
      }
    }
  }

  /** The valid keys installed in a run, in order. */
  function Installs(es: seq<RxEvent>): seq<Key> {
    if es == [] then []
    else
      var n := |es| - 1;
      Installs(es[..n]) + (if es[n].Install? && !IsInvalid(es[n].key) then [es[n].key] else [])
  }

  function Last(ks: seq<Key>): Option<Key> {
    if ks == [] then None else Some(ks[|ks| - 1])
  }

  function LastButOne(ks: seq<Key>): Option<Key> {
    if |ks| < 2 then None else Some(ks[|ks| - 2])
  }

  /** After any run the two peer slots are the last two valid installs. */
  lemma {:induction false} PeerSlotsAreLastTwo(a: Algorithm, version: Version, es: seq<RxEvent>)
    ensures RxRun(a, version, Rx(None, None, {}), es).current == Last(Installs(es))
    ensures RxRun(a, version, Rx(None, None, {}), es).previous == LastButOne(Installs(es))
    decreases |es|
  {
    if es != [] {
      var n := |es| - 1;
      PeerSlotsAreLastTwo(a, version, es[..n]);
      assert es == es[..n] + [es[n]];
      RxRunExtends(a, version, Rx(None, None, {}), es[..n], es[n]);
      if es[n].Install? && !IsInvalid(es[n].key) {
        LastOfAppended(Installs(es[..n]), es[n].key);
      } else {
        assert Installs(es) == Installs(es[..n]);
      }
    }
  }

  lemma LastOfAppended(ks: seq<Key>, k: Key)
    ensures Last(ks + [k]) == Some(k) && LastButOne(ks + [k]) == Last(ks)
  {
  }

  // ---- Sender key rotation ----

  datatype TxEvent = Stage(key: Key) | Promote

  datatype Tx = Tx(current: Option<Key>, next: Option<Key>)

  function TxStep(tx: Tx, e: TxEvent): Tx {
    match e
    case Stage(k) => if IsInvalid(k) then tx else tx.(next := Some(k))
    case Promote => Tx(if tx.next.Some? then tx.next else tx.current, None)
  }

  function TxRun(es: seq<TxEvent>): Tx {
    if es == [] then Tx(None, None) else TxStep(TxRun(es[..|es| - 1]), es[|es| - 1])
  }

  predicate ValidStage(e: TxEvent) {
    e.Stage? && !IsInvalid(e.key)
  }

  /** The key staged at `j` is still the staged one when `es[..i]` is over. */
  ghost predicate StagedUntil(es: seq<TxEvent>, j: nat, i: nat) {
    j < i <= |es| && ValidStage(es[j]) && forall m | j < m < i :: !ValidStage(es[m]) && !es[m].Promote?
  }

  /** The promote at `i` takes effect, on the key staged at `j`. */
  ghost predicate PromotedAt(es: seq<TxEvent>, j: nat, i: nat) {
    i < |es| && es[i].Promote? && StagedUntil(es, j, i)
  }

  ghost predicate TakesEffect(es: seq<TxEvent>, i: nat) {
    exists j: nat :: PromotedAt(es, j, i)
  }

  lemma TxRunStep(es: seq<TxEvent>, n: nat)
    requires 0 < n <= |es|
    ensures TxRun(es[..n]) == TxStep(TxRun(es[..n - 1]), es[n - 1])
  {
    assert es[..n][..n - 1] == es[..n - 1];
  }

  lemma StagedUntilStep(es: seq<TxEvent>, j: nat, n: nat)
    requires 0 < n <= |es|
    ensures StagedUntil(es, j, n) <==>
      if ValidStage(es[n - 1]) then j == n - 1 else StagedUntil(es, j, n - 1) && !es[n - 1].Promote?
  {
  }

  /** The staged key is the last valid one staged since the last promote. */
  lemma {:induction false} StagedKey(es: seq<TxEvent>, n: nat)
    requires n <= |es|
    ensures TxRun(es[..n]).next.Some? <==> exists j: nat :: StagedUntil(es, j, n)
    ensures forall j: nat | StagedUntil(es, j, n) :: TxRun(es[..n]).next == Some(es[j].key)
    decreases n
  {
    if n > 0 {
      StagedKey(es, n - 1);
      TxRunStep(es, n);
      forall j: nat {
        StagedUntilStep(es, j, n);
      }
      if ValidStage(es[n - 1]) {
        assert StagedUntil(es, n - 1, n);
      } else if TxRun(es[..n - 1]).next.Some? {
        var j: nat :| StagedUntil(es, j, n - 1);
        assert !es[n - 1].Promote? ==> StagedUntil(es, j, n);
      }
    }
  }

  /** Of the first `n` events, the promote at `i` is the last to take effect, on
      the key staged at `j`. */
  ghost predicate LastEffect(es: seq<TxEvent>, j: nat, i: nat, n: nat) {
    i < n && PromotedAt(es, j, i) && forall i': nat | i < i' < n :: !TakesEffect(es, i')
  }

  /** The send key is the key staged last before the last promote that found a
      key staged; there is none if no promote ever did. */
  lemma {:induction false} SendKey(es: seq<TxEvent>, n: nat)
    requires n <= |es|
    ensures TxRun(es[..n]).current.None? <==> forall i: nat | i < n :: !TakesEffect(es, i)
    ensures forall j: nat, i: nat | LastEffect(es, j, i, n) :: TxRun(es[..n]).current == Some(es[j].key)
    decreases n
  {
    if n > 0 {
      SendKey(es, n - 1);
      StagedKey(es, n - 1);
      TxRunStep(es, n);
      if es[n - 1].Promote? && TxRun(es[..n - 1]).next.Some? {
        var k: nat :| StagedUntil(es, k, n - 1);
        assert PromotedAt(es, k, n - 1) && TakesEffect(es, n - 1);
        forall j: nat, i: nat | LastEffect(es, j, i, n) ensures TxRun(es[..n]).current == Some(es[j].key) {
          assert i == n - 1 && StagedUntil(es, j, n - 1);
        }
      } else {
        assert !TakesEffect(es, n - 1);
        forall j: nat, i: nat | LastEffect(es, j, i, n) ensures TxRun(es[..n]).current == Some(es[j].key) {
          assert i != n - 1;
          assert LastEffect(es, j, i, n - 1);
        }
      }
    }
  }

  // ---- The session object does what the runs say ----

  /** One packet on a session object. */
  method HandlePacket(session: ExpresslaneSession, sid: SessionId, wire: bytes, room: nat) returns (r: Result<Delivery>)
    requires session.Valid()
    modifies session.window, session.window.bitmap
    ensures session.Valid()
    ensures r == Decide(session.algorithm, session.version, old(session.RxState()), sid, wire, room)
    ensures r.Ok? ==> |wire| >= WIRE_OVERHEAD && Accepts(old(session.window.accepted), Parse(wire).counter)
    ensures session.RxState() == Remember(old(session.RxState()), wire, r)
  {
    var out := new byte[room](_ => 0);
    var told := session.Decrypt(sid, wire, out);
    r := match told
      case Ok((n, encoded)) => Ok(Delivery(out[..n], encoded))
      case Err(error) => Err(error);
  }

  /** One receiver event on a session object. */
  method Handle(session: ExpresslaneSession, e: RxEvent) returns (answer: Answer)
    requires session.Valid()
    modifies session, session.window, session.window.bitmap
    ensures session.Valid() && session.currentSelf == old(session.currentSelf) && session.nextSelf == old(session.nextSelf)
    ensures session.RxState() == RxStep(session.algorithm, session.version, old(session.RxState()), e)
    ensures answer == AnswerTo(session.algorithm, session.version, old(session.RxState()), e)
    ensures |session.window.accepted| == |old(session.window.accepted)|
              + |DeliveredBy(session.algorithm, session.version, old(session.RxState()), e)|
  {
    match e {
      case Install(k) =>
        var r := session.UpdatePeerKey(k);
        answer := Installed(r);
      case Receive(sid, wire, room) =>
        var r := HandlePacket(session, sid, wire, room);
        answer := Received(r);
    }
  }

  /** The session object is where the run of `es` ends, and gave its answers. */
  ghost predicate Followed(a: Algorithm, version: Version, es: seq<RxEvent>, session: ExpresslaneSession, answers: seq<Answer>)
    reads session, session.window, session.window.bitmap
  {
    var start := Rx(None, None, {});
    && session.Valid() && session.algorithm == a && session.version == version
    && session.RxState() == RxRun(a, version, start, es)
    && answers == Answers(a, version, start, es)
    && |session.window.accepted| == |Deliveries(a, version, start, es)|
  }

  method HandleNext(a: Algorithm, version: Version, ghost es: seq<RxEvent>, session: ExpresslaneSession, answers: seq<Answer>, e: RxEvent)
    returns (answers': seq<Answer>)
    requires Followed(a, version, es, session, answers)
    modifies session, session.window, session.window.bitmap
    ensures Followed(a, version, es + [e], session, answers')
  {
    ghost var start := Rx(None, None, {});
    RxRunExtends(a, version, start, es, e);
    DeliveriesExtend(a, version, start, es, e);
    AnswersExtend(a, version, start, es, e);
    var answer := Handle(session, e);
    answers' := answers + [answer];
  }

  /** Drive a new session through any receiver events. */
  method ReceiveAll(a: Algorithm, version: Version, es: seq<RxEvent>) returns (session: ExpresslaneSession, answers: seq<Answer>)
    requires Lawful(a)
    ensures session.Valid() && session.RxState() == RxRun(a, version, Rx(None, None, {}), es)
    ensures answers == Answers(a, version, Rx(None, None, {}), es)
    ensures session.window.packetsReceived == |Deliveries(a, version, Rx(None, None, {}), es)| % TWO_64
  {
    session := new ExpresslaneSession(a, version);
    answers := [];
    for i := 0 to |es|
      invariant fresh(session) && fresh(session.window) && fresh(session.window.bitmap)
      invariant Followed(a, version, es[..i], session, answers)
    {
      assert es[..i + 1] == es[..i] + [es[i]];
      answers := HandleNext(a, version, es[..i], session, answers, es[i]);
    }
    assert es[..|es|] == es;
  }

  /** Drive a new session through any rotation of its own keys. */
  method RotateAll(a: Algorithm, version: Version, es: seq<TxEvent>) returns (session: ExpresslaneSession)
    requires Lawful(a)
    ensures session.Valid() && Tx(session.currentSelf, session.nextSelf) == TxRun(es)
  {
    session := new ExpresslaneSession(a, version);
    for i := 0 to |es|
      invariant session.Valid() && fresh(session) && fresh(session.window) && fresh(session.window.bitmap)
      invariant Tx(session.currentSelf, session.nextSelf) == TxRun(es[..i])
    {
      TxRunStep(es, i + 1);
      match es[i] {
        case Stage(k) => var _ := session.UpdateNextSelfKey(k);
        case Promote => session.PromoteSelfKey();
      }
    }
    assert es[..|es|] == es;
  }
}
