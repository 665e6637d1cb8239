/**
 An ExpressLane packet session. `Decide` and `Packet` say what receiving and
 sending mean; the class below updates its buffers and key slots in place and
 is proved to do exactly that.
 */
module Sessions {
  import opened Word64
  import opened History
  import opened ReplayWindows
  import opened Wire
  import opened Aead

  datatype Error = InsufficientData | BufferTooSmall | InvalidData | Replayed | KeyNotSet | InvalidKey

  datatype Result<+T> = Ok(value: T) | Err(error: Error)

  /** What a receiver remembers: two peer keys and the accepted counters. */
  datatype Rx = Rx(current: Option<Key>, previous: Option<Key>, accepted: set<u64>)

  /** A decrypted payload and its `encoded` flag. */
  datatype Delivery = Delivery(plain: bytes, encoded: bool)

  /** The sealed part of a packet that is long enough for its length field. */
  function SealedPart(wire: bytes): Sealed
    requires |wire| >= WIRE_OVERHEAD && |wire| >= WIRE_OVERHEAD + Parse(wire).dataLen
  {
    Sealed(wire[WIRE_OVERHEAD..WIRE_OVERHEAD + Parse(wire).dataLen], Parse(wire).tag)
  }

  /** Try one key on a packet. */
  function OpenWith(a: Algorithm, version: Version, k: Key, sid: SessionId, wire: bytes): Option<bytes>
    requires |wire| >= WIRE_OVERHEAD && |wire| >= WIRE_OVERHEAD + Parse(wire).dataLen
  {
    var h := Parse(wire);
    a.open(k, h.iv, BuildAad(version, sid, h.counter, h.flags), SealedPart(wire))
  }

  /** Current key first, then the one before it. */
  function OpenWithEither(a: Algorithm, version: Version, rx: Rx, sid: SessionId, wire: bytes): Option<bytes>
    requires |wire| >= WIRE_OVERHEAD && |wire| >= WIRE_OVERHEAD + Parse(wire).dataLen
    requires rx.current.Some?
  {
    var first := OpenWith(a, version, rx.current.value, sid, wire);
    if first.Some? || rx.previous.None? then first
    else OpenWith(a, version, rx.previous.value, sid, wire)
  }

  /** The answer to a packet, given room for `room` bytes of plaintext. */
  ghost function Decide(a: Algorithm, version: Version, rx: Rx, sid: SessionId, wire: bytes, room: nat): Result<Delivery> {
    if |wire| < WIRE_OVERHEAD then Err(InsufficientData)
    else
      var h := Parse(wire);
      if !Accepts(rx.accepted, h.counter) then Err(Replayed)
      else if |wire| < WIRE_OVERHEAD + h.dataLen then Err(InsufficientData)
      else if room < h.dataLen then Err(BufferTooSmall)
      else if rx.current.None? then Err(KeyNotSet)
      else match OpenWithEither(a, version, rx, sid, wire)
        case Some(p) => Ok(Delivery(p, IsEncoded(h.flags)))
        case None => Err(InvalidData)
  }

  /** What the receiver remembers afterwards: only a delivery leaves a trace. */
  ghost function Remember(rx: Rx, wire: bytes, r: Result<Delivery>): Rx
    requires r.Ok? ==> |wire| >= WIRE_OVERHEAD
  {
    if r.Ok? then rx.(accepted := rx.accepted + {Parse(wire).counter}) else rx
  }

  /** What the caller's buffer holds afterwards: the plaintext of a delivery,
      zeros where an authentication failure left unspecified bytes, and the
      caller's own bytes everywhere else. */
  ghost function Buffer(out: bytes, wire: bytes, r: Result<Delivery>): bytes
    requires r.Ok? ==> |r.value.plain| <= |out|
    requires r == Err(InvalidData) ==> |wire| >= WIRE_OVERHEAD && Parse(wire).dataLen <= |out|
  {
    match r
    case Ok(d) => d.plain + out[|d.plain|..]
    case Err(InvalidData) => seq(Parse(wire).dataLen, _ => 0) + out[Parse(wire).dataLen..]
    case Err(_) => out
  }

  /** What the caller is told: length and flag. */
  function Summary(r: Result<Delivery>): Result<(nat, bool)> {
    match r
    case Ok(d) => Ok((|d.plain|, d.encoded))
    case Err(e) => Err(e)
  }

  /** The packet that carries `plain` under key `k`. */
  function Packet(a: Algorithm, version: Version, k: Key, counter: u64, sid: SessionId, plain: bytes, iv: Iv, encoded: bool): bytes
    requires |plain| < 0x1_0000
  {
    var flags := SendFlags(encoded);
    var s := a.seal(k, iv, BuildAad(version, sid, counter, flags), plain);
    Layout(Header(counter, iv, s.tag, |plain|, flags), s.payload)
  }

  /** The caller's buffer after the cipher refused to seal: the iv is in place,
      and zeros stand where the plaintext was. */
  function Scrubbed(out: bytes, iv: Iv, n: nat): bytes
    requires |out| >= WIRE_OVERHEAD + n
  {
    out[..8] + iv + out[20..40] + seq(n, _ => 0) + out[40 + n..]
  }

  /** On an error no byte of plaintext or ciphertext is left behind: every byte
      is the caller's own, or a zero where the cipher had written. */
  lemma BufferByte(out: bytes, wire: bytes, r: Result<Delivery>, i: nat)
    requires r.Ok? ==> |r.value.plain| <= |out|
    requires r == Err(InvalidData) ==> |wire| >= WIRE_OVERHEAD && Parse(wire).dataLen <= |out|
    requires i < |out|
    ensures |Buffer(out, wire, r)| == |out|
    ensures Buffer(out, wire, r)[i] ==
      if r.Ok? && i < |r.value.plain| then r.value.plain[i]
      else if r == Err(InvalidData) && i < Parse(wire).dataLen then 0
      else out[i]
  {
  }

  lemma ScrubbedByte(out: bytes, iv: Iv, n: nat, i: nat)
    requires |out| >= WIRE_OVERHEAD + n && i < |out|
    ensures |Scrubbed(out, iv, n)| == |out|
    ensures Scrubbed(out, iv, n)[i] == if 8 <= i < 20 then iv[i - 8] else if 40 <= i < 40 + n then 0 else out[i]
  {
  }

  lemma ScrubbedOfParts(s: bytes, out: bytes, iv: Iv, n: nat)
    requires |s| == |out| >= WIRE_OVERHEAD + n && s[..8] == out[..8] && s[8..20] == iv && s[20..40] == out[20..40]
    requires s[40..40 + n] == seq(n, _ => 0) && s[40 + n..] == out[40 + n..]
    ensures s == Scrubbed(out, iv, n)
  {
    assert s == s[..8] + s[8..20] + s[20..40] + s[40..40 + n] + s[40 + n..];
  }

  lemma PacketBytes(a: Algorithm, version: Version, k: Key, counter: u64, sid: SessionId, plain: bytes, iv: Iv, encoded: bool,
                    s: Sealed, rest: bytes)
    requires |plain| < 0x1_0000 && s == a.seal(k, iv, BuildAad(version, sid, counter, SendFlags(encoded)), plain)
    ensures HeaderBytes(Header(counter, iv, s.tag, |plain|, SendFlags(encoded))) + (s.payload + rest)
            == Packet(a, version, k, counter, sid, plain, iv, encoded) + rest
  {
  }

  class ExpresslaneSession {
    const algorithm: Algorithm
    const version: Version
    var currentSelf: Option<Key>
    var nextSelf: Option<Key>
    var nextCounter: u64
    var packetsSent: u64
    var currentPeer: Option<Key>
    var prevPeer: Option<Key>
    const window: ReplayWindow
    var selfKeyInstalled: bool
    var peerKeyInstalled: bool

    ghost predicate Valid()
      reads this, window, window.bitmap
    {
      && Lawful(algorithm)
      && window.Valid()
      && selfKeyInstalled == currentSelf.Some?
      && peerKeyInstalled == currentPeer.Some?
      && (prevPeer.Some? ==> currentPeer.Some?)
      && (currentSelf.Some? ==> !IsInvalid(currentSelf.value))
      && (nextSelf.Some? ==> !IsInvalid(nextSelf.value))
      && (currentPeer.Some? ==> !IsInvalid(currentPeer.value))
      && (prevPeer.Some? ==> !IsInvalid(prevPeer.value))
    }

    ghost function RxState(): Rx
      reads this, window
    {
      Rx(currentPeer, prevPeer, window.accepted)
    }

    constructor (algorithm: Algorithm, version: Version)
      requires Lawful(algorithm)
      ensures Valid() && fresh(window) && fresh(window.bitmap)
      ensures this.algorithm == algorithm && this.version == version
      ensures currentSelf == nextSelf == None && nextCounter == packetsSent == 0 && RxState() == Rx(None, None, {})
    {
      this.algorithm := algorithm;
      this.version := version;
      currentSelf, nextSelf, nextCounter, packetsSent := None, None, 0, 0;
      currentPeer, prevPeer := None, None;
      window := new ReplayWindow();
      selfKeyInstalled, peerKeyInstalled := false, false;
    }

    /** First reservation is 1; after 2^64 - 1 comes 0. With `n` reservations
        before, this is number `n + 1`. */
    method ReserveCounter(ghost n: nat) returns (c: u64)
      requires Valid() && nextCounter == n % TWO_64
      modifies this`nextCounter
      ensures Valid() && c == nextCounter == (n + 1) % TWO_64
    {
      var before := nextCounter;
      nextCounter := (nextCounter + 1) % TWO_64;
      c := (before + 1) % TWO_64;
      WrapOn(before, n, 1);
    }

    method UpdateNextSelfKey(k: Key) returns (r: Result<()>)
      requires Valid()
      modifies this`nextSelf
      ensures Valid()
      ensures r == (if IsInvalid(k) then Err(InvalidKey) else Ok(()))
      ensures nextSelf == (if IsInvalid(k) then old(nextSelf) else Some(k))
    {
      if IsInvalid(k) {
        return Err(InvalidKey);
      }
      nextSelf := Some(k);
      return Ok(());
    }

    method PromoteSelfKey()
      requires Valid()
      modifies this`nextSelf, this`currentSelf, this`selfKeyInstalled
      ensures Valid() && nextSelf == None
      ensures currentSelf == (if old(nextSelf).Some? then old(nextSelf) else old(currentSelf))
    {
      var taken := nextSelf;
      nextSelf := None;
      if taken.Some? {
        currentSelf := taken;
        selfKeyInstalled := true;
      }
    }

    method UpdatePeerKey(k: Key) returns (r: Result<()>)
      requires Valid()
      modifies this`currentPeer, this`prevPeer, this`peerKeyInstalled
      ensures Valid()
      ensures r == (if IsInvalid(k) then Err(InvalidKey) else Ok(()))
      ensures RxState() == (if IsInvalid(k) then old(RxState())
                            else old(RxState()).(current := Some(k), previous := old(currentPeer)))
    {
      if IsInvalid(k) {
        return Err(InvalidKey);
      }
      prevPeer := currentPeer;
      currentPeer := Some(k);
      peerKeyInstalled := true;
      return Ok(());
    }

    predicate HasValidKeys()
      requires Valid()
      reads this, window, window.bitmap
      ensures HasValidKeys() <==> currentPeer.Some? && currentSelf.Some?
    {
      peerKeyInstalled && selfKeyInstalled
    }

    method Encrypt(counter: u64, sid: SessionId, plain: bytes, iv: Iv, encoded: bool, out: array<byte>) returns (r: Result<nat>)
      requires Valid() && out as object != window.bitmap
      modifies this`packetsSent, out
      ensures Valid()
      ensures r == (if out.Length < WIRE_OVERHEAD + |plain| then Err(BufferTooSmall)
                    else if |plain| > 0xFFFF then Err(InvalidData)
                    else if currentSelf.None? then Err(KeyNotSet)
                    else if |plain| > algorithm.maxPlain then Err(InvalidData)
                    else Ok(WIRE_OVERHEAD + |plain|))
      ensures r.Err? ==> packetsSent == old(packetsSent)
      ensures r.Err? ==> out[..] == if out.Length >= WIRE_OVERHEAD + |plain| && |plain| <= 0xFFFF && currentSelf.Some?
                                    then Scrubbed(old(out[..]), iv, |plain|) else old(out[..])
      ensures r.Ok? ==> out[..] == Packet(algorithm, version, currentSelf.value, counter, sid, plain, iv, encoded) + old(out[r.value..])
      ensures r.Ok? ==> packetsSent == (old(packetsSent) + 1) % TWO_64
    {
      var needed := WIRE_OVERHEAD + |plain|;
      if out.Length < needed {
        return Err(BufferTooSmall);
      }
      if |plain| > 0xFFFF {
        return Err(InvalidData);
      }
      if currentSelf.None? {
        return Err(KeyNotSet);
      }
      var sealed := WritePacket(currentSelf.value, counter, sid, plain, iv, encoded, out);
      if !sealed {
        return Err(InvalidData);
      }
      packetsSent := (packetsSent + 1) % TWO_64;
      return Ok(needed);
    }

    /** Payload sealed where it will be sent from, then the header around it;
        no plaintext is left behind if it cannot be sealed. */
    method WritePacket(k: Key, counter: u64, sid: SessionId, plain: bytes, iv: Iv, encoded: bool, out: array<byte>) returns (ok: bool)
      requires Lawful(algorithm) && |plain| <= 0xFFFF && out.Length >= WIRE_OVERHEAD + |plain|
      modifies out
      ensures ok <==> |plain| <= algorithm.maxPlain
      ensures out[..] == if ok then Packet(algorithm, version, k, counter, sid, plain, iv, encoded) + old(out[WIRE_OVERHEAD + |plain|..])
                         else Scrubbed(old(out[..]), iv, |plain|)
    {
      var aad := BuildAad(version, sid, counter, SendFlags(encoded));
      var tag := SealPayload(k, iv, aad, plain, out);
      ok := tag.Some?;
      if ok {
        FinishPacket(k, counter, sid, plain, iv, encoded, tag.value, out);
      } else {
        ScrubPayload(out, |plain|);
        ghost var before, after := old(out[..]), out[..];
        assert after[..8] == before[..8] && after[8..20] == iv && after[20..40] == before[20..40];
        ScrubbedOfParts(after, before, iv, |plain|);
      }
    }

    /** The header around a payload sealed in its place. */
    method FinishPacket(k: Key, counter: u64, sid: SessionId, plain: bytes, iv: Iv, encoded: bool, tag: Tag, out: array<byte>)
      requires Lawful(algorithm) && |plain| <= 0xFFFF && out.Length >= WIRE_OVERHEAD + |plain| && out[8..20] == iv
      requires Sealed(out[40..40 + |plain|], tag) == algorithm.seal(k, iv, BuildAad(version, sid, counter, SendFlags(encoded)), plain)
      modifies out
      ensures out[..] == Packet(algorithm, version, k, counter, sid, plain, iv, encoded) + old(out[WIRE_OVERHEAD + |plain|..])
    {
      ghost var payload, rest := out[40..40 + |plain|], out[40 + |plain|..];
      assert out[40..] == payload + rest;
      var h := Header(counter, iv, tag, |plain|, SendFlags(encoded));
      WriteHeader(out, h);
      assert out[..] == out[..40] + out[40..];
      PacketBytes(algorithm, version, k, counter, sid, plain, iv, encoded, Sealed(payload, tag), rest);
    }

    static method ScrubPayload(out: array<byte>, n: nat)
      requires out.Length >= WIRE_OVERHEAD + n
      modifies out
      ensures out[..8] == old(out[..8]) && out[8..20] == old(out[8..20]) && out[20..40] == old(out[20..40])
      ensures out[40..40 + n] == seq(n, _ => 0) && out[40 + n..] == old(out[40 + n..])
    {
      Overwrite(out, 40, seq(n, _ => 0));
    }

    /** The iv in its place, and the payload sealed in its own. */
    method SealPayload(k: Key, iv: Iv, aad: bytes, plain: bytes, out: array<byte>) returns (tag: Option<Tag>)
      requires Lawful(algorithm) && out.Length >= WIRE_OVERHEAD + |plain|
      modifies out
      ensures tag.Some? <==> |plain| <= algorithm.maxPlain
      ensures out[..8] == old(out[..8]) && out[8..20] == iv && out[20..40] == old(out[20..40])
      ensures tag.Some? ==> Sealed(out[40..40 + |plain|], tag.value) == algorithm.seal(k, iv, aad, plain)
      ensures out[40 + |plain|..] == old(out[40 + |plain|..])
    {
      Overwrite(out, 8, iv);
      Overwrite(out, 40, plain);
      assert out[8..20] == iv;
      tag := SealInPlace(algorithm, k, iv, aad, out, 40, 40 + |plain|);
    }

    /** The header fields around the iv that is already in place. */
    static method WriteHeader(out: array<byte>, h: Header)
      requires out.Length >= WIRE_OVERHEAD && out[8..20] == h.iv
      modifies out
      ensures out[..WIRE_OVERHEAD] == HeaderBytes(h)
      ensures out[WIRE_OVERHEAD..] == old(out[WIRE_OVERHEAD..])
    {
      ghost var n, s0 := out.Length, out[..];
      Overwrite(out, 0, ToBytes(h.counter, 8));
      ghost var s1 := out[..];
      SliceKept(s0, s1, 0, 8, 8, 20);
      SliceKept(s0, s1, 0, 8, 40, n);
      Overwrite(out, 20, h.tag);
      ghost var s2 := out[..];
      SliceKept(s1, s2, 20, 36, 0, 8);
      SliceKept(s1, s2, 20, 36, 8, 20);
      SliceKept(s1, s2, 20, 36, 40, n);
      Overwrite(out, 36, ToBytes(h.dataLen, 2));
      ghost var s3 := out[..];
      SliceKept(s2, s3, 36, 38, 0, 8);
      SliceKept(s2, s3, 36, 38, 8, 20);
      SliceKept(s2, s3, 36, 38, 20, 36);
      SliceKept(s2, s3, 36, 38, 40, n);
      Overwrite(out, 38, ToBytes(h.flags, 2));
      ghost var s4 := out[..];
      SliceKept(s3, s4, 38, 40, 0, 8);
      SliceKept(s3, s4, 38, 40, 8, 20);
      SliceKept(s3, s4, 38, 40, 20, 36);
      SliceKept(s3, s4, 38, 40, 36, 38);
      SliceKept(s3, s4, 38, 40, 40, n);
      HeaderOfParts(s4, h);
    }

    method Decrypt(sid: SessionId, wire: bytes, out: array<byte>) returns (r: Result<(nat, bool)>)
      requires Valid() && out as object != window.bitmap
      modifies window, window.bitmap, out
      ensures Valid()
      ensures var d := Decide(algorithm, version, old(RxState()), sid, wire, out.Length);
        && r == Summary(d)
        && (d.Ok? ==> |wire| >= WIRE_OVERHEAD && |d.value.plain| <= out.Length)
        && (d == Err(InvalidData) ==> |wire| >= WIRE_OVERHEAD && Parse(wire).dataLen <= out.Length)
        && RxState() == Remember(old(RxState()), wire, d)
        && out[..] == Buffer(old(out[..]), wire, d)
    {
      if |wire| < WIRE_OVERHEAD {
        return Err(InsufficientData);
      }
      var h := Parse(wire);
      if window.WouldReject(h.counter) {
        return Err(Replayed);
      }
      if |wire| < WIRE_OVERHEAD + h.dataLen {
        return Err(InsufficientData);
      }
      if out.Length < h.dataLen {
        return Err(BufferTooSmall);
      }
      if currentPeer.None? {
        return Err(KeyNotSet);
      }
      r := Authenticate(sid, wire, out);
    }

    /** The part of `Decrypt` that runs the cipher. */
    method Authenticate(sid: SessionId, wire: bytes, out: array<byte>) returns (r: Result<(nat, bool)>)
      requires Lawful(algorithm) && window.Valid() && out as object != window.bitmap && currentPeer.Some?
      requires |wire| >= WIRE_OVERHEAD && |wire| >= WIRE_OVERHEAD + Parse(wire).dataLen && out.Length >= Parse(wire).dataLen
      requires Accepts(window.accepted, Parse(wire).counter)
      modifies window, window.bitmap, out
      ensures window.Valid()
      ensures var p := OpenWithEither(algorithm, version, Rx(currentPeer, prevPeer, {}), sid, wire);
        var n := Parse(wire).dataLen;
        if p.Some? then
          && r == Ok((n, IsEncoded(Parse(wire).flags))) && |p.value| == n
          && out[..] == p.value + old(out[n..])
          && window.accepted == old(window.accepted) + {Parse(wire).counter}
        else
          && r == Err(InvalidData)
          && out[..] == seq(n, _ => 0) + old(out[n..])
          && window.accepted == old(window.accepted)
    {
      var h := Parse(wire);
      var ok := TryKeys(sid, wire, out);
      if !ok {
        Overwrite(out, 0, seq(h.dataLen, _ => 0));
        assert out[h.dataLen..] == old(out[h.dataLen..]);
        assert out[..] == out[..h.dataLen] + out[h.dataLen..];
        return Err(InvalidData);
      }
      assert out[..] == out[..h.dataLen] + out[h.dataLen..];
      CommitCounter(h.counter);
      return Ok((h.dataLen, IsEncoded(h.flags)));
    }

    /** The window refuses nothing its own pre-check let through, so the arm
        that drops a packet after this commit is never taken. */
    method CommitCounter(c: u64)
      requires window.Valid() && Accepts(window.accepted, c)
      modifies window, window.bitmap
      ensures window.Valid() && window.accepted == old(window.accepted) + {c}
    {
      var committed, _ := window.Commit(c);
      assert committed;
    }

    /** Copy the ciphertext and try the current key; if that fails, copy it
        again, because the failure may have destroyed it, and try the previous
        key. */
    method TryKeys(sid: SessionId, wire: bytes, out: array<byte>) returns (ok: bool)
      requires Lawful(algorithm) && currentPeer.Some?
      requires |wire| >= WIRE_OVERHEAD && |wire| >= WIRE_OVERHEAD + Parse(wire).dataLen && out.Length >= Parse(wire).dataLen
      modifies out
      ensures ok <==> OpenWithEither(algorithm, version, Rx(currentPeer, prevPeer, {}), sid, wire).Some?
      ensures ok ==> out[..Parse(wire).dataLen] == OpenWithEither(algorithm, version, Rx(currentPeer, prevPeer, {}), sid, wire).value
      ensures out[Parse(wire).dataLen..] == old(out[Parse(wire).dataLen..])
    {
      var h := Parse(wire);
      var aad := BuildAad(version, sid, h.counter, h.flags);
      var ciphertext := wire[40..40 + h.dataLen];
      Overwrite(out, 0, ciphertext);
      ok := OpenInPlace(algorithm, currentPeer.value, h.iv, aad, out, 0, h.dataLen, h.tag);
      if !ok && prevPeer.Some? {
        Overwrite(out, 0, ciphertext);
        ok := OpenInPlace(algorithm, prevPeer.value, h.iv, aad, out, 0, h.dataLen, h.tag);
      }
    }
  }
}
