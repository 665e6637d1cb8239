/**
 Bytes on the wire: big-endian fields, the ExpressLane packet layout and the
 associated data that authenticates the header.
 */
module Wire {
  import opened Word64

  type byte = x: int | 0 <= x < 256
  type bytes = seq<byte>
  type u16 = x: int | 0 <= x < 0x1_0000

  type SessionId = s: bytes | |s| == 8 witness [0, 0, 0, 0, 0, 0, 0, 0]
  type Iv = s: bytes | |s| == 12 witness [0, 0, 0, 0, 0, 0, 0, 0, 0, 0, 0, 0]
  type Tag = s: bytes | |s| == 16 witness seq(16, _ => 0)

  datatype Version = Unknown | Version1 | Version2

  const WIRE_OVERHEAD: nat := 40
  const FLAG_ENCODED: u16 := 0x8000

  /** The `w` low-order bytes of `n`, most significant first. */
  function ToBytes(n: nat, w: nat): (s: bytes)
    ensures |s| == w
    decreases w
  {
    if w == 0 then [] else ToBytes(n / 256, w - 1) + [n % 256]
  }

  function FromBytes(s: bytes): nat {
    if s == [] then 0 else FromBytes(s[..|s| - 1]) * 256 + s[|s| - 1]
  }

  function Pow256(w: nat): nat {
    if w == 0 then 1 else 256 * Pow256(w - 1)
  }

  lemma {:induction false} FromToBytes(n: nat, w: nat)
    requires n < Pow256(w)
    ensures FromBytes(ToBytes(n, w)) == n
    decreases w
  {
    if w > 0 {
      FromToBytes(n / 256, w - 1);
      assert ToBytes(n, w)[..w - 1] == ToBytes(n / 256, w - 1);
    }
  }

  lemma {:induction false} FromBytesBound(s: bytes)
    ensures FromBytes(s) < Pow256(|s|)
    decreases |s|
  {
    if s != [] {
      FromBytesBound(s[..|s| - 1]);
    }
  }

  /** The first byte is the most significant. */
  lemma {:induction false} MostSignificantFirst(b: byte, s: bytes)
    ensures FromBytes([b] + s) == b * Pow256(|s|) + FromBytes(s)
    decreases |s|
  {
    var t := [b] + s;
    if s == [] {
      assert t[..0] == [];
    } else {
      var n := |s| - 1;
      assert t[..|s|] == [b] + s[..n] && t[|s|] == s[n];
      MostSignificantFirst(b, s[..n]);
      assert b * Pow256(|s|) == b * Pow256(n) * 256;
    }
  }

  lemma {:induction false} FromBytesInjective(s: bytes, t: bytes)
    requires |s| == |t| && FromBytes(s) == FromBytes(t)
    ensures s == t
    decreases |s|
  {
    if s != [] {
      var n := |s| - 1;
      FromBytesInjective(s[..n], t[..n]);
      assert s == s[..n] + [s[n]] && t == t[..n] + [t[n]];
    }
  }

  lemma OneSpelling(s: bytes)
    ensures ToBytes(FromBytes(s), |s|) == s
  {
    FromBytesBound(s);
    FromToBytes(FromBytes(s), |s|);
    FromBytesInjective(ToBytes(FromBytes(s), |s|), s);
  }

  /** Writing starts with the most significant byte too. */
  lemma WritesMostSignificantFirst(b: byte, n: nat, w: nat)
    requires n < Pow256(w)
    ensures ToBytes(b * Pow256(w) + n, w + 1) == [b] + ToBytes(n, w)
  {
    var s := [b] + ToBytes(n, w);
    FromToBytes(n, w);
    MostSignificantFirst(b, ToBytes(n, w));
    OneSpelling(s);
  }

  lemma FieldWidths()
    ensures Pow256(2) == 0x1_0000 && Pow256(8) == TWO_64
  {
    assert Pow256(4) == 0x1_0000_0000;
  }

  function U64(s: bytes): u64
    requires |s| == 8
  {
    FromBytesBound(s);
    FieldWidths();
    FromBytes(s)
  }

  function U16(s: bytes): u16
    requires |s| == 2
  {
    FromBytesBound(s);
    FieldWidths();
    FromBytes(s)
  }

  lemma FieldRoundTrip(c: u64, f: u16)
    ensures U64(ToBytes(c, 8)) == c
    ensures U16(ToBytes(f, 2)) == f
  {
    FieldWidths();
    FromToBytes(c, 8);
    FromToBytes(f, 2);
  }

  /** Associated data: session id and counter, and from Version2 on the full
      flags field. */
  function BuildAad(version: Version, sid: SessionId, counter: u64, flags: u16): bytes {
    sid + ToBytes(counter, 8) + (if version == Version2 then ToBytes(flags, 2) else [])
  }

  /** Equal associated data means equal session id, counter and binding rule,
      and equal flags where flags are bound. */
  lemma AadInjective(v: Version, s: SessionId, c: u64, f: u16, v': Version, s': SessionId, c': u64, f': u16)
    ensures BuildAad(v, s, c, f) == BuildAad(v', s', c', f')
            <==> s == s' && c == c' && (v == Version2 <==> v' == Version2) && (v == Version2 ==> f == f')
  {
    var a, a' := BuildAad(v, s, c, f), BuildAad(v', s', c', f');
    FieldRoundTrip(c, f);
    FieldRoundTrip(c', f');
    assert a[..8] == s && a'[..8] == s';
    assert a[8..16] == ToBytes(c, 8) && a'[8..16] == ToBytes(c', 8);
    assert v == Version2 ==> a[16..] == ToBytes(f, 2);
    assert v' == Version2 ==> a'[16..] == ToBytes(f', 2);
  }

  /** Where the associated data holds what. */
  lemma AadPositions(version: Version, sid: SessionId, counter: u64, flags: u16)
    ensures var aad := BuildAad(version, sid, counter, flags);
      && |aad| == (if version == Version2 then 18 else 16)
      && aad[0..8] == sid && U64(aad[8..16]) == counter
      && (version == Version2 ==> U16(aad[16..18]) == flags)
  {
    var aad := BuildAad(version, sid, counter, flags);
    FieldRoundTrip(counter, flags);
    assert aad[0..8] == sid && aad[8..16] == ToBytes(counter, 8);
    assert version == Version2 ==> aad[16..18] == ToBytes(flags, 2);
  }

  datatype Header = Header(counter: u64, iv: Iv, tag: Tag, dataLen: u16, flags: u16)

  /** The fixed fields of a packet of at least 40 bytes. */
  function Parse(wire: bytes): Header
    requires |wire| >= WIRE_OVERHEAD
  {
    Header(U64(wire[0..8]), wire[8..20], wire[20..36], U16(wire[36..38]), U16(wire[38..40]))
  }

  function HeaderBytes(h: Header): (s: bytes)
    ensures |s| == WIRE_OVERHEAD
  {
    ToBytes(h.counter, 8) + h.iv + h.tag + ToBytes(h.dataLen, 2) + ToBytes(h.flags, 2)
  }

  lemma HeaderOfParts(s: bytes, h: Header)
    requires |s| >= WIRE_OVERHEAD && s[0..8] == ToBytes(h.counter, 8) && s[8..20] == h.iv && s[20..36] == h.tag
    requires s[36..38] == ToBytes(h.dataLen, 2) && s[38..40] == ToBytes(h.flags, 2)
    ensures s[..WIRE_OVERHEAD] == HeaderBytes(h)
  {
    assert s[..WIRE_OVERHEAD] == s[0..8] + s[8..20] + s[20..36] + s[36..38] + s[38..40];
  }

  /** A packet as it is laid out on the wire. */
  function Layout(h: Header, payload: bytes): (wire: bytes)
    ensures |wire| == WIRE_OVERHEAD + |payload|
  {
    HeaderBytes(h) + payload
  }

  /** Every header and payload is read back from its layout. */
  lemma ParseLayout(h: Header, payload: bytes)
    ensures Parse(Layout(h, payload)) == h
    ensures Layout(h, payload)[WIRE_OVERHEAD..] == payload
  {
    FieldRoundTrip(h.counter, h.flags);
    FieldRoundTrip(h.counter, h.dataLen);
    FieldSlices(ToBytes(h.counter, 8), h.iv, h.tag, ToBytes(h.dataLen, 2), ToBytes(h.flags, 2), payload);
  }

  lemma FieldSlices(a: bytes, b: bytes, c: bytes, d: bytes, e: bytes, rest: bytes)
    requires |a| == 8 && |b| == 12 && |c| == 16 && |d| == 2 && |e| == 2
    ensures var s := a + b + c + d + e + rest;
      s[0..8] == a && s[8..20] == b && s[20..36] == c && s[36..38] == d && s[38..40] == e && s[40..] == rest
  {
  }

  /** The `encoded` bit is the top bit of the flags; the other fifteen do not
      matter. */
  predicate IsEncoded(flags: u16)
    ensures IsEncoded(flags) <==> flags >= FLAG_ENCODED
  {
    EncodedBit(flags);
    And(flags, FLAG_ENCODED) != 0
  }

  lemma FlagWord()
    ensures Shl(1, 15) == FLAG_ENCODED && Ones(15) == 0x7FFF && Ones(16) == 0xFFFF
  {
    ShlOne(15);
    OnesByte(0);
    OnesByte(8);
    assert Ones(16) == 2 * Ones(15) + 1;
  }

  lemma EncodedBit(flags: u16)
    ensures And(flags, FLAG_ENCODED) != 0 <==> flags >= FLAG_ENCODED
  {
    FlagWord();
    TestBit(flags, 15);
    if flags >= FLAG_ENCODED {
      TopBit(15, flags);
    } else {
      HighBit(15, flags, 15);
    }
  }

  function SendFlags(encoded: bool): u16 {
    if encoded then FLAG_ENCODED else 0
  }

  /** The reserved bits are 0 on send, and the receiver reads the flag back. */
  lemma SentFlags(encoded: bool)
    ensures forall i: nat | i < 15 :: !Bit(SendFlags(encoded), i)
    ensures Bit(SendFlags(encoded), 15) == encoded && IsEncoded(SendFlags(encoded)) == encoded
  {
    FlagWord();
    forall i: nat | i < 16 ensures Bit(SendFlags(encoded), i) == (encoded && i == 15) {
      if encoded {
        OneBit(15, i);
      } else {
        ZeroBit(i);
      }
    }
  }
}
