/**
 The cipher as a deterministic AEAD, sections 2.1 and 2.2 of RFC 5116, and the
 in-place calls the session makes on it.
 */
module Aead {
  import opened Wire

  datatype Option<+T> = None | Some(value: T)

  const KEY_SIZE: nat := 32

  type Key = k: bytes | |k| == KEY_SIZE witness seq(32, _ => 0)

  /** The all-zero key is the "not set" sentinel. */
  predicate IsInvalid(k: Key) {
    forall i | 0 <= i < |k| :: k[i] == 0
  }

  /** Exactly one key is refused. */
  lemma OnlyZeroKeyIsInvalid(k: Key)
    ensures IsInvalid(k) <==> k == seq(32, _ => 0)
  {
  }

  datatype Sealed = Sealed(payload: bytes, tag: Tag)

  /** `maxPlain` is the longest plaintext the cipher agrees to seal. */
  datatype Algorithm = Algorithm(
    seal: (Key, Iv, bytes, bytes) -> Sealed,
    open: (Key, Iv, bytes, Sealed) -> Option<bytes>,
    maxPlain: nat)

  /** Sealing keeps the length, and opening succeeds exactly on what sealing
      under the same key, nonce and associated data produces. */
  ghost predicate Lawful(a: Algorithm) {
    && (forall k: Key, n: Iv, ad: bytes, p: bytes ::
          |a.seal(k, n, ad, p).payload| == |p| && a.open(k, n, ad, a.seal(k, n, ad, p)) == Some(p))
    && (forall k: Key, n: Iv, ad: bytes, s: Sealed ::
          a.open(k, n, ad, s).Some? ==> a.seal(k, n, ad, a.open(k, n, ad, s).value) == s)
  }

  /** No sealed message opens to two different plaintexts under two keys. */
  ghost predicate Unambiguous(a: Algorithm) {
    forall k: Key, k': Key, n: Iv, ad: bytes, s: Sealed | a.open(k, n, ad, s).Some? && a.open(k', n, ad, s).Some? ::
      a.open(k, n, ad, s) == a.open(k', n, ad, s)
  }

  /** The laws can be met: here by sending the payload in clear with a tag cut
      from the key. */
  lemma LawfulAlgorithmExists()
    ensures exists a :: Lawful(a) && Unambiguous(a)
  {
    var a := Algorithm(
      (k: Key, n: Iv, ad: bytes, p: bytes) => Sealed(p, k[..16]),
      (k: Key, n: Iv, ad: bytes, s: Sealed) => if s.tag == k[..16] then Some(s.payload) else None,
      0xFFFF);
    assert Lawful(a) && Unambiguous(a);
  }

  function Shift(p: bytes, d: byte): bytes {
    seq(|p|, i requires 0 <= i < |p| => (p[i] + d) % 256)
  }

  function Unshift(p: bytes, d: byte): bytes {
    seq(|p|, i requires 0 <= i < |p| => (p[i] + (256 - d)) % 256)
  }

  const PLAIN_TAG: Tag := seq(16, _ => 0)

  /** A cipher whose tag does not commit to the key: every byte is shifted by
      the first byte of the key, and every key opens everything. */
  function Shifting(): Algorithm {
    Algorithm(
      (k: Key, n: Iv, ad: bytes, p: bytes) => Sealed(Shift(p, k[0]), PLAIN_TAG),
      (k: Key, n: Iv, ad: bytes, s: Sealed) => if s.tag == PLAIN_TAG then Some(Unshift(s.payload, k[0])) else None,
      0xFFFF)
  }

  lemma ByteBack(b: byte, d: byte)
    ensures ((b + d) % 256 + (256 - d)) % 256 == b && ((b + (256 - d)) % 256 + d) % 256 == b
  {
  }

  lemma ShiftBack(p: bytes, d: byte)
    ensures Unshift(Shift(p, d), d) == p
    ensures Shift(Unshift(p, d), d) == p
  {
    forall i | 0 <= i < |p| ensures Unshift(Shift(p, d), d)[i] == p[i] && Shift(Unshift(p, d), d)[i] == p[i] {
      ByteBack(p[i], d);
    }
  }

  /** Another first byte opens every nonempty message to something else. */
  lemma ShiftedApart(k: Key, k': Key, n: Iv, ad: bytes, p: bytes)
    requires p != [] && k[0] != k'[0]
    ensures var q := Shifting().open(k', n, ad, Shifting().seal(k, n, ad, p));
      q.Some? && |q.value| == |p| && q.value[0] != p[0]
  {
  }

  lemma ShiftingIsLawful()
    ensures Lawful(Shifting())
  {
    var a := Shifting();
    forall k: Key, n: Iv, ad: bytes, p: bytes ensures |a.seal(k, n, ad, p).payload| == |p| && a.open(k, n, ad, a.seal(k, n, ad, p)) == Some(p) {
      ShiftBack(p, k[0]);
    }
    forall k: Key, n: Iv, ad: bytes, s: Sealed | a.open(k, n, ad, s).Some? ensures a.seal(k, n, ad, a.open(k, n, ad, s).value) == s {
      ShiftBack(s.payload, k[0]);
    }
  }

  /** Encrypt `buf[from..to]` in place and return the detached tag. A plaintext
      beyond the cipher's limit is refused, and then nothing is promised about
      the bytes of that range. */
  method SealInPlace(a: Algorithm, k: Key, n: Iv, ad: bytes, buf: array<byte>, from: nat, to: nat) returns (tag: Option<Tag>)
    requires Lawful(a) && from <= to <= buf.Length
    modifies buf
    ensures tag.Some? <==> to - from <= a.maxPlain
    ensures tag.Some? ==> Sealed(buf[from..to], tag.value) == a.seal(k, n, ad, old(buf[from..to]))
    ensures forall i | 0 <= i < from || to <= i < buf.Length :: buf[i] == old(buf[i])
  {
    if to - from > a.maxPlain {
      Scramble(buf, from, to);
      return None;
    }
    var sealed := a.seal(k, n, ad, buf[from..to]);
    Overwrite(buf, from, sealed.payload);
    return Some(sealed.tag);
  }

  /** Verify and decrypt `buf[from..to]` in place. When this fails, nothing is
      promised about the bytes of that range. */
  method OpenInPlace(a: Algorithm, k: Key, n: Iv, ad: bytes, buf: array<byte>, from: nat, to: nat, tag: Tag) returns (ok: bool)
    requires Lawful(a) && from <= to <= buf.Length
    modifies buf
    ensures ok <==> a.open(k, n, ad, Sealed(old(buf[from..to]), tag)).Some?
    ensures ok ==> buf[from..to] == a.open(k, n, ad, Sealed(old(buf[from..to]), tag)).value
    ensures forall i | 0 <= i < from || to <= i < buf.Length :: buf[i] == old(buf[i])
  {
    var plain := a.open(k, n, ad, Sealed(buf[from..to], tag));
    ok := plain.Some?;
    if ok {
      Overwrite(buf, from, plain.value);
    } else {
      Scramble(buf, from, to);
    }
  }

  /** Any bytes at all in `buf[from..to]`. */
  method Scramble(buf: array<byte>, from: nat, to: nat)
    requires from <= to <= buf.Length
    modifies buf
    ensures forall i | 0 <= i < from || to <= i < buf.Length :: buf[i] == old(buf[i])
  {
    for i := from to to
      invariant forall j | 0 <= j < from || to <= j < buf.Length :: buf[j] == old(buf[j])
    {
      buf[i] := *;
    }
  }

  /** `buf[at..at + |s|].copy_from_slice(s)` */
  method Overwrite(buf: array<byte>, at: nat, s: bytes)
    requires at + |s| <= buf.Length
    modifies buf
    ensures forall i | 0 <= i < buf.Length :: buf[i] == if at <= i < at + |s| then s[i - at] else old(buf[i])
    ensures buf[at..at + |s|] == s
  {
    for i := 0 to |s|
      invariant forall j | 0 <= j < buf.Length :: buf[j] == if at <= j < at + i then s[j - at] else old(buf[j])
    {
      buf[at + i] := s[i];
    }
  }

  /** A slice outside the written range `from..to` is kept. */
  lemma SliceKept(before: bytes, after: bytes, from: nat, to: nat, i: nat, j: nat)
    requires |before| == |after| && forall k | 0 <= k < |before| && !(from <= k < to) :: after[k] == before[k]
    requires i <= j <= |before| && (j <= from || to <= i)
    ensures after[i..j] == before[i..j]
  {
  }
}
