/**
 * Bytes, fixed-size byte strings and the little-endian encoding of unsigned
 * integers used by `to_le_bytes` / `from_le_bytes`.
 */
module Bytes {

  type uint8 = x: int | 0 <= x < 0x100
  type uint64 = x: int | 0 <= x < 0x1_0000_0000_0000_0000

  /** A `[u8; 32]`: every digest, key, opening and commitment of the core. */
  type Digest = s: seq<uint8> | |s| == 32 witness Zeros(32)

  /** A `[u8; 16]`: the ECIES ciphertext. */
  type Bytes16 = s: seq<uint8> | |s| == 16 witness Zeros(16)

  /** A `[u8; 48]`: the full ECIES output (ciphertext followed by the ephemeral key). */
  type Bytes48 = s: seq<uint8> | |s| == 48 witness Zeros(48)

  function Zeros(n: nat): (z: seq<uint8>)
    ensures |z| == n
    ensures forall i :: 0 <= i < n ==> z[i] == 0
  {
    seq(n, _ => 0)
  }

  /** The all-zero digest `[0u8; 32]`, the PRF input that yields a public key. */
  const ZeroDigest: Digest := Zeros(32)

  function Pow256(n: nat): (p: nat)
    ensures p >= 1
  {
    if n == 0 then 1 else 256 * Pow256(n - 1)
  }

  lemma Pow256Of8()
    ensures Pow256(8) == 0x1_0000_0000_0000_0000
  {
  }

  /** The `n` low-order bytes of `v`, least significant first. */
  function LeBytes(v: nat, n: nat): (b: seq<uint8>)
    ensures |b| == n
  {
    if n == 0 then [] else [v % 256] + LeBytes(v / 256, n - 1)
  }

  /** The unsigned integer whose little-endian bytes are `b`. */
  function FromLe(b: seq<uint8>): (v: nat)
    ensures v < Pow256(|b|)
  {
    if b == [] then 0 else b[0] + 256 * FromLe(b[1..])
  }

  /** Decoding the `n` low-order bytes of a value that fits in `n` bytes gives the value back. */
  lemma {:induction false} FromLeOfLeBytes(v: nat, n: nat)
    requires v < Pow256(n)
    ensures FromLe(LeBytes(v, n)) == v
  {
    if n > 0 {
      var b := LeBytes(v, n);
      assert b[1..] == LeBytes(v / 256, n - 1);
      FromLeOfLeBytes(v / 256, n - 1);
    }
  }

  /** Every byte string is the little-endian encoding of its own value. */
  lemma {:induction false} LeBytesOfFromLe(b: seq<uint8>)
    ensures LeBytes(FromLe(b), |b|) == b
  {
    if b != [] {
      var v := FromLe(b);
      assert v % 256 == b[0] && v / 256 == FromLe(b[1..]);
      LeBytesOfFromLe(b[1..]);
    }
  }

  /** `u64::to_le_bytes`. */
  function ToLe64(v: uint64): (b: seq<uint8>)
    ensures |b| == 8
  {
    LeBytes(v, 8)
  }

  /** `u64::from_le_bytes`. */
  function FromLe64(b: seq<uint8>): (v: uint64)
    requires |b| == 8
  {
    Pow256Of8();
    FromLe(b)
  }

  /** `from_le_bytes(to_le_bytes(v)) == v`. */
  lemma FromLe64OfToLe64(v: uint64)
    ensures FromLe64(ToLe64(v)) == v
  {
    Pow256Of8();
    FromLeOfLeBytes(v, 8);
  }

  /** `to_le_bytes(from_le_bytes(b)) == b`: the 8-byte encoding is a bijection. */
  lemma ToLe64OfFromLe64(b: seq<uint8>)
    requires |b| == 8
    ensures ToLe64(FromLe64(b)) == b
  {
    LeBytesOfFromLe(b);
  }

  /** Zero encodes as `n` zero bytes, for every `n`. */
  lemma {:induction false} LeBytesOfZero(n: nat)
    ensures LeBytes(0, n) == Zeros(n)
  {
    if n > 0 {
      LeBytesOfZero(n - 1);
      assert Zeros(n) == [0] + Zeros(n - 1);
    }
  }
}
