/**
 * The commitment and PRF derivations that tie an asset's fields together, written once
 * and shared by the sampler, the sanity checker and the sender's processing step.
 */
module Derivations {
  import opened Wrappers
  import opened Bytes
  import opened MantaTypes
  import opened Crypto

  /** The message committed to by `k`: `pk ‖ rho` (64 bytes). */
  function KMessage(pk: Digest, rho: Digest): (m: seq<uint8>)
    ensures |m| == 64
  {
    pk + rho
  }

  /** The message committed to by an asset's `utxo`: `LE64(asset_id) ‖ LE64(value) ‖ k` (48 bytes). */
  function UtxoMessage(assetId: AssetId, value: uint64, k: Digest): (m: seq<uint8>)
    ensures |m| == 48
  {
    ToLe64(assetId) + ToLe64(value) + k
  }

  /** The message committed to by a processed receiver's `utxo`: `LE64(value) ‖ k` (40 bytes). */
  function ProcessMessage(value: uint64, k: Digest): (m: seq<uint8>)
    ensures |m| == 40
  {
    ToLe64(value) + k
  }

  /**
   * The two `utxo` buffers of the repository differ: the sender's is the sampler's with
   * the leading eight bytes of the asset id removed, so no message is ever both.
   */
  lemma UtxoMessagesDiffer(assetId: AssetId, value: uint64, k: Digest)
    ensures UtxoMessage(assetId, value, k)[8..] == ProcessMessage(value, k)
    ensures UtxoMessage(assetId, value, k) != ProcessMessage(value, k)
  {
  }

  /** The invariant of a validly constructed asset. */
  predicate AssetInvariant(prims: Primitives, param: CommitParam, a: MantaAsset)
  {
    && prims.prf(a.privInfo.sk, ZeroDigest) == Ok(a.pubInfo.pk)
    && prims.prf(a.privInfo.sk, a.pubInfo.rho) == Ok(a.voidNumber)
    && prims.commit(param, KMessage(a.pubInfo.pk, a.pubInfo.rho), a.pubInfo.r) == Ok(a.pubInfo.k)
    && prims.commit(param, UtxoMessage(a.assetId, a.privInfo.value, a.pubInfo.k), a.pubInfo.s) == Ok(a.utxo)
  }

  /** The invariant of a prepared receiver: an asset's invariant without the `utxo`. */
  predicate ReceiverInvariant(prims: Primitives, param: CommitParam, fr: FullReceiver)
  {
    var sp := fr.spendingInfo;
    && prims.prf(sp.sk, ZeroDigest) == Ok(sp.pk)
    && prims.prf(sp.sk, sp.rho) == Ok(sp.voidNumber)
    && prims.commit(param, KMessage(sp.pk, sp.rho), fr.shieldedAddress.r) == Ok(fr.shieldedAddress.k)
  }
}
