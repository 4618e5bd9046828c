/**
 * How the parts fit together: what the repository's round-trip tests rely on, and the
 * receiver's two-phase protocol from preparation to a processed payment.
 */
module Flows {
  import opened Wrappers
  import opened Bytes
  import opened MantaError
  import opened MantaTypes
  import opened Crypto
  import opened Derivations
  import opened Sampling
  import opened Processing
  import opened Sanity
  import opened ByteIo
  import opened SerDes

  /** A freshly sampled asset passes the sanity check and survives encoding and decoding. */
  lemma SampledAssetRoundTrips(
    prims: Primitives, param: CommitParam, sk: Digest, assetId: AssetId, value: uint64, draws: AssetDraws,
    rest: seq<uint8>)
    requires SampleAsset(prims, param, sk, assetId, value, draws).Ok?
    ensures var a := SampleAsset(prims, param, sk, assetId, value, draws).value;
      && AssetSanity(prims, param, a) == Ok(true)
      && DecodeAsset(prims, param, EncodeAsset(a) + rest) == Ok(a)
  {
    var a := SampleAsset(prims, param, sk, assetId, value, draws).value;
    DecodeEncodeAsset(prims, param, a, rest);
  }

  /** A freshly prepared receiver passes its check and survives encoding and decoding. */
  lemma SampledReceiverRoundTrips(
    prims: Primitives, param: CommitParam, sk: Digest, assetId: AssetId, draws: ReceiverDraws, rest: seq<uint8>)
    requires SampleFullReceiver(prims, param, sk, assetId, draws).Ok?
    ensures var fr := SampleFullReceiver(prims, param, sk, assetId, draws).value;
      && ReceiverSanity(prims, param, fr) == Ok(true)
      && DecodeFullReceiver(prims, param, EncodeFullReceiver(fr) + rest) == Ok(fr)
  {
    var fr := SampleFullReceiver(prims, param, sk, assetId, draws).value;
    DecodeEncodeFullReceiver(prims, param, fr, rest);
  }

  /** The asset round-trip test: sample, serialise into a buffer, deserialise, get the same asset. */
  method AssetSerdesRoundTrip(
    prims: Primitives, param: CommitParam, sk: Digest, assetId: AssetId, value: uint64, draws: AssetDraws)
    returns (recovered: Result<MantaAsset, Error>)
    requires SampleAsset(prims, param, sk, assetId, value, draws).Ok?
    ensures recovered == SampleAsset(prims, param, sk, assetId, value, draws)
  {
    var asset := SampleAsset(prims, param, sk, assetId, value, draws).value;
    var buf := new ByteWriter();
    SerializeAsset(asset, buf);
    recovered := DeserializeAsset(prims, param, buf.buf);
    SampledAssetRoundTrips(prims, param, sk, assetId, value, draws, []);
    assert buf.buf == EncodeAsset(asset) + [];
  }

  /** The receiver round-trip test: prepare, serialise, deserialise, get the same receiver. */
  method ReceiverSerdesRoundTrip(
    prims: Primitives, param: CommitParam, sk: Digest, assetId: AssetId, draws: ReceiverDraws)
    returns (recovered: Result<FullReceiver, Error>)
    requires SampleFullReceiver(prims, param, sk, assetId, draws).Ok?
    ensures recovered == SampleFullReceiver(prims, param, sk, assetId, draws)
  {
    var receiver := SampleFullReceiver(prims, param, sk, assetId, draws).value;
    var buf := new ByteWriter();
    SerializeFullReceiver(receiver, buf);
    recovered := DeserializeFullReceiver(prims, param, buf.buf);
    SampledReceiverRoundTrips(prims, param, sk, assetId, draws, []);
    assert buf.buf == EncodeFullReceiver(receiver) + [];
  }

  /**
   * Phase 1 then phase 2: the processed receiver carries the published address, and its
   * `utxo` is what the receiver recomputes from the value and the `k`, `s` it holds,
   * where `k` is bound to its own `pk` and `rho`.
   */
  lemma ReceiverRecomputesUtxo(
    prims: Primitives, param: CommitParam, sk: Digest, assetId: AssetId, draws: ReceiverDraws,
    value: uint64, ephemeral: Digest)
    requires SampleFullReceiver(prims, param, sk, assetId, draws).Ok?
    requires Process(prims, param, SampleFullReceiver(prims, param, sk, assetId, draws).value.shieldedAddress,
      value, ephemeral).Ok?
    ensures var fr := SampleFullReceiver(prims, param, sk, assetId, draws).value;
      var p := Process(prims, param, fr.shieldedAddress, value, ephemeral).value;
      && p.preparedData == fr.shieldedAddress
      && p.value == value
      && prims.commit(param, KMessage(fr.spendingInfo.pk, fr.spendingInfo.rho), p.preparedData.r) == Ok(p.preparedData.k)
      && prims.commit(param, ProcessMessage(value, p.preparedData.k), draws.s) == Ok(p.utxo)
  {
  }
}
