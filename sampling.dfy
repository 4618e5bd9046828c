/**
 * The asset sampler and the receiver's preparation step. The random generator is not
 * modelled: the values it would produce arrive as explicit draws, in the order the
 * generator is consulted.
 */
module Sampling {
  import opened Wrappers
  import opened Bytes
  import opened MantaError
  import opened MantaTypes
  import opened Crypto
  import opened Derivations

  /** What `sample` draws for an asset: `rho` (fill_bytes), then the openings `r` and `s` (`Fr::rand`, serialised). */
  datatype AssetDraws = AssetDraws(rho: Digest, r: Digest, s: Digest)

  /** What `sample` draws for a receiver: `rho`, `r`, `s`, then an ECIES key pair. */
  datatype ReceiverDraws = ReceiverDraws(rho: Digest, r: Digest, s: Digest, ecpk: Digest, ecsk: Digest)

  /** `a` carries the caller's inputs and the draws unchanged. */
  predicate SampledFrom(a: MantaAsset, sk: Digest, assetId: AssetId, value: uint64, draws: AssetDraws)
  {
    && a.assetId == assetId
    && a.privInfo == PrivInfo(value, sk)
    && a.pubInfo.rho == draws.rho
    && a.pubInfo.r == draws.r
    && a.pubInfo.s == draws.s
  }

  /**
   * `MantaAsset::sample`. It succeeds exactly when some asset carrying these inputs
   * satisfies the asset invariant, and then returns that asset; a failing primitive
   * gives an error and never a partially built asset.
   */
  function SampleAsset(
    prims: Primitives, param: CommitParam, sk: Digest, assetId: AssetId, value: uint64, draws: AssetDraws
  ): (res: Result<MantaAsset, Error>)
    ensures res.Ok? ==> SampledFrom(res.value, sk, assetId, value, draws)
    ensures res.Ok? ==> AssetInvariant(prims, param, res.value)
    ensures res.Err? ==> res.error.CryptoFailure?
    ensures res.Err? ==>
      forall a: MantaAsset :: SampledFrom(a, sk, assetId, value, draws) ==> !AssetInvariant(prims, param, a)
    // The error reported is that of the first step that fails, in the order pk, void number, k, utxo.
    ensures var pk := prims.prf(sk, ZeroDigest);
      pk.Err? ==> res == Err(CryptoFailure(pk.error))
    ensures var pk, sn := prims.prf(sk, ZeroDigest), prims.prf(sk, draws.rho);
      pk.Ok? && sn.Err? ==> res == Err(CryptoFailure(sn.error))
    ensures var pk, sn := prims.prf(sk, ZeroDigest), prims.prf(sk, draws.rho);
      pk.Ok? && sn.Ok? ==>
        var k := prims.commit(param, KMessage(pk.value, draws.rho), draws.r);
        k.Err? ==> res == Err(CryptoFailure(k.error))
    ensures var pk, sn := prims.prf(sk, ZeroDigest), prims.prf(sk, draws.rho);
      pk.Ok? && sn.Ok? ==>
        var k := prims.commit(param, KMessage(pk.value, draws.rho), draws.r);
        k.Ok? ==>
          var cm := prims.commit(param, UtxoMessage(assetId, value, k.value), draws.s);
          cm.Err? ==> res == Err(CryptoFailure(cm.error))
  {
    var pk :- Lift(prims.prf(sk, ZeroDigest));
    var sn :- Lift(prims.prf(sk, draws.rho));
    var k :- Lift(prims.commit(param, KMessage(pk, draws.rho), draws.r));
    var cm :- Lift(prims.commit(param, UtxoMessage(assetId, value, k), draws.s));
    Ok(MantaAsset(
      assetId,
      cm,
      sn,
      PubInfo(pk, draws.rho, draws.s, draws.r, k),
      PrivInfo(value, sk)))
  }

  /** `fr` carries the caller's inputs and the draws unchanged, the same asset id in both halves. */
  predicate PreparedFrom(fr: FullReceiver, sk: Digest, assetId: AssetId, draws: ReceiverDraws)
  {
    var sa, sp := fr.shieldedAddress, fr.spendingInfo;
    && sa.assetId == assetId && sp.assetId == assetId
    && sp.sk == sk
    && sp.rho == draws.rho
    && sa.r == draws.r
    && sa.s == draws.s
    && sa.ecpk == draws.ecpk
    && sp.ecsk == draws.ecsk
  }

  /**
   * `MantaAssetFullReceiver::sample`. It succeeds exactly when some receiver carrying
   * these inputs satisfies the receiver invariant, and then returns that receiver.
   */
  function SampleFullReceiver(
    prims: Primitives, param: CommitParam, sk: Digest, assetId: AssetId, draws: ReceiverDraws
  ): (res: Result<FullReceiver, Error>)
    ensures res.Ok? ==> PreparedFrom(res.value, sk, assetId, draws)
    ensures res.Ok? ==> ReceiverInvariant(prims, param, res.value)
    ensures res.Err? ==> res.error.CryptoFailure?
    ensures res.Err? ==>
      forall fr: FullReceiver :: PreparedFrom(fr, sk, assetId, draws) ==> !ReceiverInvariant(prims, param, fr)
    // The error reported is that of the first step that fails, in the order pk, void number, k.
    ensures var pk := prims.prf(sk, ZeroDigest);
      pk.Err? ==> res == Err(CryptoFailure(pk.error))
    ensures var pk, sn := prims.prf(sk, ZeroDigest), prims.prf(sk, draws.rho);
      pk.Ok? && sn.Err? ==> res == Err(CryptoFailure(sn.error))
    ensures var pk, sn := prims.prf(sk, ZeroDigest), prims.prf(sk, draws.rho);
      pk.Ok? && sn.Ok? ==>
        var k := prims.commit(param, KMessage(pk.value, draws.rho), draws.r);
        k.Err? ==> res == Err(CryptoFailure(k.error))
  {
    var pk :- Lift(prims.prf(sk, ZeroDigest));
    var voidNumber :- Lift(prims.prf(sk, draws.rho));
    var k :- Lift(prims.commit(param, KMessage(pk, draws.rho), draws.r));
    Ok(FullReceiver(
      ShieldedAddress(assetId, k, draws.s, draws.r, draws.ecpk),
      SpendingInfo(assetId, pk, sk, draws.rho, voidNumber, draws.ecsk)))
  }

  /** A sampled asset is the only asset carrying its inputs that satisfies the invariant. */
  lemma SampledAssetIsUnique(
    prims: Primitives, param: CommitParam, sk: Digest, assetId: AssetId, value: uint64, draws: AssetDraws,
    a: MantaAsset)
    requires SampledFrom(a, sk, assetId, value, draws) && AssetInvariant(prims, param, a)
    ensures SampleAsset(prims, param, sk, assetId, value, draws) == Ok(a)
  {
  }

  /**
   * The receiver's `s` is drawn and published but enters no commitment: sampling with
   * another `s` gives the same receiver except for that field.
   */
  lemma ReceiverOpeningSIsUnused(
    prims: Primitives, param: CommitParam, sk: Digest, assetId: AssetId, draws: ReceiverDraws, s2: Digest)
    ensures
      var res := SampleFullReceiver(prims, param, sk, assetId, draws);
      var res2 := SampleFullReceiver(prims, param, sk, assetId, draws.(s := s2));
      res.Ok? == res2.Ok? &&
      (res.Ok? ==> res2.value == res.value.(shieldedAddress := res.value.shieldedAddress.(s := s2))) &&
      (res.Err? ==> res2 == res)
  {
  }
}
