/**
 * The sanity checker: recompute the derived fields of an asset or a receiver and
 * compare them with the stored ones, in a fixed order, stopping at the first mismatch.
 */
module Sanity {
  import opened Wrappers
  import opened Bytes
  import opened MantaError
  import opened MantaTypes
  import opened Crypto
  import opened Derivations

  /** One comparison: what a primitive recomputes, against what is stored. */
  datatype Check = Check(recomputed: Result<Digest, CryptoError>, stored: Digest)

  /**
   * The reference semantics of an ordered list of checks: the first failing primitive
   * is an error, the first mismatch is `false`, and `true` needs every check to match.
   */
  function Evaluate(checks: seq<Check>): (r: Result<bool, Error>)
    ensures r == Ok(true) <==> forall i :: 0 <= i < |checks| ==> checks[i].recomputed == Ok(checks[i].stored)
    ensures r.Err? ==> r.error.CryptoFailure?
    ensures r.Err? ==> exists i :: 0 <= i < |checks| && checks[i].recomputed == Err(r.error.cause)
  {
    if checks == [] then Ok(true)
    else
      match checks[0].recomputed
      case Err(e) => Err(CryptoFailure(e))
      case Ok(d) =>
        if d != checks[0].stored then Ok(false)
        else
          var rest := Evaluate(checks[1..]);
          assert forall i :: 1 <= i < |checks| ==> checks[i] == checks[1..][i - 1];
          rest
  }

  /** Checks that all match can be skipped: evaluation goes on from the first one left. */
  lemma {:induction false} EvaluateFrom(checks: seq<Check>, i: nat)
    requires i <= |checks|
    ensures (forall j :: 0 <= j < i ==> checks[j].recomputed == Ok(checks[j].stored)) ==>
      Evaluate(checks) == Evaluate(checks[i..])
  {
    if i > 0 && forall j :: 0 <= j < i ==> checks[j].recomputed == Ok(checks[j].stored) {
      EvaluateFrom(checks[1..], i - 1);
      assert checks[1..][i - 1..] == checks[i..];
      assert forall j :: 0 <= j < i - 1 ==> checks[1..][j] == checks[j + 1];
    }
  }

  /**
   * Evaluation stops at the first check that does not match: when every earlier check
   * matches, a failing primitive at check `i` is the result's error, a mismatch at `i`
   * gives `false`, and a match at `i` hands over to the checks after it.
   */
  lemma EvaluateStopsAt(checks: seq<Check>, i: nat)
    requires i < |checks|
    requires forall j :: 0 <= j < i ==> checks[j].recomputed == Ok(checks[j].stored)
    ensures checks[i].recomputed.Err? ==> Evaluate(checks) == Err(CryptoFailure(checks[i].recomputed.error))
    ensures checks[i].recomputed.Ok? && checks[i].recomputed.value != checks[i].stored ==>
      Evaluate(checks) == Ok(false)
    ensures checks[i].recomputed == Ok(checks[i].stored) ==> Evaluate(checks) == Evaluate(checks[i + 1..])
  {
    EvaluateFrom(checks, i);
  }

  /** The four checks of an asset, in the order the checker runs them. */
  function AssetChecks(prims: Primitives, param: CommitParam, a: MantaAsset): seq<Check>
  {
    var sk := a.privInfo.sk;
    [ Check(prims.prf(sk, ZeroDigest), a.pubInfo.pk),
      Check(prims.prf(sk, a.pubInfo.rho), a.voidNumber),
      Check(prims.commit(param, KMessage(a.pubInfo.pk, a.pubInfo.rho), a.pubInfo.r), a.pubInfo.k),
      Check(prims.commit(param, UtxoMessage(a.assetId, a.privInfo.value, a.pubInfo.k), a.pubInfo.s), a.utxo) ]
  }

  /** The three checks of a receiver, in the order the checker runs them. */
  function ReceiverChecks(prims: Primitives, param: CommitParam, fr: FullReceiver): seq<Check>
  {
    var sp := fr.spendingInfo;
    [ Check(prims.prf(sp.sk, ZeroDigest), sp.pk),
      Check(prims.prf(sp.sk, sp.rho), sp.voidNumber),
      Check(prims.commit(param, KMessage(sp.pk, sp.rho), fr.shieldedAddress.r), fr.shieldedAddress.k) ]
  }

  /**
   * `MantaAsset::sanity`: `Ok(true)` exactly when the asset invariant holds; the checks
   * run in the order pk, void number, k, utxo.
   */
  function AssetSanity(prims: Primitives, param: CommitParam, a: MantaAsset): (r: Result<bool, Error>)
    ensures r == Evaluate(AssetChecks(prims, param, a))
    ensures r == Ok(true) <==> AssetInvariant(prims, param, a)
    ensures r.Err? ==> r.error.CryptoFailure?
  {
    var checks := AssetChecks(prims, param, a);
    EvaluateFrom(checks, 1);
    EvaluateFrom(checks, 2);
    EvaluateFrom(checks, 3);
    var sk := a.privInfo.sk;
    var pk :- Lift(prims.prf(sk, ZeroDigest));
    if a.pubInfo.pk != pk then Ok(false)
    else
      var sn :- Lift(prims.prf(sk, a.pubInfo.rho));
      if a.voidNumber != sn then Ok(false)
      else
        var k :- Lift(prims.commit(param, KMessage(a.pubInfo.pk, a.pubInfo.rho), a.pubInfo.r));
        if a.pubInfo.k != k then Ok(false)
        else
          var cm :- Lift(prims.commit(param, UtxoMessage(a.assetId, a.privInfo.value, a.pubInfo.k), a.pubInfo.s));
          if a.utxo != cm then Ok(false) else Ok(true)
  }

  /**
   * `MantaAssetFullReceiver::sanity`: `Ok(true)` exactly when the receiver invariant
   * holds; the checks run in the order pk, void number, k.
   */
  function ReceiverSanity(prims: Primitives, param: CommitParam, fr: FullReceiver): (r: Result<bool, Error>)
    ensures r == Evaluate(ReceiverChecks(prims, param, fr))
    ensures r == Ok(true) <==> ReceiverInvariant(prims, param, fr)
    ensures r.Err? ==> r.error.CryptoFailure?
  {
    var checks := ReceiverChecks(prims, param, fr);
    EvaluateFrom(checks, 1);
    EvaluateFrom(checks, 2);
    var sp := fr.spendingInfo;
    var pk :- Lift(prims.prf(sp.sk, ZeroDigest));
    if sp.pk != pk then Ok(false)
    else
      var voidNumber :- Lift(prims.prf(sp.sk, sp.rho));
      if sp.voidNumber != voidNumber then Ok(false)
      else
        var k :- Lift(prims.commit(param, KMessage(sp.pk, sp.rho), fr.shieldedAddress.r));
        if fr.shieldedAddress.k != k then Ok(false) else Ok(true)
  }

  /** The stored digests the checker compares against a recomputation. */
  datatype StoredDigest = Pk | VoidNumber | K | Utxo

  function StoredValue(a: MantaAsset, f: StoredDigest): Digest
  {
    match f
    case Pk => a.pubInfo.pk
    case VoidNumber => a.voidNumber
    case K => a.pubInfo.k
    case Utxo => a.utxo
  }

  function WithStored(a: MantaAsset, f: StoredDigest, d: Digest): MantaAsset
  {
    match f
    case Pk => a.(pubInfo := a.pubInfo.(pk := d))
    case VoidNumber => a.(voidNumber := d)
    case K => a.(pubInfo := a.pubInfo.(k := d))
    case Utxo => a.(utxo := d)
  }

  /** Replacing one stored digest of a sane asset by another value makes the check fail (not error). */
  lemma ChangedDigestFailsSanity(prims: Primitives, param: CommitParam, a: MantaAsset, f: StoredDigest, d: Digest)
    requires AssetSanity(prims, param, a) == Ok(true)
    requires d != StoredValue(a, f)
    ensures AssetSanity(prims, param, WithStored(a, f, d)) == Ok(false)
  {
  }

  /**
   * The receiver check reads only the spending info's pk, sk, rho and void number and the
   * address's k and r: the address's s and ECIES key, the ECIES secret and both asset
   * ids do not affect it.
   */
  lemma ReceiverSanityReadsOnly(prims: Primitives, param: CommitParam, fr: FullReceiver, fr2: FullReceiver)
    requires fr2.spendingInfo.pk == fr.spendingInfo.pk && fr2.spendingInfo.sk == fr.spendingInfo.sk
    requires fr2.spendingInfo.rho == fr.spendingInfo.rho
    requires fr2.spendingInfo.voidNumber == fr.spendingInfo.voidNumber
    requires fr2.shieldedAddress.k == fr.shieldedAddress.k && fr2.shieldedAddress.r == fr.shieldedAddress.r
    ensures ReceiverSanity(prims, param, fr2) == ReceiverSanity(prims, param, fr)
  {
  }
}
