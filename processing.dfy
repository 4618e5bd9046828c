/**
 * The sender's step: from a receiver's shielded address and a value, build the UTXO
 * commitment and an encrypted copy of the value.
 */
module Processing {
  import opened Wrappers
  import opened Bytes
  import opened MantaError
  import opened MantaTypes
  import opened Crypto
  import opened Derivations

  /**
   * `MantaAssetShieldedAddress::process`. `param` is the loaded commitment parameter and
   * `ephemeral` is what the encryption draws from the generator. The commitment opens
   * with the address's `s` over `LE64(value) ‖ k`, without the asset id.
   */
  function Process(
    prims: Primitives, param: CommitParam, sa: ShieldedAddress, value: uint64, ephemeral: Digest
  ): (res: Result<ProcessedReceiver, Error>)
    ensures res.Ok? <==> prims.commit(param, ProcessMessage(value, sa.k), sa.s).Ok?
    ensures res.Err? ==> res.error == CryptoFailure(prims.commit(param, ProcessMessage(value, sa.k), sa.s).error)
    ensures res.Ok? ==> prims.commit(param, ProcessMessage(value, sa.k), sa.s) == Ok(res.value.utxo)
    ensures res.Ok? ==> res.value.value == value && res.value.preparedData == sa
    ensures res.Ok? ==> res.value.ciphertext + res.value.senderPk == prims.encrypt(sa.ecpk, value, ephemeral)
  {
    var commitment :- Lift(prims.commit(param, ProcessMessage(value, sa.k), sa.s));
    var cipher := prims.encrypt(sa.ecpk, value, ephemeral);
    var ciphertext: Bytes16 := cipher[0..16];
    var senderPk: Digest := cipher[16..48];
    Ok(ProcessedReceiver(commitment, value, senderPk, ciphertext, sa))
  }
}
