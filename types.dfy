/**
 * The entities of the confidential-asset protocol. Every field has the fixed width of
 * the corresponding Rust array (`Digest` is 32 bytes, `Bytes16` is 16 bytes) or is a
 * `u64`; equality is structural over all fields, as with the derived `PartialEq`.
 */
module MantaTypes {
  import opened Bytes

  /** `AssetId` is a plain `u64`. */
  type AssetId = uint64

  /** The identifier used for testing; also the default. */
  const TestAsset: AssetId := 0

  /** Information of a UTXO asset that may be revealed. */
  datatype PubInfo = PubInfo(pk: Digest, rho: Digest, s: Digest, r: Digest, k: Digest)

  /** Information of a UTXO asset that stays secret until it is spent. */
  datatype PrivInfo = PrivInfo(value: uint64, sk: Digest)

  /** A UTXO asset: its commitment `utxo`, its nullifier `voidNumber` and their openings. */
  datatype MantaAsset = MantaAsset(
    assetId: AssetId,
    utxo: Digest,
    voidNumber: Digest,
    pubInfo: PubInfo,
    privInfo: PrivInfo)

  /** What a sender needs to build a UTXO for a receiver; holds no secret. */
  datatype ShieldedAddress = ShieldedAddress(assetId: AssetId, k: Digest, s: Digest, r: Digest, ecpk: Digest)

  /** What a receiver keeps in order to spend a UTXO built for it. */
  datatype SpendingInfo = SpendingInfo(
    assetId: AssetId,
    pk: Digest,
    sk: Digest,
    rho: Digest,
    voidNumber: Digest,
    ecsk: Digest)

  /** A prepared receiver: exactly the pair of its two halves. */
  datatype FullReceiver = FullReceiver(shieldedAddress: ShieldedAddress, spendingInfo: SpendingInfo)

  /** What a sender builds from a shielded address and a value. */
  datatype ProcessedReceiver = ProcessedReceiver(
    utxo: Digest,
    value: uint64,
    senderPk: Digest,
    ciphertext: Bytes16,
    preparedData: ShieldedAddress)

  // The derived `Default` of every struct: all bytes zero, all integers zero.

  const DefaultPubInfo := PubInfo(ZeroDigest, ZeroDigest, ZeroDigest, ZeroDigest, ZeroDigest)
  const DefaultPrivInfo := PrivInfo(0, ZeroDigest)
  const DefaultAsset := MantaAsset(TestAsset, ZeroDigest, ZeroDigest, DefaultPubInfo, DefaultPrivInfo)
  const DefaultShieldedAddress := ShieldedAddress(TestAsset, ZeroDigest, ZeroDigest, ZeroDigest, ZeroDigest)
  const DefaultSpendingInfo := SpendingInfo(TestAsset, ZeroDigest, ZeroDigest, ZeroDigest, ZeroDigest, ZeroDigest)
  const DefaultFullReceiver := FullReceiver(DefaultShieldedAddress, DefaultSpendingInfo)
  const DefaultProcessedReceiver := ProcessedReceiver(ZeroDigest, 0, ZeroDigest, Zeros(16), DefaultShieldedAddress)
}
