# Manta confidential assets: a Dafny model

This project models the confidential-asset core of the `manta-types` repository. It covers how a coin
(a `MantaAsset`) is sampled from a secret key, an asset id, a value and random draws. It covers how a
receiver prepares a shielded address and how a sender turns that address into a
`MantaAssetProcessedReceiver`. It covers how the sanity checker re-derives an asset's digests, how every
entity is laid out in bytes, and how the 256-shard commitment ledger records commitments.

The cryptographic primitives (the Blake2s PRF, the Pedersen commitment, ECIES encryption and the Merkle
root) are arbitrary total functions in a `Crypto.Primitives` record that the caller passes in. The PRF, the
commitment and the Merkle root may each fail with an opaque `CryptoError`. Encryption cannot fail, since
`process` uses its output without an error check. Every property below holds for any choice of primitives. It relies on what the code does, not on the primitives being secure.

Modules follow the source files:

| module | models |
|---|---|
| `Bytes` | `u8`, `u64`, `[u8; 32]` and `to_le_bytes` / `from_le_bytes` |
| `MantaError` | the error kinds: short read, sanity failure, primitive failure |
| `Crypto` | the primitive interfaces and their parameters |
| `MantaTypes` | `manta-asset/src/lib.rs`, `asset_id.rs`: the seven entities and their defaults |
| `Derivations` | the committed messages and the invariants that `sampling.rs` establishes and `sanity.rs` checks |
| `Sampling` | `manta-asset/src/sampling.rs` |
| `Processing` | `manta-asset/src/processing.rs` |
| `Sanity` | `manta-asset/src/sanity.rs` |
| `ByteIo` | the `Write` buffer and the `Read` source of the codec, as a growable buffer and a byte slice (the sink and source the callers use) |
| `SerDes` | `manta-asset/src/serdes.rs` |
| `Ledger` | `manta-ledger/src/lib.rs` |
| `Flows` | the round trips that `manta-asset/src/test.rs` relies on, and the receiver's two-phase protocol |

Random draws are explicit inputs, in the order the generator is consulted:

- `rho`, then the openings `r` and `s`, each as its 32-byte encoding;
- for a receiver, also the ECIES key pair;
- for `process`, the ephemeral randomness of the encryption.

The commitment parameter is an explicit input wherever the code uses one. This includes the places that
load the embedded `COMMIT_PARAM`: `process` and the two gated deserialisers.

Some facts follow from the code's layouts:

- The asset's `utxo` message `LE64(asset_id) ‖ LE64(value) ‖ k` is 48 bytes.
- `SpendingInfo` encodes to 168 bytes, so a `FullReceiver` encodes to 304 bytes.
- The sender's `utxo` message `LE64(value) ‖ k` (40 bytes) omits the asset id that the sampler's message
  includes. Both paths are kept as written. `Derivations.UtxoMessagesDiffer` states how the two
  messages relate.

## Model

| member | source | states |
|---|---|---|
| `Bytes.ToLe64` | manta-asset/src/serdes.rs:26 | `u64::to_le_bytes`: always 8 bytes; with `FromLe64OfToLe64` and `ToLe64OfFromLe64` it is the inverse of `FromLe64` |
| `Bytes.FromLe64` | manta-asset/src/serdes.rs:39 | `u64::from_le_bytes` on exactly 8 bytes: a value below 2^64, the inverse of `ToLe64` |
| `MantaError.Lift` | manta-asset/src/sampling.rs:80-112 | the `?` conversion of a primitive's failure: success keeps its value, a failure becomes `CryptoFailure` with the same cause |
| `Bytes.FromLeOfLeBytes` | manta-asset/src/serdes.rs:26 | decoding the n low little-endian bytes of a value below 256^n gives the value back |
| `Bytes.LeBytesOfFromLe` | manta-asset/src/serdes.rs:39 | every byte string is the little-endian encoding of its own value |
| `Bytes.FromLe64OfToLe64` | manta-asset/src/serdes.rs:26 | `u64::from_le_bytes(v.to_le_bytes()) == v` for every u64 |
| `Bytes.ToLe64OfFromLe64` | manta-asset/src/serdes.rs:39 | `to_le_bytes(from_le_bytes(b)) == b` for every 8 bytes, so the u64 layout is a bijection |
| `Bytes.LeBytesOfZero` | manta-asset/src/lib.rs:72 | the default value 0 encodes as zero bytes |
| `Derivations.UtxoMessagesDiffer` | manta-asset/src/processing.rs:51 | the sender's utxo message is the sampler's without the leading 8 asset-id bytes, so the two are never equal |
| `Derivations.KMessage` | manta-asset/src/sampling.rs:86-95 | the message committed by `k` is `pk ‖ rho`, 64 bytes; the checker rebuilds the same buffer (manta-asset/src/sanity.rs:46) |
| `Derivations.UtxoMessage` | manta-asset/src/sampling.rs:98-103 | the message committed by an asset's `utxo` is `LE64(asset_id) ‖ LE64(value) ‖ k`, 48 bytes; the checker uses the same buffer (manta-asset/src/sanity.rs:52-57) |
| `Derivations.ProcessMessage` | manta-asset/src/processing.rs:51 | the sender's utxo message is `LE64(value) ‖ k`, 40 bytes |
| `Derivations.AssetInvariant` | manta-asset/src/sanity.rs:34-63 | the four equations a valid asset satisfies: pk = PRF(sk, 0^32), void_number = PRF(sk, rho), k = Commit(pk‖rho; r), utxo = Commit(LE64(asset_id)‖LE64(value)‖k; s) |
| `Derivations.ReceiverInvariant` | manta-asset/src/sanity.rs:69-92 | the three equations a prepared receiver satisfies: the spending pk and void_number come from sk and rho, and the address's k = Commit(pk‖rho; r) |
| `Sampling.SampledFrom` | manta-asset/src/sampling.rs:114-129 | how the sampled asset is assembled from its inputs: asset_id, value and sk as given, rho, r and s as drawn |
| `Sampling.PreparedFrom` | manta-asset/src/sampling.rs:180-195 | how the prepared receiver is assembled: the same asset_id in both halves, sk as given, rho, r, s and the ECIES key pair as drawn |
| `Sampling.SampleAsset` | manta-asset/src/sampling.rs:68-130 | on success it copies asset_id, value, sk and the draws unchanged and satisfies pk = PRF(sk, 0^32), void_number = PRF(sk, rho), k = Commit(pk‖rho; r), utxo = Commit(LE64(asset_id)‖LE64(value)‖k; s); it fails only when no asset with these inputs satisfies those equations, and then with the error of the first failing step in the order pk, void_number, k, utxo |
| `Sampling.SampleFullReceiver` | manta-asset/src/sampling.rs:144-197 | on success the same asset_id is in both halves, sk, rho, r, s and the key pair are copied, and pk, void_number and k = Commit(pk‖rho; r) hold; it fails only when no such receiver exists, and then with the error of the first failing step in the order pk, void_number, k |
| `Sampling.SampledAssetIsUnique` | manta-asset/src/sampling.rs:114-129 | any asset that carries the inputs and satisfies the invariant is exactly what sampling returns |
| `Sampling.ReceiverOpeningSIsUnused` | manta-asset/src/sampling.rs:173-175 | the drawn s enters no commitment: another s changes only the address's s field and not success or failure |
| `Processing.Process` | manta-asset/src/processing.rs:44-67 | it succeeds iff Commit(LE64(value)‖k; s) succeeds and otherwise returns that error; utxo is that commitment; value and prepared_data are the inputs unchanged; ciphertext ‖ sender_pk is the 48-byte ECIES output for (ecpk, value) |
| `Sanity.Evaluate` | manta-asset/src/sanity.rs:34-63 | ordered checks give true iff every recomputation succeeds and matches; an Err is always a primitive failure that comes from one of the checks |
| `Sanity.EvaluateFrom` | manta-asset/src/sanity.rs:34-63 | checks that all match can be skipped: evaluation continues with the first check left |
| `Sanity.EvaluateStopsAt` | manta-asset/src/sanity.rs:34-63 | when every earlier check matches, a failing primitive at check i is the result's error, a mismatch at i gives Ok(false), and a match at i hands over to the later checks |
| `Sanity.AssetChecks` | manta-asset/src/sanity.rs:36-60 | the asset's four comparisons in the checker's order: PRF(sk, 0^32) against pk, PRF(sk, rho) against void_number, Commit(pk‖rho; r) against k, Commit(LE64(asset_id)‖LE64(value)‖k; s) against utxo |
| `Sanity.ReceiverChecks` | manta-asset/src/sanity.rs:71-90 | the receiver's three comparisons in order: spending pk, void_number, then the address's k against Commit(pk‖rho; r) |
| `Sanity.AssetSanity` | manta-asset/src/sanity.rs:34-63 | it equals the ordered evaluation of the checks pk, void_number, k, utxo (first failure is Err, first mismatch is false); Ok(true) iff all four equations hold; Err only from a primitive |
| `Sanity.ReceiverSanity` | manta-asset/src/sanity.rs:69-92 | it equals the ordered evaluation of the three checks spending pk, void_number and address k = Commit(pk‖rho; r); Ok(true) iff the receiver invariant holds |
| `Sanity.ChangedDigestFailsSanity` | manta-asset/src/sanity.rs:36-60 | replacing one stored digest (pk, void_number, k or utxo) of a sane asset by another value makes the check return Ok(false) |
| `Sanity.ReceiverSanityReadsOnly` | manta-asset/src/sanity.rs:69-92 | receivers that agree on spending pk, sk, rho, void_number and address k, r get the same result: s, ecpk, ecsk and both asset ids are never read |
| `SerDes.EncodeAsset` | manta-asset/src/serdes.rs:25-31 | the asset layout is 272 bytes |
| `SerDes.EncodePubInfo` | manta-asset/src/serdes.rs:57-63 | the public info layout is 160 bytes |
| `SerDes.EncodePrivInfo` | manta-asset/src/serdes.rs:80-83 | the private info layout is 40 bytes |
| `SerDes.EncodeShieldedAddress` | manta-asset/src/serdes.rs:150-157 | the shielded address layout is 136 bytes |
| `SerDes.EncodeSpendingInfo` | manta-asset/src/serdes.rs:122-130 | the spending info layout is 168 bytes |
| `SerDes.EncodeFullReceiver` | manta-asset/src/serdes.rs:99-102 | the full receiver layout is 304 bytes |
| `SerDes.EncodeProcessedReceiver` | manta-asset/src/serdes.rs:177-183 | the processed receiver layout is 224 bytes |
| `SerDes.ParsePubInfo` | manta-asset/src/serdes.rs:66-75 | the read of public info: pk, rho, s, r, k as consecutive 32-byte fields; its inverse is stated by `ParseEncodePubInfo` and `EncodeParsePubInfo` |
| `SerDes.ParsePrivInfo` | manta-asset/src/serdes.rs:86-94 | the read of private info: a little-endian u64 value, then sk |
| `SerDes.ParseAsset` | manta-asset/src/serdes.rs:34-44 | the read of an asset: LE64 asset_id, utxo, void_number, then public and private info |
| `SerDes.ParseShieldedAddress` | manta-asset/src/serdes.rs:159-172 | the read of a shielded address: LE64 asset_id, k, s, r, ecpk |
| `SerDes.ParseSpendingInfo` | manta-asset/src/serdes.rs:132-145 | the read of spending info: LE64 asset_id, pk, sk, rho, void_number, ecsk |
| `SerDes.ParseFullReceiver` | manta-asset/src/serdes.rs:104-108 | the read of a full receiver: the shielded address, then the spending info |
| `SerDes.ParseProcessedReceiver` | manta-asset/src/serdes.rs:185-196 | the read of a processed receiver: utxo, LE64 value, sender_pk, ciphertext, then the shielded address |
| `SerDes.ParseEncodePubInfo` | manta-asset/src/serdes.rs:57-75 | reading public info back from its layout, whatever follows, gives it back |
| `SerDes.ParseEncodePrivInfo` | manta-asset/src/serdes.rs:80-94 | reading private info back from its layout gives it back |
| `SerDes.ParseEncodeAsset` | manta-asset/src/serdes.rs:25-44 | reading an asset's fields back from its layout gives the asset back |
| `SerDes.ParseEncodeShieldedAddress` | manta-asset/src/serdes.rs:150-172 | reading a shielded address back from its layout gives it back |
| `SerDes.ParseEncodeSpendingInfo` | manta-asset/src/serdes.rs:122-145 | reading spending info back from its layout gives it back |
| `SerDes.ParseEncodeFullReceiver` | manta-asset/src/serdes.rs:99-108 | reading a full receiver back from its layout gives it back |
| `SerDes.ParseEncodeProcessedReceiver` | manta-asset/src/serdes.rs:177-196 | reading a processed receiver back from its layout gives it back |
| `SerDes.EncodeParsePubInfo` | manta-asset/src/serdes.rs:66-75 | every 160-byte prefix is the layout of the public info read from it |
| `SerDes.EncodeParsePrivInfo` | manta-asset/src/serdes.rs:86-94 | every 40-byte prefix is the layout of the private info read from it |
| `SerDes.EncodeParseAsset` | manta-asset/src/serdes.rs:34-44 | every 272-byte prefix is the layout of the asset read from it |
| `SerDes.EncodeParseShieldedAddress` | manta-asset/src/serdes.rs:159-172 | every 136-byte prefix is the layout of the address read from it |
| `SerDes.EncodeParseSpendingInfo` | manta-asset/src/serdes.rs:132-145 | every 168-byte prefix is the layout of the spending info read from it |
| `SerDes.EncodeParseFullReceiver` | manta-asset/src/serdes.rs:104-108 | every 304-byte prefix is the layout of the receiver read from it |
| `SerDes.EncodeParseProcessedReceiver` | manta-asset/src/serdes.rs:185-196 | every 224-byte prefix is the layout of the processed receiver read from it |
| `SerDes.DecodeAsset` | manta-asset/src/serdes.rs:34-52 | short input is UnexpectedEof; SanityCheckFail exactly when the check on the asset read says false; a returned asset re-encodes to the input's first 272 bytes and is sane |
| `SerDes.DecodeFullReceiver` | manta-asset/src/serdes.rs:104-117 | short input is UnexpectedEof; SanityCheckFail exactly when the receiver check says false; a returned receiver re-encodes to the input's prefix and is sane |
| `SerDes.DecodeProcessedReceiver` | manta-asset/src/serdes.rs:185-196 | it fails iff fewer than 224 bytes are given, and it has no sanity gate |
| `SerDes.DecodeEncodeAsset` | manta-asset/src/serdes.rs:25-52 | decode(encode(a)) is Ok(a) for a sane asset, SanityCheckFail for an insane one, and the primitive's error otherwise |
| `SerDes.DecodeEncodeFullReceiver` | manta-asset/src/serdes.rs:99-117 | the same gated round trip for full receivers |
| `SerDes.DecodeEncodeProcessedReceiver` | manta-asset/src/serdes.rs:177-196 | every processed receiver round-trips |
| `SerDes.DefaultsAreZeroLayouts` | manta-asset/src/lib.rs:44-142 | the derived Defaults `MantaTypes.DefaultPubInfo`, `DefaultPrivInfo`, `DefaultAsset`, `DefaultShieldedAddress`, `DefaultSpendingInfo`, `DefaultFullReceiver` and `DefaultProcessedReceiver` each encode as all zero bytes, so deserialisation starts from what a zero-filled input reads as |
| `SerDes.SerializePubInfo` | manta-asset/src/serdes.rs:57-63 | appends exactly the public info layout to the writer |
| `SerDes.SerializePrivInfo` | manta-asset/src/serdes.rs:80-83 | appends exactly the private info layout |
| `SerDes.SerializeAsset` | manta-asset/src/serdes.rs:25-31 | appends exactly the asset layout |
| `SerDes.SerializeShieldedAddress` | manta-asset/src/serdes.rs:150-157 | appends exactly the shielded address layout |
| `SerDes.SerializeSpendingInfo` | manta-asset/src/serdes.rs:122-130 | appends exactly the spending info layout |
| `SerDes.SerializeFullReceiver` | manta-asset/src/serdes.rs:99-102 | appends exactly the full receiver layout |
| `SerDes.SerializeProcessedReceiver` | manta-asset/src/serdes.rs:177-183 | appends exactly the processed receiver layout |
| `SerDes.DeserializePubInfo` | manta-asset/src/serdes.rs:66-75 | succeeds iff 160 bytes remain, then returns the public info read and advances by 160; otherwise UnexpectedEof |
| `SerDes.DeserializePrivInfo` | manta-asset/src/serdes.rs:86-94 | succeeds iff 40 bytes remain, then returns the private info read and advances by 40 |
| `SerDes.DeserializeShieldedAddress` | manta-asset/src/serdes.rs:159-172 | succeeds iff 136 bytes remain, then returns the address read and advances by 136 |
| `SerDes.DeserializeSpendingInfo` | manta-asset/src/serdes.rs:132-145 | succeeds iff 168 bytes remain, then returns the spending info read and advances by 168 |
| `SerDes.DeserializeAsset` | manta-asset/src/serdes.rs:34-52 | the field-by-field read followed by the sanity gate computes `DecodeAsset` |
| `SerDes.DeserializeFullReceiver` | manta-asset/src/serdes.rs:104-117 | the two sub-reads followed by the receiver gate compute `DecodeFullReceiver` |
| `SerDes.DeserializeProcessedReceiver` | manta-asset/src/serdes.rs:185-196 | the field-by-field read computes `DecodeProcessedReceiver` |
| `ByteIo.ByteWriter.WriteAll` | manta-asset/src/serdes.rs:26-30 | `write_all` into a growable buffer appends exactly the given bytes and cannot fail |
| `ByteIo.ByteReader.ReadExact` | manta-asset/src/serdes.rs:38-42 | `read_exact` yields the next n bytes and advances by n when n bytes remain, and otherwise fails with UnexpectedEof without consuming |
| `Ledger.ShardIndex` | manta-ledger/src/lib.rs:72 | a commitment's shard is its first byte, always below 256 |
| `Ledger.DefaultShards` | manta-ledger/src/lib.rs:94-104 | the default ledger's shards: 256 copies of `EmptyShard`, the derived Default of a shard (manta-ledger/src/lib.rs:30), with an empty list and an all-zero root |
| `Ledger.HasRoot` | manta-ledger/src/lib.rs:63-65 | what check_root asks: some shard's root is the target |
| `Ledger.Contains` | manta-ledger/src/lib.rs:67-75 | what exist asks: the target is in the list of the shard its first byte names |
| `Ledger.PrivateAssetLedger.constructor` | manta-ledger/src/lib.rs:94-104 | the default ledger has 256 shards, each with an empty list and an all-zero root |
| `Ledger.PrivateAssetLedger.CheckRoot` | manta-ledger/src/lib.rs:63-65 | true iff some shard's root equals the target |
| `Ledger.PrivateAssetLedger.Exist` | manta-ledger/src/lib.rs:67-75 | true iff `Contains`: the target occurs in the list of shard target[0]; no other shard is read |
| `Ledger.PrivateAssetLedger.Update` | manta-ledger/src/lib.rs:79-91 | the new shards and the result are those of `UpdateShards` on the old shards |
| `Ledger.UpdateShards` | manta-ledger/src/lib.rs:79-91 | the update rule keeps 256 shards |
| `Ledger.UpdateRoutesByFirstByte` | manta-ledger/src/lib.rs:84-89 | only shard target[0] changes, and its list becomes the old list with target appended |
| `Ledger.UpdateIsAppendOnly` | manta-ledger/src/lib.rs:84-89 | after an update the target exists, and every earlier commitment still exists, with every list extending its old self |
| `Ledger.UpdateRefreshesRoot` | manta-ledger/src/lib.rs:87-89 | success iff MerkleRoot of the new list succeeds; the shard's root is then that root and check_root accepts it; on failure the primitive's error is returned and the root is stale while the list is extended |
| `Ledger.UpdateAddsOneCopy` | manta-ledger/src/lib.rs:78-87 | no deduplication: each update adds exactly one more copy of the target to its shard |
| `Ledger.DefaultLedgerIsEmpty` | manta-ledger/src/lib.rs:94-104 | in the default ledger nothing exists and the all-zero digest is the only root |
| `Ledger.PostToFreshLedger` | manta-ledger/src/lib.rs:63-89 | after posting a commitment to a fresh ledger it exists, and check_root accepts its shard's recomputed root when that root can be computed |
| `Flows.SampledAssetRoundTrips` | manta-asset/src/test.rs:30-35 | a sampled asset is sane and decodes back from its encoding, whatever follows it |
| `Flows.SampledReceiverRoundTrips` | manta-asset/src/test.rs:46-52 | a prepared receiver is sane and decodes back from its encoding |
| `Flows.AssetSerdesRoundTrip` | manta-asset/src/test.rs:21-36 | sample, serialize into a buffer, deserialize: the recovered asset is the sampled one |
| `Flows.ReceiverSerdesRoundTrip` | manta-asset/src/test.rs:38-53 | the same for a prepared receiver |
| `Flows.ReceiverRecomputesUtxo` | manta-asset/src/processing.rs:49-65 | after prepare then process, the processed receiver carries the published address and its utxo is Commit(LE64(value)‖k; s) with the receiver's own k and s |

## Left out

- Concrete cryptography: the Blake2s PRF, the Pedersen commitment, ECIES encryption and the Merkle
  tree. Each is an arbitrary function, so nothing is proved that needs collision resistance or hiding.
- ECIES key generation and `Fr` sampling are not modelled. Like the other random values, their results
  arrive as draws (`Sampling.AssetDraws`, `Sampling.ReceiverDraws`).
- Decryption is not used by the core and is not modelled.
- The random generator is not modelled. Its outputs are explicit inputs.
- Loading `COMMIT_PARAM`, and a failure to load it, are not modelled. The loaded parameter is an input.
- The deserialisers of an asset and a full receiver (manta-asset/src/serdes.rs:46, :110) and `process`
  (manta-asset/src/processing.rs:49) always use the embedded `COMMIT_PARAM`. `sample` and `sanity` take
  the caller's parameter. The model passes one `param` to all of them. The `Flows` members, including
  `Flows.ReceiverRecomputesUtxo`, therefore describe the source only when the caller's parameter is the
  embedded one, as in the tests (manta-asset/src/test.rs:24, :41). A mismatch between the two
  parameters is not modelled.
- The source uses two commitment calls: the `ark` commitment followed by serialisation in `sampling.rs`,
  and the byte-level `manta_crypto` commitment in `sanity.rs` and `processing.rs`. The model treats them
  as one function of the message and the 32-byte opening.
- Writing a sampled field element into its 32-byte buffer is treated as infallible. The draw arrives as
  that encoding, and no check is made that it is a canonical field element.
- Only byte-slice readers are modelled. The deserialisers are generic over any reader
  (manta-asset/src/serdes.rs:34, :66, :86, :104, :132, :159, :185). The model reads from a `&[u8]`
  slice (`ByteIo.ByteReader`), as the tests do (manta-asset/src/test.rs:34, :51). The I/O errors
  other readers may raise are not modelled. `SerDes.DecodeAsset` therefore states that an UnexpectedEof
  happens exactly on short input only for slice input. The same holds for `SerDes.DecodeFullReceiver`
  and `SerDes.DecodeProcessedReceiver`.
- `write_all` into a growable buffer cannot fail, so the serialisers return no result. Writers that can
  fail are not modelled.
- `SerDes.DeserializePubInfo`: after a short read the reader position is only bounded, not pinned down.
  The same holds for the other reader-based deserialisers. Every caller discards the reader on error.
- `Sanity.ChangedDigestFailsSanity`: it covers changes to pk, void_number, k and utxo. A change to rho,
  s, r, sk, value or asset_id is detected only if the primitives are collision-free, which an arbitrary
  function need not be.
- The SCALE `Encode`/`Decode` derivations on the ledger are library-generated and not modelled.
- `src/lib.rs` holds only payload sizes and extrinsic data structs, and is not part of this model.
  `src/metadata.rs` builds Merkle proofs through the external tree and refers to a field that
  `MantaAsset` does not have; it is not part of this model either.
- Concurrency: the ledger is not synchronised, and the model is sequential.
