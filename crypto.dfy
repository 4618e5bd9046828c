/**
 * The cryptographic capabilities the core consumes. Their concrete constructions
 * (Blake2s PRF, Pedersen commitment, ECIES, a Merkle tree over a Pedersen hash) are
 * not part of this model: each is an arbitrary total function handed in by the caller,
 * so every property proved below holds for ANY choice of primitives.
 */
module Crypto {
  import opened Wrappers
  import opened Bytes
  import opened MantaError

  /** The commitment parameter (the embedded `COMMIT_PARAM` once loaded, or one passed in). */
  datatype CommitParam = CommitParam(data: seq<uint8>)

  /** The hash parameter of the ledger's Merkle trees. */
  datatype HashParam = HashParam(data: seq<uint8>)

  datatype Primitives = Primitives(
    /** `Blake2s::evaluate(key, input)`. */
    prf: (Digest, Digest) -> Result<Digest, CryptoError>,
    /** `commit(param, message, opening)`, giving the 32-byte encoding of the commitment. */
    commit: (CommitParam, seq<uint8>, Digest) -> Result<Digest, CryptoError>,
    /** `Ecies::encrypt(pk, value, rng)`, with the ephemeral randomness drawn from `rng` made explicit. */
    encrypt: (Digest, uint64, Digest) -> Bytes48,
    /** `MerkleTree::root(param, leaves)`. */
    merkleRoot: (HashParam, seq<Digest>) -> Result<Digest, CryptoError>
  )
}
