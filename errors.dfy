/**
 * The error taxonomy of the confidential-asset core. The repository reports every
 * failure through one catch-all error type; here the kinds it actually produces are
 * told apart: a short read while decoding, a decoded aggregate that fails its sanity
 * check, and a failure reported by a cryptographic primitive.
 */
module MantaError {
  import opened Wrappers

  /** The cause reported by a failing primitive (malformed parameter, encoding failure, ...). */
  datatype CryptoError = CryptoError(code: nat)

  datatype Error =
    | UnexpectedEof
    | SanityCheckFail
    | CryptoFailure(cause: CryptoError)

  /** The `?` conversion from a primitive's error into the core's error. */
  function Lift<T>(r: Result<T, CryptoError>): (l: Result<T, Error>)
    ensures l.Ok? <==> r.Ok?
    ensures l.Ok? ==> l.value == r.value
    ensures l.Err? ==> l.error == CryptoFailure(r.error)
  {
    match r
    case Ok(v) => Ok(v)
    case Err(e) => Err(CryptoFailure(e))
  }
}
