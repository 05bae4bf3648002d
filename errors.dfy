/** The errors the core produces or passes through, and the Go `(value, error)`
    pair used where the source returns a zero value together with an error. */
module Errors {
  import opened Wrappers

  /** Why jwt-go refused a token: the cause reported after "invalid token: ". */
  datatype TokenFault =
    | Malformed              // not three segments, bad base64 or JSON
    | MethodUnavailable      // the header names a method jwt-go does not register
    | SigningMethodRejected  // a registered method that is not HMAC: the key function refuses it
    | SignatureInvalid       // the HMAC does not match under the supplied key
    | Expired                // now > exp
    | UsedBeforeIssued       // now < iat
    | NotValidYet            // now < nbf

  datatype Error =
    // internal/utils/token.go
    | InvalidToken(fault: TokenFault)
    | SigningFailed                   // SignedString could not encode the token
    // internal/api/access/api.go
    | MetadataNotProvided
    | AuthHeaderNotProvided
    | InvalidAuthHeaderFormat
    | AccessTokenInvalid
    | AccessRolesUnavailable
    | AccessDenied
    // internal/api/auth/api.go
    | WrongCredentials
    | AccessTokenNotGenerated
    | RefreshTokenNotGenerated
    | Aborted(message: string)        // a gRPC status with code Aborted
    // a collaborator the model does not see into (the database, bcrypt)
    | External(message: string)

  /** A Go `(T, error)` return: `value` is what the function returns beside the error. */
  datatype Ret<T> = Ret(value: T, err: Option<Error>) {
    predicate Ok() { err.None? }
  }
}
