/**
 * The JSON Web Token library the verifier calls (`jwt.ParseWithClaims`).
 * Decoding the compact serialization and checking signatures and time-based
 * claims are foreign code; they are the two oracles of `Library`. What is
 * modelled is the order in which the library consults the caller's key
 * function and how it reports the outcome.
 */
module Jwt {
  import opened Wrappers

  /** The signing-method family named by the token's `alg` header. */
  datatype SigningMethod = HMAC(alg: string) | NonHMAC(alg: string)

  /** The claims object the token decodes into. */
  datatype Claims = RegisteredClaims(subject: string) | OtherClaims

  datatype Token = Token(signing: SigningMethod, claims: Claims, valid: bool)

  datatype ValidationError = Malformed | Unverifiable(reason: string) | Invalid

  /**
   * The library's own behaviour: `parseUnverified` decodes a compact token
   * (None when it is malformed); `verify(token, key)` is the signature and
   * expiry check under `key`.
   */
  datatype Library = Library(
    parseUnverified: string -> Option<(SigningMethod, Claims)>,
    verify: (string, string) -> bool)

  /** The caller's key function: the key to verify with, or an error. */
  type Keyfunc = SigningMethod -> Result<string, string>

  /** Go's `(*Token, error)` pair. */
  datatype Parsed = Parsed(token: Option<Token>, err: Option<ValidationError>)

  /**
   * `ParseWithClaims`: decode, ask the key function for a key, then verify
   * with that key. A token is valid exactly when no error is reported, and
   * that happens exactly when the key function accepted the token's signing
   * method and the token verifies under the key it returned.
   */
  function ParseWithClaims(lib: Library, tokenString: string, keyFunc: Keyfunc): (p: Parsed)
    ensures p.err.None? <==> p.token.Some? && p.token.value.valid
    ensures p.err.None? ==>
      && lib.parseUnverified(tokenString).Some?
      && p.token.value.signing == lib.parseUnverified(tokenString).value.0
      && p.token.value.claims == lib.parseUnverified(tokenString).value.1
      && keyFunc(p.token.value.signing).Ok?
      && lib.verify(tokenString, keyFunc(p.token.value.signing).value)
    ensures
      && lib.parseUnverified(tokenString).Some?
      && keyFunc(lib.parseUnverified(tokenString).value.0).Ok?
      && lib.verify(tokenString, keyFunc(lib.parseUnverified(tokenString).value.0).value)
      ==> p.err.None?
  {
    match lib.parseUnverified(tokenString)
    case None => Parsed(None, Some(Malformed))
    case Some((signing, claims)) =>
      match keyFunc(signing)
      case Err(reason) => Parsed(Some(Token(signing, claims, false)), Some(Unverifiable(reason)))
      case Ok(key) =>
        if lib.verify(tokenString, key) then Parsed(Some(Token(signing, claims, true)), None)
        else Parsed(Some(Token(signing, claims, false)), Some(Invalid))
  }
}
