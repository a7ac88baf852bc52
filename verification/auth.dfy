/**
 * The authentication gate: from the request's `Authorization` header to the
 * integer id of the caller, or -1 and an error.
 */
module Auth {
  import opened Wrappers
  import Http
  import Bearer
  import Jwt

  /** "no token provided", "invalid token", "invalid claims type", "failed to parse user ID". */
  datatype AuthError = NoTokenProvided | InvalidToken | InvalidClaimsType | FailedToParseUserID

  /** Go's `(int, error)` pair. */
  datatype AuthResult = AuthResult(userID: int, err: Option<AuthError>)

  /** The id returned with every error. */
  const NoUser: int := -1

  /**
   * The key function handed to the library: it pins the HMAC family (the
   * `HS*` algorithms of section 3.2 of RFC 7518) and then yields the shared
   * secret, so no other algorithm family ever reaches signature checking.
   */
  function KeyFunc(secret: string, signing: Jwt.SigningMethod): (r: Result<string, string>)
    ensures r.Ok? <==> signing.HMAC?
    ensures r.Ok? ==> r.value == secret
  {
    if !signing.HMAC? then Err("unexpected signing method: " + signing.alg) else Ok(secret)
  }

  /**
   * The token after the prefix of `authorization` decodes to an HMAC-signed
   * token whose registered subject is `subject`, and it verifies under
   * `secret`. Stated directly on the header value, independently of the
   * extractor and of the library's call order.
   */
  ghost predicate Verified(lib: Jwt.Library, secret: string, authorization: string, subject: string) {
    && |Bearer.Prefix| < |authorization|
    && authorization[..|Bearer.Prefix|] == Bearer.Prefix
    && var t := authorization[|Bearer.Prefix|..];
       && lib.parseUnverified(t).Some?
       && lib.parseUnverified(t).value.0.HMAC?
       && lib.parseUnverified(t).value.1 == Jwt.RegisteredClaims(subject)
       && lib.verify(t, secret)
  }

  /**
   * `GetAuthenticatedUserID`. An identity is returned only for a verified
   * HMAC token whose subject parses as an integer, and it is that integer;
   * every other request gets -1 with an error.
   */
  function GetAuthenticatedUserID(lib: Jwt.Library, atoi: string -> Option<int>, secret: string, h: Http.Header)
    : (r: AuthResult)
    ensures r.err.Some? ==> r.userID == NoUser
    ensures r.err == Some(NoTokenProvided) <==> Bearer.RetrieveTokenFromHeader(h).err.Some?
    ensures r.err.None? ==>
      exists subject :: Verified(lib, secret, Bearer.AuthorizationValue(h), subject) && atoi(subject) == Some(r.userID)
    ensures forall subject :: Verified(lib, secret, Bearer.AuthorizationValue(h), subject) && atoi(subject).Some? ==>
      r == AuthResult(atoi(subject).value, None)
  {
    var extracted := Bearer.RetrieveTokenFromHeader(h);
    if extracted.err.Some? then
      AuthResult(NoUser, Some(NoTokenProvided))
    else
      var token := extracted.token;
      var parsed := Jwt.ParseWithClaims(lib, token, s => KeyFunc(secret, s));
      if parsed.err.Some? || !parsed.token.value.valid then
        AuthResult(NoUser, Some(InvalidToken))
      else
        match parsed.token.value.claims
        case OtherClaims => AuthResult(NoUser, Some(InvalidClaimsType))
        case RegisteredClaims(subject) =>
          assert Verified(lib, secret, Bearer.AuthorizationValue(h), subject);
          match atoi(subject)
          case None => AuthResult(NoUser, Some(FailedToParseUserID))
          case Some(userID) => AuthResult(userID, None)
  }

  /**
   * Algorithm pinning: a token whose method is outside the HMAC family is
   * refused as an invalid token, whatever the library's signature check
   * would say about it.
   */
  lemma NonHmacRejected(lib: Jwt.Library, atoi: string -> Option<int>, secret: string, h: Http.Header)
    requires Bearer.RetrieveTokenFromHeader(h).err.None?
    requires lib.parseUnverified(Bearer.RetrieveTokenFromHeader(h).token).Some?
    requires lib.parseUnverified(Bearer.RetrieveTokenFromHeader(h).token).value.0.NonHMAC?
    ensures GetAuthenticatedUserID(lib, atoi, secret, h) == AuthResult(NoUser, Some(InvalidToken))
  {
  }

  /**
   * After a successful extraction, the token is refused as invalid exactly
   * when it does not decode, is not HMAC-signed, or does not verify under
   * the server's secret.
   */
  lemma InvalidTokenIff(lib: Jwt.Library, atoi: string -> Option<int>, secret: string, h: Http.Header)
    ensures var t := Bearer.RetrieveTokenFromHeader(h).token;
      GetAuthenticatedUserID(lib, atoi, secret, h).err == Some(InvalidToken) <==>
        && Bearer.RetrieveTokenFromHeader(h).err.None?
        && !(lib.parseUnverified(t).Some? && lib.parseUnverified(t).value.0.HMAC? && lib.verify(t, secret))
  {
  }

  /**
   * The last two gates: a verified token with claims of another type, or a
   * subject that is not an integer, is refused with -1.
   */
  lemma ClaimsAndSubjectFailures(lib: Jwt.Library, atoi: string -> Option<int>, secret: string, h: Http.Header)
    requires Bearer.RetrieveTokenFromHeader(h).err.None?
    requires var t := Bearer.RetrieveTokenFromHeader(h).token;
      lib.parseUnverified(t).Some? && lib.parseUnverified(t).value.0.HMAC? && lib.verify(t, secret)
    ensures var claims := lib.parseUnverified(Bearer.RetrieveTokenFromHeader(h).token).value.1;
      && (claims.OtherClaims? ==>
            GetAuthenticatedUserID(lib, atoi, secret, h) == AuthResult(NoUser, Some(InvalidClaimsType)))
      && (claims.RegisteredClaims? && atoi(claims.subject).None? ==>
            GetAuthenticatedUserID(lib, atoi, secret, h) == AuthResult(NoUser, Some(FailedToParseUserID)))
  {
  }
}
