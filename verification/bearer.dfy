/**
 * The credential extractor: the `Bearer <token>` form of the `Authorization`
 * request header. The scheme is matched case-sensitively with exactly one
 * space, which is stricter than section 2.1 of RFC 6750 on case; whatever
 * follows, spaces included, is the token, which is looser than that section.
 */
module Bearer {
  import opened Wrappers
  import Strings
  import Http

  const Authorization: string := "Authorization"

  /** The scheme marker, including its single separating space. */
  const Prefix: string := "Bearer "

  /** The three errors of the extractor: "no token provided", "invalid token format", "malformed token". */
  datatype ExtractError = NoTokenProvided | InvalidTokenFormat | MalformedToken

  /** Go's `(string, error)` pair: the token, and an error when extraction failed. */
  datatype Extraction = Extraction(token: string, err: Option<ExtractError>)

  /** The header value the extractor reads; an absent header reads as "". */
  function AuthorizationValue(h: Http.Header): string {
    Http.Get(h, Authorization)
  }

  /**
   * `RetrieveTokenFromHeader`: strips exactly one "Bearer " from the header
   * value and nothing else; every failure comes with an empty token.
   */
  function RetrieveTokenFromHeader(h: Http.Header): (r: Extraction)
    ensures r.err.Some? ==> r.token == ""
    ensures r.err == Some(NoTokenProvided) <==> AuthorizationValue(h) == ""
    ensures r.err == Some(InvalidTokenFormat) <==> AuthorizationValue(h) != "" && !(Prefix <= AuthorizationValue(h))
    ensures r.err == Some(MalformedToken) <==> AuthorizationValue(h) == Prefix
    ensures r.err.None? ==> r.token != "" && Prefix + r.token == AuthorizationValue(h)
  {
    var token := AuthorizationValue(h);
    if token == "" then
      Extraction("", Some(NoTokenProvided))
    else if !Strings.HasPrefix(token, Prefix) then
      Extraction("", Some(InvalidTokenFormat))
    else
      var token := Strings.TrimPrefix(token, Prefix);
      if token == "" then Extraction("", Some(MalformedToken)) else Extraction(token, None)
  }

  /** A request whose only `Authorization` value is `value`. */
  function HeaderWith(value: string): Http.Header {
    map[Authorization := [value]]
  }

  /**
   * Round trip: the extractor gives back exactly the token that was put
   * after the prefix, whatever it holds (another "Bearer ", leading spaces),
   * and rejects the prefix alone as malformed.
   */
  lemma ExtractsWhatFollowsPrefix(token: string)
    ensures RetrieveTokenFromHeader(HeaderWith(Prefix + token))
         == if token == "" then Extraction("", Some(MalformedToken)) else Extraction(token, None)
  {
  }

  /** The match is case-sensitive, needs the space, and trims nothing else. */
  lemma ExtractExamples()
    ensures RetrieveTokenFromHeader(map[]) == Extraction("", Some(NoTokenProvided))
    ensures RetrieveTokenFromHeader(HeaderWith("bearer x")) == Extraction("", Some(InvalidTokenFormat))
    ensures RetrieveTokenFromHeader(HeaderWith("Bearer")) == Extraction("", Some(InvalidTokenFormat))
    ensures RetrieveTokenFromHeader(HeaderWith("Bearer ")) == Extraction("", Some(MalformedToken))
    ensures RetrieveTokenFromHeader(HeaderWith("Bearer  x")) == Extraction(" x", None)
    ensures RetrieveTokenFromHeader(HeaderWith("Bearer Bearer x")) == Extraction("Bearer x", None)
  {
    assert !(Prefix <= "bearer x") by { assert "bearer x"[0] != Prefix[0]; }
    ExtractsWhatFollowsPrefix(" x");
    ExtractsWhatFollowsPrefix("Bearer x");
  }
}
