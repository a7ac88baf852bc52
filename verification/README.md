# Profile update with bearer-token authentication

A Dafny model of the profile-update endpoint of a small Go web server
(`updateUser.go`). The endpoint authenticates its caller with a signed JSON
Web Token carried as `Authorization: Bearer <token>`. It then decodes
`{"email", "password"}` from the body, checks the email's shape, hashes the
password with bcrypt, and writes the new email and hash into the caller's
own user record. Finally it re-reads the record and answers with
`{"id", "email", "is_chirpy_red"}`.

The model has one module per component:

- `Bearer` (bearer.dfy): the credential extractor `RetrieveTokenFromHeader`.
  It strips exactly one case-sensitive `"Bearer "` and trims nothing else.
  This is stricter than section 2.1 of RFC 6750 on case (the RFC's scheme
  name is case-insensitive) and looser on the token: the RFC requires a
  b64token, which has no spaces and a restricted character set, while the
  code keeps everything after the single space, so `"Bearer  x"` yields
  `" x"`.
- `Jwt` (jwt.dfy): the JWT library as two oracles: decoding, and signature and
  expiry checking under a key. It also models the order in which
  `ParseWithClaims` asks the caller's key function for that key.
- `Auth` (auth.dfy): the key function that pins the HMAC family (section 3.2
  of RFC 7518) and `GetAuthenticatedUserID`. Every failure gives `-1` and an
  error.
- `Email` (email.dfy): the `@`-and-`.` shape check.
- `Store` (store.dfy): the user store as a class over a map from id to
  record. Its calls may fail.
- `Handler` (handler.dfy): `updateUserHandler` as a method of the
  `ApiConfig` class. It modifies the store and returns the response, plus a
  ghost trace of the steps it reached.
- `Strings`, `Http` (strings.dfy) and `Wrappers` (wrappers.dfy): the
  `strings` functions, `Header.Get`, and Option/Result.

Two details of the code shape the model:

- The handler verifies the token (line 26) before it decodes the body
  (line 32).
- The extractor returns what follows the prefix, untrimmed.

## Model

| member | source | states |
|---|---|---|
| `Bearer.RetrieveTokenFromHeader` | updateUser.go:99-115 | An empty or absent header gives "no token provided". A value not starting with the exact, case-sensitive `"Bearer "` gives "invalid token format". The value `"Bearer "` alone gives "malformed token". Every error comes with an empty token. On success the token is non-empty and `"Bearer " + token` is the header value. |
| `Bearer.ExtractsWhatFollowsPrefix` | updateUser.go:105-114 | Round trip: for any token, extracting from `"Bearer " + token` gives back exactly that token, so only one prefix is removed and no characters are trimmed. The empty token is rejected as malformed. |
| `Bearer.ExtractExamples` | updateUser.go:100-112 | `"bearer x"` and `"Bearer"` are refused as badly formatted. `"Bearer "` is malformed. `"Bearer  x"` yields `" x"`. `"Bearer Bearer x"` yields `"Bearer x"`. |
| `Strings.HasPrefix` | updateUser.go:105 | `s` begins with `prefix` exactly when `prefix` is no longer than `s` and equals the start of `s` of the same length, compared case-sensitively. |
| `Http.Get` | updateUser.go:100 | When the name has a non-empty list of values, the answer is the first of them. When the name is absent or its list is empty, the answer is `""`. |
| `Strings.TrimPrefix` | updateUser.go:109 | When the prefix is present, prefix followed by the result is the input. Otherwise the input is unchanged. |
| `Strings.Contains` | updateUser.go:40 | The substring search answers true exactly when the substring occurs at some position of the string. |
| `Strings.ContainsChar` | updateUser.go:40 | Searching for a one-character string is membership of that character. |
| `Email.ValidEmail` | updateUser.go:40 | An email is accepted iff it contains `@` and contains `.`, at any positions and in either order. |
| `Email.EmailExamples` | updateUser.go:40-43 | `"a@b.com"` and `".@"` pass. `"not-an-email"`, `"a@bcom"` and `"a.b.com"` fail. |
| `Jwt.ParseWithClaims` | updateUser.go:76-84 | The library reports no error exactly when it returns a valid token. That happens exactly when the token decoded, the key function accepted its signing method, and the token verifies under the key the key function returned. |
| `Auth.KeyFunc` | updateUser.go:76-81 | The key function yields a key iff the token's method is in the HMAC family, and that key is the server's secret. |
| `Auth.GetAuthenticatedUserID` | updateUser.go:70-97 | Every error comes with id `-1`. Any extraction failure is reported as "no token provided". An id is returned only for a header `"Bearer " + t` where `t` decodes to an HMAC token whose registered subject `s` parses to that id and `t` verifies under the server secret. Conversely, every such header is accepted with exactly that id. |
| `Auth.NonHmacRejected` | updateUser.go:76-84 | Algorithm pinning: a token signed outside the HMAC family is refused with `-1` and "invalid token", whatever the signature check would say. |
| `Auth.InvalidTokenIff` | updateUser.go:76-84 | After a successful extraction, "invalid token" is reported iff the token does not decode, is not HMAC-signed, or does not verify under the secret. |
| `Auth.ClaimsAndSubjectFailures` | updateUser.go:86-94 | A verified token whose claims have another type gives `-1` and "invalid claims type". One whose subject does not parse gives `-1` and "failed to parse user ID". |
| `Store.Database.UpdateUser` | updateUser.go:51-55 | On success the record under the id gets the new email and hash and keeps its id and premium flag, and nothing else changes. An unknown id fails. On an online store a known id always succeeds. A failure changes nothing. Every record stays stored under its own id, and the online flag is unchanged. |
| `Store.Database.GetUserByID` | updateUser.go:57-61 | On success it returns the stored record, whose id is the requested one. An unknown id fails. On an online store a known id always succeeds. |
| `Handler.ApiConfig.UpdateUserHandler` | updateUser.go:14-68 | The steps taken are a prefix of verify token → decode → check email → hash → update(id) → fetch(id), where id is the token-derived id. Authentication failure gives 401 before the body is decoded. Decode failure gives 400 "Invalid request". A bad email gives 400 "Invalid email". Hash failure gives 500. The store is untouched unless all four gates passed. A failed update gives 500, changes nothing and skips the re-fetch. Otherwise only the caller's record changes (new email and hash). The response is then 500, or 200 with the token's id, the submitted email and the stored premium flag. When all four gates pass, the store is online and it holds the caller's record, the answer is exactly that 200, with the record's premium flag. |
| `Handler.RepeatedInvalidEmailLeavesStore` | updateUser.go:40-43 | Sending an authenticated request whose body decodes to any email without `@` or without `.` twice gives 400 "Invalid email" both times, and the store is unchanged. |

## Left out

- JWT decoding, signature and expiry checks (`jwt.ParseWithClaims` internals): foreign cryptography. They are the oracles `Jwt.Library.parseUnverified` and `Jwt.Library.verify`. The library's separate validation-error kinds are merged into one `Invalid`.
- The claims cast (lines 86-89) cannot fail in the real program, since `ParseWithClaims` is given a `*jwt.RegisteredClaims`. The model keeps an `OtherClaims` case so that the branch stays reachable.
- `strconv.Atoi`: an oracle from string to optional integer. Its sign handling and 64-bit range limits are not modelled.
- `bcrypt.GenerateFromPassword`: an oracle from password and cost to an optional hash. This includes its own refusals, such as over-long passwords.
- JSON decoding of the body: an oracle from body bytes to optional parameters.
- `respondWithError` and `respondWithJSON` are not part of this model. A response is a status with an error message or a user body, and HTTP writing and JSON encoding are left out.
- `Header.Get` canonicalises the header name. The model assumes header names are already stored in canonical form.
- Go strings are byte strings and the model's are character sequences. The searches for `"@"`, `"."` and `"Bearer "` look only for ASCII text, so both views agree.
- The implementation of the storage backend (`cfg.db`) is not modelled: the store is a map with an `online` flag. An unknown id always fails. While the store is online a call on a known id succeeds, and while it is not, any call may fail nondeterministically. Concurrency between requests is not modelled.
