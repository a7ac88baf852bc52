/**
 * The profile updater: `updateUserHandler`, a strict early-return pipeline
 * authenticate -> decode body -> check email -> hash -> update -> re-fetch
 * -> respond, in which every failure ends the request with one status and
 * the store is written at one place only.
 */
module Handler {
  import opened Wrappers
  import Http
  import Jwt
  import Auth
  import Email
  import Store

  const StatusOK: int := 200
  const StatusBadRequest: int := 400
  const StatusUnauthorized: int := 401
  const StatusInternalServerError: int := 500

  /** `bcrypt.DefaultCost`. */
  const BcryptDefaultCost: int := 10

  /** The JSON request body `{"email": ..., "password": ...}`. */
  datatype Parameters = Parameters(email: string, password: string)

  datatype Request = Request(header: Http.Header, body: seq<bv8>)

  /** An error message, or the JSON response `{"id", "email", "is_chirpy_red"}`. */
  datatype ResponseBody = ErrorBody(message: string) | UserBody(id: int, email: string, isChirpyRed: bool)

  datatype Response = Response(status: int, body: ResponseBody)

  /**
   * The foreign code the handler calls: the JWT library, `strconv.Atoi`, the
   * JSON decoder and `bcrypt.GenerateFromPassword`, each of which may fail.
   */
  datatype Collaborators = Collaborators(
    jwt: Jwt.Library,
    atoi: string -> Option<int>,
    decodeJson: seq<bv8> -> Option<Parameters>,
    generateFromPassword: (string, int) -> Option<Store.Hash>)

  /** The steps the handler performs, in the order it performs them. */
  datatype Step = VerifyToken | DecodeBody | CheckEmail | HashPassword | StoreUpdate(id: int) | StoreFetch(id: int)

  /** The whole pipeline for the caller whose token names `userID`. */
  function Pipeline(userID: int): seq<Step> {
    [VerifyToken, DecodeBody, CheckEmail, HashPassword, StoreUpdate(userID), StoreFetch(userID)]
  }

  /** `apiConfig`: the server's JWT secret and its user store. */
  class ApiConfig {
    const jwtSecret: string
    const db: Store.Database

    constructor (jwtSecret: string, db: Store.Database)
      ensures this.jwtSecret == jwtSecret && this.db == db
    {
      this.jwtSecret := jwtSecret;
      this.db := db;
    }

    /** `cfg.GetAuthenticatedUserID(r)`. */
    function Authenticate(env: Collaborators, r: Request): Auth.AuthResult {
      Auth.GetAuthenticatedUserID(env.jwt, env.atoi, jwtSecret, r.header)
    }

    /** `updateUserHandler`, with `steps` recording how far the request got. */
    method UpdateUserHandler(env: Collaborators, r: Request) returns (w: Response, ghost steps: seq<Step>)
      requires db.Valid()
      modifies db
      ensures db.Valid() && db.online == old(db.online)
      // The gates run in this order, and the store is only ever addressed by the token's id.
      ensures 1 <= |steps| && steps <= Pipeline(Authenticate(env, r).userID)
      // 401, and the body is never decoded.
      ensures |steps| == 1 <==> Authenticate(env, r).err.Some?
      ensures |steps| == 1 ==> w == Response(StatusUnauthorized, ErrorBody("Failed to authenticate user"))
      // 400: the body does not decode.
      ensures |steps| == 2 <==> Authenticate(env, r).err.None? && env.decodeJson(r.body).None?
      ensures |steps| == 2 ==> w == Response(StatusBadRequest, ErrorBody("Invalid request"))
      // 400: the email fails the shape check.
      ensures |steps| == 3 <==>
        && Authenticate(env, r).err.None?
        && env.decodeJson(r.body).Some?
        && !Email.ValidEmail(env.decodeJson(r.body).value.email)
      ensures |steps| == 3 ==> w == Response(StatusBadRequest, ErrorBody("Invalid email"))
      // 500: hashing fails.
      ensures |steps| == 4 <==>
        && Authenticate(env, r).err.None?
        && env.decodeJson(r.body).Some?
        && Email.ValidEmail(env.decodeJson(r.body).value.email)
        && env.generateFromPassword(env.decodeJson(r.body).value.password, BcryptDefaultCost).None?
      ensures |steps| == 4 ==> w == Response(StatusInternalServerError, ErrorBody("Internal Server Error"))
      // The store is reached only when every gate has passed; before that it is untouched.
      ensures |steps| >= 5 <==>
        && Authenticate(env, r).err.None?
        && env.decodeJson(r.body).Some?
        && Email.ValidEmail(env.decodeJson(r.body).value.email)
        && env.generateFromPassword(env.decodeJson(r.body).value.password, BcryptDefaultCost).Some?
      ensures |steps| < 5 ==> db.users == old(db.users)
      // 500: the update fails; nothing changes and the record is not re-read.
      ensures |steps| == 5 ==>
        && w == Response(StatusInternalServerError, ErrorBody("Internal server error"))
        && db.users == old(db.users)
      // The update went through: only the caller's own record changed.
      ensures |steps| == 6 ==>
        var id := Authenticate(env, r).userID;
        var params := env.decodeJson(r.body).value;
        var hash := env.generateFromPassword(params.password, BcryptDefaultCost).value;
        && id in old(db.users)
        && db.users == old(db.users)[id := old(db.users)[id].(email := params.email, hashedPassword := hash)]
      // 200 carries the caller's id, the submitted email and the stored premium flag.
      ensures |steps| == 6 ==>
        var id := Authenticate(env, r).userID;
        || w == Response(StatusInternalServerError, ErrorBody("Internal server error"))
        || w == Response(StatusOK, UserBody(id, env.decodeJson(r.body).value.email, db.users[id].isChirpyRed))
      ensures w.status == StatusOK ==> |steps| == 6
      // With every gate passed and a healthy store holding the caller's record,
      // the answer is 200 with the caller's id, the submitted email and the
      // record's premium flag, which the update does not touch.
      ensures
        && Authenticate(env, r).err.None?
        && env.decodeJson(r.body).Some?
        && Email.ValidEmail(env.decodeJson(r.body).value.email)
        && env.generateFromPassword(env.decodeJson(r.body).value.password, BcryptDefaultCost).Some?
        && old(db.online)
        && Authenticate(env, r).userID in old(db.users)
        ==>
        var id := Authenticate(env, r).userID;
        && |steps| == 6
        && w == Response(StatusOK, UserBody(id, env.decodeJson(r.body).value.email, old(db.users)[id].isChirpyRed))
    {
      steps := [VerifyToken];
      var auth := Authenticate(env, r);
      if auth.err.Some? {
        w := Response(StatusUnauthorized, ErrorBody("Failed to authenticate user"));
        return;
      }
      var userID := auth.userID;

      steps := steps + [DecodeBody];
      var decoded := env.decodeJson(r.body);
      if decoded.None? {
        w := Response(StatusBadRequest, ErrorBody("Invalid request"));
        return;
      }
      var params := decoded.value;

      steps := steps + [CheckEmail];
      if !Email.ValidEmail(params.email) {
        w := Response(StatusBadRequest, ErrorBody("Invalid email"));
        return;
      }

      steps := steps + [HashPassword];
      var hashed := env.generateFromPassword(params.password, BcryptDefaultCost);
      if hashed.None? {
        w := Response(StatusInternalServerError, ErrorBody("Internal Server Error"));
        return;
      }

      steps := steps + [StoreUpdate(userID)];
      var failed := db.UpdateUser(userID, params.email, hashed.value);
      if failed {
        w := Response(StatusInternalServerError, ErrorBody("Internal server error"));
        return;
      }

      steps := steps + [StoreFetch(userID)];
      var user;
      user, failed := db.GetUserByID(userID);
      if failed {
        w := Response(StatusInternalServerError, ErrorBody("Internal server error"));
        return;
      }

      w := Response(StatusOK, UserBody(user.id, params.email, user.isChirpyRed));
    }
  }

  /**
   * A request with a valid token and a badly shaped email is refused with
   * 400 as often as it is sent, and the store never changes. Both requests
   * are judged by the same collaborators, so the token's expiry check inside
   * `Jwt.Library.verify` gives the same answer to both.
   */
  method RepeatedInvalidEmailLeavesStore(cfg: ApiConfig, env: Collaborators, r: Request)
    returns (first: Response, second: Response)
    requires cfg.db.Valid()
    requires cfg.Authenticate(env, r).err.None?
    requires env.decodeJson(r.body).Some? && !Email.ValidEmail(env.decodeJson(r.body).value.email)
    modifies cfg.db
    ensures first == second == Response(StatusBadRequest, ErrorBody("Invalid email"))
    ensures cfg.db.users == old(cfg.db.users)
  {
    ghost var steps;
    first, steps := cfg.UpdateUserHandler(env, r);
    second, steps := cfg.UpdateUserHandler(env, r);
  }
}
