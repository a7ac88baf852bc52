/**
 * The user store behind `cfg.db`. Its implementation is not modelled: a call
 * fails for an unknown id; while the store is `online` a call on a known id
 * succeeds, and while it is not, any call may fail (a lost connection, say).
 */
module Store {

  type Hash = seq<bv8>

  datatype User = User(id: int, email: string, hashedPassword: Hash, isChirpyRed: bool)

  /** The zero `User` Go returns beside an error. */
  const NoRecord: User := User(0, "", [], false)

  class Database {
    var users: map<int, User>

    /** False while the backend may fail calls for reasons of its own. */
    var online: bool

    /** Every record is stored under its own id. */
    ghost predicate Valid()
      reads this
    {
      forall id :: id in users ==> users[id].id == id
    }

    constructor (users: map<int, User>, online: bool)
      requires forall id :: id in users ==> users[id].id == id
      ensures Valid() && this.users == users && this.online == online
    {
      this.users := users;
      this.online := online;
    }

    /**
     * `UpdateUser(id, email, passwordHash)`: on success the record `id` gets
     * the new email and hash and keeps its id and premium flag; on failure
     * nothing changes.
     */
    method UpdateUser(id: int, email: string, passwordHash: Hash) returns (failed: bool)
      requires Valid()
      modifies this
      ensures Valid() && online == old(online)
      ensures id !in old(users) ==> failed
      ensures old(online) && id in old(users) ==> !failed
      ensures failed ==> users == old(users)
      ensures !failed ==>
        && id in old(users)
        && users == old(users)[id := old(users)[id].(email := email, hashedPassword := passwordHash)]
    {
      if id !in users {
        return true;
      }
      failed := false;
      if !online {
        failed :| true;
      }
      if !failed {
        users := users[id := users[id].(email := email, hashedPassword := passwordHash)];
      }
    }

    /** `GetUserByID(id)`: the stored record when the call succeeds. */
    method GetUserByID(id: int) returns (user: User, failed: bool)
      requires Valid()
      ensures id !in users ==> failed
      ensures online && id in users ==> !failed
      ensures failed ==> user == NoRecord
      ensures !failed ==> id in users && user == users[id] && user.id == id
    {
      if id !in users {
        return NoRecord, true;
      }
      failed := false;
      if !online {
        failed :| true;
      }
      user := if failed then NoRecord else users[id];
    }
  }
}
