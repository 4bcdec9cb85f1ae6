/** Registration: adding a user with a fixed role under a username nobody has yet. */
module Auth {
  import opened Domain
  import opened Store

  /** The user store after one registration: the earlier store with one new user under a
      fresh id. Nobody else is touched. */
  ghost predicate Registered(before: map<int, User>, after: map<int, User>, u: User) {
    && u.id !in before
    && after == before[u.id := u]
  }

  /** After a registration the name is taken, so registering it again is refused, and every
      earlier user is still there, unchanged. */
  lemma RegisteredNameIsTaken(before: map<int, User>, after: map<int, User>, u: User)
    requires Registered(before, after, u)
    ensures ExistsByUsername(after, u.username)
    ensures forall k :: k in before ==> k in after && after[k] == before[k]
    ensures |after| == |before| + 1
  {
    assert after[u.id].username == u.username;
  }

  /** The registration service over the shared database, with the password encoder as a
      parameter. */
  class AuthService {
    const db: Database
    const encode: string -> string

    constructor (db: Database, encode: string -> string)
      ensures this.db == db && this.encode == encode
    {
      this.db := db;
      this.encode := encode;
    }

    /** registerUser: a taken username is refused with nothing stored; otherwise one user
        with role USER and the encoded password is added. */
    method RegisterUser(username: string, password: string) returns (r: Result<User>)
      requires db.Valid()
      modifies db`users, db`nextUserId
      ensures db.Valid()
      ensures ExistsByUsername(old(db.users), username) ==>
                r == Err(UsernameTaken) && db.users == old(db.users)
                && db.nextUserId == old(db.nextUserId)
      ensures !ExistsByUsername(old(db.users), username) ==>
                && r == Ok(User(old(db.nextUserId), username, encode(password), UserRole))
                && Registered(old(db.users), db.users, r.value)
                && db.nextUserId == old(db.nextUserId) + 1
    {
      if FindByUsername(db.users, username).Some? {
        return Err(UsernameTaken);
      }
      var user := User(db.nextUserId, username, encode(password), UserRole);
      InsertFreshUsername(db.users, db.nextUserId, user);
      db.users := db.users[user.id := user];
      db.nextUserId := db.nextUserId + 1;
      return Ok(user);
    }

    /** createAdminUser: the same guard, with role ADMIN. */
    method CreateAdminUser(username: string, password: string) returns (r: Result<User>)
      requires db.Valid()
      modifies db`users, db`nextUserId
      ensures db.Valid()
      ensures ExistsByUsername(old(db.users), username) ==>
                r == Err(UsernameTaken) && db.users == old(db.users)
                && db.nextUserId == old(db.nextUserId)
      ensures !ExistsByUsername(old(db.users), username) ==>
                && r == Ok(User(old(db.nextUserId), username, encode(password), AdminRole))
                && Registered(old(db.users), db.users, r.value)
                && db.nextUserId == old(db.nextUserId) + 1
    {
      if FindByUsername(db.users, username).Some? {
        return Err(UsernameTaken);
      }
      var user := User(db.nextUserId, username, encode(password), AdminRole);
      InsertFreshUsername(db.users, db.nextUserId, user);
      db.users := db.users[user.id := user];
      db.nextUserId := db.nextUserId + 1;
      return Ok(user);
    }
  }
}
