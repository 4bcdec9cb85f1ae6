/** User administration: creating, listing, reading, partially updating and deleting users. */
module Users {
  import opened Domain
  import opened Store

  /** The user view handed to clients: everything but the password. */
  datatype UserResponse = UserResponse(id: int, username: string, role: Role)

  /** A partial update; `None` stands for a null field, which leaves the stored value. */
  datatype UserUpdate = UserUpdate(username: Option<string>, password: Option<string>, role: Option<Role>)

  /** UserResponse.from */
  function ToResponse(u: User): (r: UserResponse)
    ensures r.id == u.id && r.username == u.username && r.role == u.role
  {
    UserResponse(u.id, u.username, u.role)
  }

  /** The response never depends on the stored password. */
  lemma ToResponseHidesPassword(u: User, password: string)
    ensures ToResponse(u.(password := password)) == ToResponse(u)
  {
  }

  /** The user after a partial update: each non-null field of the request replaces the
      stored one (the password stored encoded), each null field and the id are kept. */
  function ApplyUpdate(u: User, update: UserUpdate, encode: string -> string): (r: User)
    ensures r.id == u.id
    ensures update.username.None? ==> r.username == u.username
    ensures update.username.Some? ==> r.username == update.username.value
    ensures update.password.None? ==> r.password == u.password
    ensures update.password.Some? ==> r.password == encode(update.password.value)
    ensures update.role.None? ==> r.role == u.role
    ensures update.role.Some? ==> r.role == update.role.value
  {
    var u1 := if update.username.Some? then u.(username := update.username.value) else u;
    var u2 := if update.password.Some? then u1.(password := encode(update.password.value)) else u1;
    if update.role.Some? then u2.(role := update.role.value) else u2
  }

  /** An update with every field null changes nothing. */
  lemma EmptyUpdateIsIdentity(u: User, encode: string -> string)
    ensures ApplyUpdate(u, UserUpdate(None, None, None), encode) == u
  {
  }

  /** Sending the same update twice has the effect of sending it once. With one fixed encoder
      the whole user agrees; when the second encoding differs (a fresh salt), the id, username
      and role still agree, and so does the whole user when no password is sent. */
  lemma ApplyUpdateIdempotent(u: User, update: UserUpdate, encode: string -> string,
                              reencode: string -> string)
    ensures ApplyUpdate(ApplyUpdate(u, update, encode), update, encode) == ApplyUpdate(u, update, encode)
    ensures var once := ApplyUpdate(u, update, encode);
            var twice := ApplyUpdate(once, update, reencode);
            && twice.id == once.id && twice.username == once.username && twice.role == once.role
            && (update.password.None? ==> twice == once)
  {
  }

  /** The responses of the users with ids in [lo, hi), in ascending id order. */
  function ResponsesInRange(users: map<int, User>, lo: int, hi: int): (r: seq<UserResponse>)
    ensures |r| <= if lo < hi then hi - lo else 0
    decreases hi - lo
  {
    if lo >= hi then []
    else if lo in users then [ToResponse(users[lo])] + ResponsesInRange(users, lo + 1, hi)
    else ResponsesInRange(users, lo + 1, hi)
  }

  /** Every response in `r` is a stored user's, with an id in [lo, hi), in ascending order. */
  ghost predicate ListsInOrder(users: map<int, User>, r: seq<UserResponse>, lo: int, hi: int) {
    && (forall i :: 0 <= i < |r| ==>
          lo <= r[i].id < hi && r[i].id in users && r[i] == ToResponse(users[r[i].id]))
    && (forall i, j :: 0 <= i < j < |r| ==> r[i].id < r[j].id)
  }

  /** The listing holds only stored users of the range, in ascending id order. */
  lemma {:induction false} ResponsesInRangeSound(users: map<int, User>, lo: int, hi: int)
    requires forall k :: k in users ==> users[k].id == k
    ensures ListsInOrder(users, ResponsesInRange(users, lo, hi), lo, hi)
    decreases hi - lo
  {
    if lo < hi {
      ResponsesInRangeSound(users, lo + 1, hi);
      var r, rest := ResponsesInRange(users, lo, hi), ResponsesInRange(users, lo + 1, hi);
      if lo in users {
        assert r == [ToResponse(users[lo])] + rest;
        assert r[0].id == lo;
        assert forall i :: 1 <= i < |r| ==> r[i] == rest[i - 1];
      } else {
        assert r == rest;
      }
    }
  }

  /** Every stored user with an id in the range is listed. */
  lemma {:induction false} ResponsesInRangeComplete(users: map<int, User>, lo: int, hi: int, k: int)
    requires forall k :: k in users ==> users[k].id == k
    requires k in users && lo <= k < hi
    ensures exists i :: 0 <= i < |ResponsesInRange(users, lo, hi)| && ResponsesInRange(users, lo, hi)[i].id == k
    decreases hi - lo
  {
    var r := ResponsesInRange(users, lo, hi);
    if k == lo {
      assert r[0].id == k;
    } else {
      ResponsesInRangeComplete(users, lo + 1, hi, k);
      var rest := ResponsesInRange(users, lo + 1, hi);
      var i :| 0 <= i < |rest| && rest[i].id == k;
      if lo in users {
        assert r[i + 1] == rest[i];
      } else {
        assert r[i] == rest[i];
      }
    }
  }

  /** The user service over the shared database, with the password encoder as a parameter. */
  class UserService {
    const db: Database
    const encode: string -> string

    constructor (db: Database, encode: string -> string)
      ensures this.db == db && this.encode == encode
    {
      this.db := db;
      this.encode := encode;
    }

    /** createUser: stores a user with the requested username and role and the encoded
        password, under a fresh id; a username already in use violates the unique column
        and nothing is stored. */
    method CreateUser(username: string, password: string, role: Role) returns (r: Result<UserResponse>)
      requires db.Valid()
      modifies db`users, db`nextUserId
      ensures db.Valid()
      ensures ExistsByUsername(old(db.users), username) ==>
                r == Err(DuplicateUsername) && db.users == old(db.users)
                && db.nextUserId == old(db.nextUserId)
      ensures !ExistsByUsername(old(db.users), username) ==>
                && old(db.nextUserId) !in old(db.users)
                && r == Ok(UserResponse(old(db.nextUserId), username, role))
                && db.users == old(db.users)[old(db.nextUserId) :=
                                 User(old(db.nextUserId), username, encode(password), role)]
                && db.nextUserId == old(db.nextUserId) + 1
    {
      if FindByUsername(db.users, username).Some? {
        return Err(DuplicateUsername);
      }
      var user := User(db.nextUserId, username, encode(password), role);
      InsertFreshUsername(db.users, db.nextUserId, user);
      db.users := db.users[user.id := user];
      db.nextUserId := db.nextUserId + 1;
      return Ok(ToResponse(user));
    }

    /** getAllUsers: one response per stored user, in ascending id order. */
    method GetAllUsers() returns (r: seq<UserResponse>)
      requires db.Valid()
      ensures forall i :: 0 <= i < |r| ==> r[i].id in db.users && r[i] == ToResponse(db.users[r[i].id])
      ensures forall k :: k in db.users ==> exists i :: 0 <= i < |r| && r[i].id == k
      ensures forall i, j :: 0 <= i < j < |r| ==> r[i].id < r[j].id
    {
      r := ResponsesInRange(db.users, 1, db.nextUserId);
      ResponsesInRangeSound(db.users, 1, db.nextUserId);
      forall k | k in db.users
        ensures exists i :: 0 <= i < |r| && r[i].id == k
      {
        ResponsesInRangeComplete(db.users, 1, db.nextUserId, k);
      }
    }

    /** getUser */
    method GetUser(id: int) returns (r: Result<UserResponse>)
      requires db.Valid()
      ensures id !in db.users ==> r == Err(UserNotFound)
      ensures id in db.users ==> r == Ok(ToResponse(db.users[id]))
    {
      if id !in db.users {
        return Err(UserNotFound);
      }
      return Ok(ToResponse(db.users[id]));
    }

    /** updateUser: overwrites the non-null fields of the stored user; a missing id fails,
        and so does a new username that another user already has (the unique column), in
        both cases with nothing saved. */
    method UpdateUser(id: int, update: UserUpdate) returns (r: Result<UserResponse>)
      requires db.Valid()
      modifies db`users
      ensures db.Valid()
      ensures id !in old(db.users) ==> r == Err(UserNotFound) && db.users == old(db.users)
      ensures id in old(db.users) && update.username.Some?
              && UsernameTakenByOther(old(db.users), update.username.value, id) ==>
                r == Err(DuplicateUsername) && db.users == old(db.users)
      ensures id in old(db.users)
              && !(update.username.Some? && UsernameTakenByOther(old(db.users), update.username.value, id)) ==>
                var updated := ApplyUpdate(old(db.users)[id], update, encode);
                && r == Ok(ToResponse(updated))
                && db.users == old(db.users)[id := updated]
    {
      if id !in db.users {
        return Err(UserNotFound);
      }
      var user := db.users[id];
      if update.username.Some? {
        user := user.(username := update.username.value);
      }
      if update.password.Some? {
        user := user.(password := encode(update.password.value));
      }
      if update.role.Some? {
        user := user.(role := update.role.value);
      }
      var holder := FindByUsername(db.users, user.username);
      if update.username.Some? && holder.Some? && holder.value != id {
        return Err(DuplicateUsername);
      }
      assert !UsernameTakenByOther(db.users, user.username, id);
      ReplaceKeepsUniqueUsernames(db.users, id, user);
      db.users := db.users[id := user];
      return Ok(ToResponse(user));
    }

    /** deleteUser: the current user and the target must exist, the current user may not
        delete themself and nobody may delete an administrator, checked in that order;
        otherwise exactly the target is removed. */
    method DeleteUser(id: int, currentUsername: string) returns (r: Result<()>)
      requires db.Valid()
      modifies db`users
      ensures db.Valid()
      ensures r.Err? ==> db.users == old(db.users)
      ensures !ExistsByUsername(old(db.users), currentUsername) ==> r == Err(CurrentUserNotFound)
      ensures ExistsByUsername(old(db.users), currentUsername) && id !in old(db.users) ==>
                r == Err(UserNotFound)
      ensures ExistsByUsername(old(db.users), currentUsername) && id in old(db.users) ==>
                (old(db.users)[id].username == currentUsername ==> r == Err(CannotDeleteSelf))
                && (old(db.users)[id].username != currentUsername && old(db.users)[id].role == AdminRole ==>
                      r == Err(CannotDeleteAdmin))
                && (old(db.users)[id].username != currentUsername && old(db.users)[id].role == UserRole ==>
                      r == Ok(()) && db.users == old(db.users) - {id})
    {
      var current := FindByUsername(db.users, currentUsername);
      if current.None? {
        return Err(CurrentUserNotFound);
      }
      if id !in db.users {
        return Err(UserNotFound);
      }
      var target := db.users[id];
      if current.value == target.id {
        return Err(CannotDeleteSelf);
      }
      if target.role == AdminRole {
        return Err(CannotDeleteAdmin);
      }
      db.users := db.users - {id};
      return Ok(());
    }
  }
}
