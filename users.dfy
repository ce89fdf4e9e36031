/** The user directory: the `users` table behind `UserRepository`. Lookups return
    the row or None; writes change one row in place and leave every other row as
    it was. */
module Users {
  import opened Common
  import opened Models
  import opened Schemas

  /** The key a lookup selects on: one of the three unique columns. */
  datatype UserKey = ById(id: int) | ByUsername(username: string) | ByEmail(email: string)

  predicate HasKey(u: User, key: UserKey) {
    match key
    case ById(id) => u.id == id
    case ByUsername(name) => u.username == name
    case ByEmail(email) => u.email == email
  }

  /** The position of the first row holding `key`, if any. */
  function IndexWhere(us: seq<User>, key: UserKey): (r: Option<nat>)
    ensures r.Some? ==> r.value < |us| && HasKey(us[r.value], key)
    ensures r.None? <==> forall u :: u in us ==> !HasKey(u, key)
  {
    FindFirst(us, (u: User) => HasKey(u, key))
  }

  /** The table after `confirmed_email`: the row with `email` is confirmed. */
  function WithConfirmed(us: seq<User>, email: string): (r: seq<User>)
    ensures |r| == |us|
    ensures IndexWhere(us, ByEmail(email)).None? ==> r == us
    ensures IndexWhere(us, ByEmail(email)).Some? ==>
      var i := IndexWhere(us, ByEmail(email)).value;
      r[i] == us[i].(confirmed := true) && forall j :: 0 <= j < |us| && j != i ==> r[j] == us[j]
  {
    match IndexWhere(us, ByEmail(email))
    case Some(i) => us[i := us[i].(confirmed := true)]
    case None => us
  }

  /** The table after `update_avatar_url`: only the avatar of the row with `email` changes. */
  function WithAvatar(us: seq<User>, email: string, url: string): (r: seq<User>)
    ensures |r| == |us|
    ensures IndexWhere(us, ByEmail(email)).None? ==> r == us
    ensures IndexWhere(us, ByEmail(email)).Some? ==>
      var i := IndexWhere(us, ByEmail(email)).value;
      r[i] == us[i].(avatar := Some(url)) && forall j :: 0 <= j < |us| && j != i ==> r[j] == us[j]
  {
    match IndexWhere(us, ByEmail(email))
    case Some(i) => us[i := us[i].(avatar := Some(url))]
    case None => us
  }

  /** The table after `set_refresh_token`: the row `id` holds `token` and nothing
      else; an unknown id leaves the table as it was. */
  function WithRefreshToken(us: seq<User>, id: int, token: string): (r: seq<User>)
    ensures |r| == |us|
    ensures IndexWhere(us, ById(id)).None? ==> r == us
    ensures IndexWhere(us, ById(id)).Some? ==>
      var i := IndexWhere(us, ById(id)).value;
      r[i] == us[i].(refreshToken := Some(token)) && forall j :: 0 <= j < |us| && j != i ==> r[j] == us[j]
  {
    match IndexWhere(us, ById(id))
    case Some(i) => us[i := us[i].(refreshToken := Some(token))]
    case None => us
  }

  class UserRepository {
    var users: seq<User>
    var nextId: int

    /** The table constraints, and the id sequence ahead of every stored id. */
    ghost predicate Valid()
      reads this
    {
      UserKeysUnique(users) && forall u :: u in users ==> u.id < nextId
    }

    constructor ()
      ensures Valid() && users == []
    {
      users := [];
      nextId := 1;
    }

    /** `get_user_by_id`. */
    function GetUserById(id: int): (r: Option<User>)
      reads this
      ensures r.Some? ==> r.value in users && r.value.id == id
      ensures r.None? <==> forall u :: u in users ==> u.id != id
    {
      match IndexWhere(users, ById(id))
      case Some(i) => Some(users[i])
      case None => None
    }

    /** `get_user_by_username`. */
    function GetUserByUsername(username: string): (r: Option<User>)
      reads this
      ensures r.Some? ==> r.value in users && r.value.username == username
      ensures r.None? <==> forall u :: u in users ==> u.username != username
    {
      match IndexWhere(users, ByUsername(username))
      case Some(i) => Some(users[i])
      case None => None
    }

    /** `get_user_by_email`. */
    function GetUserByEmail(email: string): (r: Option<User>)
      reads this
      ensures r.Some? ==> r.value in users && r.value.email == email
      ensures r.None? <==> forall u :: u in users ==> u.email != email
    {
      match IndexWhere(users, ByEmail(email))
      case Some(i) => Some(users[i])
      case None => None
    }

    /** `create_user`: the body's password, already hashed by the caller, goes into
        `hashedPassword`; the new row is unconfirmed, has no refresh token and an id
        no stored row holds. A username or email already stored is refused by the
        UNIQUE constraints and the table rolls back. Which fresh id the database
        picks is not promised. */
    method CreateUser(body: UserCreate, avatar: Option<string>, now: int) returns (r: Result<User>)
      requires Valid()
      modifies this
      ensures Valid() && nextId >= old(nextId)
      ensures (exists u :: u in old(users) && (u.username == body.username || u.email == body.email)) ==>
        r == Err(Fault(IntegrityError)) && users == old(users)
      ensures (forall u :: u in old(users) ==> u.username != body.username && u.email != body.email) ==>
        && r.Ok?
        && r.value == NewUser(r.value.id, body.username, body.email, body.password, now, avatar)
        && (forall u :: u in old(users) ==> u.id != r.value.id)
        && users == old(users) + [r.value]
    {
      // As for contacts, a refused insert still uses up a sequence value.
      var id := nextId;
      nextId := nextId + 1;
      var clash := FindFirst(users, (u: User) => u.username == body.username || u.email == body.email);
      if clash.Some? {
        return Err(Fault(IntegrityError));
      }
      var u := NewUser(id, body.username, body.email, body.password, now, avatar);
      users := users + [u];
      r := Ok(u);
    }

    /** `confirmed_email`: there is no check for a missing row, so an unknown email
        faults on the None lookup and nothing changes. */
    method ConfirmedEmail(email: string) returns (r: Result<()>)
      requires Valid()
      modifies this
      ensures Valid() && nextId == old(nextId)
      ensures IndexWhere(old(users), ByEmail(email)).None? ==> r == Err(Fault(AttributeOnNone)) && users == old(users)
      ensures IndexWhere(old(users), ByEmail(email)).Some? ==> r == Ok(()) && users == WithConfirmed(old(users), email)
    {
      var found := IndexWhere(users, ByEmail(email));
      if found.None? {
        return Err(Fault(AttributeOnNone));
      }
      var i := found.value;
      users := users[i := users[i].(confirmed := true)];
      r := Ok(());
    }

    /** `update_avatar_url`: like `confirmed_email`, unguarded against a missing row. */
    method UpdateAvatarUrl(email: string, url: string) returns (r: Result<User>)
      requires Valid()
      modifies this
      ensures Valid() && nextId == old(nextId)
      ensures IndexWhere(old(users), ByEmail(email)).None? ==> r == Err(Fault(AttributeOnNone)) && users == old(users)
      ensures IndexWhere(old(users), ByEmail(email)).Some? ==>
        && users == WithAvatar(old(users), email, url)
        && r == Ok(old(users)[IndexWhere(old(users), ByEmail(email)).value].(avatar := Some(url)))
    {
      var found := IndexWhere(users, ByEmail(email));
      if found.None? {
        return Err(Fault(AttributeOnNone));
      }
      var i := found.value;
      var u := users[i].(avatar := Some(url));
      users := users[i := u];
      r := Ok(u);
    }

    /** `set_refresh_token`: a no-op for an unknown id. */
    method SetRefreshToken(userId: int, token: string)
      requires Valid()
      modifies this
      ensures Valid() && nextId == old(nextId)
      ensures users == WithRefreshToken(old(users), userId, token)
    {
      var found := IndexWhere(users, ById(userId));
      if found.Some? {
        var i := found.value;
        users := users[i := users[i].(refreshToken := Some(token))];
      }
    }
  }

  /** Confirming twice is confirming once. */
  lemma {:induction false} ConfirmIsIdempotent(us: seq<User>, email: string)
    ensures WithConfirmed(WithConfirmed(us, email), email) == WithConfirmed(us, email)
  {
    var once := WithConfirmed(us, email);
    match IndexWhere(us, ByEmail(email))
    case None =>
    case Some(i) =>
      FirstMatchUnchanged(us, once, i, ByEmail(email));
  }

  /** After `confirmed_email` the row with that email is confirmed, so the
      confirmation endpoint takes its "already confirmed" branch next time. */
  lemma {:induction false} ConfirmSetsFlag(us: seq<User>, email: string)
    requires IndexWhere(us, ByEmail(email)).Some?
    ensures IndexWhere(WithConfirmed(us, email), ByEmail(email)).Some?
    ensures WithConfirmed(us, email)[IndexWhere(WithConfirmed(us, email), ByEmail(email)).value].confirmed
  {
    var i := IndexWhere(us, ByEmail(email)).value;
    FirstMatchUnchanged(us, WithConfirmed(us, email), i, ByEmail(email));
  }

  /** Only the latest refresh token is kept. */
  lemma {:induction false} LatestRefreshTokenWins(us: seq<User>, id: int, t1: string, t2: string)
    ensures WithRefreshToken(WithRefreshToken(us, id, t1), id, t2) == WithRefreshToken(us, id, t2)
  {
    var once := WithRefreshToken(us, id, t1);
    match IndexWhere(us, ById(id))
    case None =>
    case Some(i) =>
      FirstMatchUnchanged(us, once, i, ById(id));
  }

  /** When a write changes no column that `key` looks at, the first row holding
      `key` is where it was. */
  lemma {:induction false} FirstMatchUnchanged(us: seq<User>, us': seq<User>, i: nat, key: UserKey)
    requires |us'| == |us| && IndexWhere(us, key) == Some(i)
    requires forall j :: 0 <= j < |us| ==> HasKey(us'[j], key) == HasKey(us[j], key)
    ensures IndexWhere(us', key) == Some(i)
  {
  }

  /** Each write keeps the table constraints: none of them touches a key column. */
  lemma {:induction false} WritesKeepKeys(us: seq<User>, email: string, url: string, id: int, token: string)
    requires UserKeysUnique(us)
    ensures UserKeysUnique(WithConfirmed(us, email))
    ensures UserKeysUnique(WithAvatar(us, email, url))
    ensures UserKeysUnique(WithRefreshToken(us, id, token))
  {
    SameKeysKeepUnique(us, WithConfirmed(us, email));
    SameKeysKeepUnique(us, WithAvatar(us, email, url));
    SameKeysKeepUnique(us, WithRefreshToken(us, id, token));
  }

  /** A table whose rows hold the same key columns, position by position, is as unique. */
  lemma SameKeysKeepUnique(us: seq<User>, us': seq<User>)
    requires UserKeysUnique(us) && |us'| == |us|
    requires forall j :: 0 <= j < |us| ==>
      us'[j].id == us[j].id && us'[j].username == us[j].username && us'[j].email == us[j].email
    ensures UserKeysUnique(us')
  {
  }

  /** No write clears the confirmation flag: a confirmed row stays confirmed. */
  lemma {:induction false} ConfirmedNeverCleared(us: seq<User>, email: string, url: string, id: int, token: string)
    ensures forall j :: 0 <= j < |us| && us[j].confirmed ==>
      && WithConfirmed(us, email)[j].confirmed
      && WithAvatar(us, email, url)[j].confirmed
      && WithRefreshToken(us, id, token)[j].confirmed
  {
  }

  /** The writes keep every user id in place, so each contact's owner still exists;
      an inserted user adds an id and removes none. */
  lemma {:induction false} WritesKeepOwners(cs: seq<Contact>, us: seq<User>, email: string, url: string,
                                            id: int, token: string, added: User)
    requires OwnersExist(cs, us)
    ensures OwnersExist(cs, WithConfirmed(us, email))
    ensures OwnersExist(cs, WithAvatar(us, email, url))
    ensures OwnersExist(cs, WithRefreshToken(us, id, token))
    ensures OwnersExist(cs, us + [added])
  {
    var a, b, d := WithConfirmed(us, email), WithAvatar(us, email, url), WithRefreshToken(us, id, token);
    forall c | c in cs
      ensures exists u :: u in a && u.id == c.userId
      ensures exists u :: u in b && u.id == c.userId
      ensures exists u :: u in d && u.id == c.userId
      ensures exists u :: u in us + [added] && u.id == c.userId
    {
      var u :| u in us && u.id == c.userId;
      var k :| 0 <= k < |us| && us[k] == u;
      assert a[k] in a && b[k] in b && d[k] in d && (us + [added])[k] == u;
    }
  }

  /** Under the UNIQUE constraints each lookup finds THE user with that key. */
  lemma {:induction false} LookupsFindTheUser(repo: UserRepository, u: User)
    requires repo.Valid() && u in repo.users
    ensures repo.GetUserById(u.id) == Some(u)
    ensures repo.GetUserByUsername(u.username) == Some(u)
    ensures repo.GetUserByEmail(u.email) == Some(u)
  {
    var k :| 0 <= k < |repo.users| && repo.users[k] == u;
    var a := repo.GetUserById(u.id).value;
    var b := repo.GetUserByUsername(u.username).value;
    var c := repo.GetUserByEmail(u.email).value;
    var ka :| 0 <= ka < |repo.users| && repo.users[ka] == a;
    var kb :| 0 <= kb < |repo.users| && repo.users[kb] == b;
    var kc :| 0 <= kc < |repo.users| && repo.users[kc] == c;
    assert ka == k && kb == k && kc == k;
  }
}
