/** The two tables of the relational store, `users` and `contacts`, and the
    constraints the schema declares on them: primary keys, unique columns, the
    column defaults and the owner link with its cascading delete. */
module Models {
  import opened Common

  const SecondsPerDay := 86400

  /** A row of `contacts`. Every column but the key is nullable, so an update may
      store NULL in any of them; `birthDate` is a DATE column, held as a day number
      (days since the epoch). `userId` is the owning user. */
  datatype Contact = Contact(
    id: int,
    firstName: Option<string>,
    lastName: Option<string>,
    email: Option<string>,
    phone: Option<string>,
    birthDate: Option<int>,
    additionalData: Option<string>,
    userId: int)

  /** A row of `users`, with the nullable `refresh_token` column that the
      migration adds to the table. `createdAt` is a timestamp in seconds. */
  datatype User = User(
    id: int,
    username: string,
    email: string,
    hashedPassword: string,
    createdAt: int,
    avatar: Option<string>,
    confirmed: bool,
    refreshToken: Option<string>)

  /** The primary key and the UNIQUE email column of `contacts`. Uniqueness is
      table-wide, not per owner; NULL emails never collide. */
  predicate ContactKeysUnique(cs: seq<Contact>) {
    forall i, j :: 0 <= i < |cs| && 0 <= j < |cs| && i != j ==>
      cs[i].id != cs[j].id && (cs[i].email.None? || cs[i].email != cs[j].email)
  }

  /** The primary key and the UNIQUE username and email columns of `users`. */
  predicate UserKeysUnique(us: seq<User>) {
    forall i, j :: 0 <= i < |us| && 0 <= j < |us| && i != j ==>
      us[i].id != us[j].id && us[i].username != us[j].username && us[i].email != us[j].email
  }

  /** The foreign key `contacts.user_id -> users.id`. */
  ghost predicate OwnersExist(cs: seq<Contact>, us: seq<User>) {
    forall c :: c in cs ==> exists u :: u in us && u.id == c.userId
  }

  /** The row a fresh insert into `users` gets from the column defaults: not
      confirmed and without a refresh token. */
  function NewUser(id: int, username: string, email: string, hashedPassword: string,
                   createdAt: int, avatar: Option<string>): (u: User)
    ensures !u.confirmed && u.refreshToken.None?
    ensures u.id == id && u.username == username && u.email == email
    ensures u.hashedPassword == hashedPassword && u.avatar == avatar && u.createdAt == createdAt
  {
    User(id, username, email, hashedPassword, createdAt, avatar, false, None)
  }

  /** Deleting the user `uid`: ON DELETE CASCADE removes that user's contacts with it. */
  function DeleteUser(us: seq<User>, cs: seq<Contact>, uid: int): (r: (seq<User>, seq<Contact>))
    ensures forall u :: u in r.0 <==> u in us && u.id != uid
    ensures forall c :: c in r.1 <==> c in cs && c.userId != uid
    ensures UserKeysUnique(us) ==> UserKeysUnique(r.0)
    ensures ContactKeysUnique(cs) ==> ContactKeysUnique(r.1)
    ensures OwnersExist(cs, us) ==> OwnersExist(r.1, r.0)
  {
    var us' := Filter(us, (u: User) => u.id != uid);
    var cs' := Filter(cs, (c: Contact) => c.userId != uid);
    FilterKeepsUserKeys(us, uid);
    FilterKeepsContactKeys(cs, uid);
    (us', cs')
  }

  lemma {:induction false} FilterKeepsUserKeys(us: seq<User>, uid: int)
    ensures UserKeysUnique(us) ==> UserKeysUnique(Filter(us, (u: User) => u.id != uid))
  {
    if |us| > 0 && UserKeysUnique(us) {
      FilterKeepsUserKeys(us[1..], uid);
      var rest := Filter(us[1..], (u: User) => u.id != uid);
      forall u | u in rest ensures u.id != us[0].id && u.username != us[0].username && u.email != us[0].email {
        var k :| 0 <= k < |us[1..]| && us[1..][k] == u;
        assert us[k + 1] == u;
      }
    }
  }

  lemma {:induction false} FilterKeepsContactKeys(cs: seq<Contact>, uid: int)
    ensures ContactKeysUnique(cs) ==> ContactKeysUnique(Filter(cs, (c: Contact) => c.userId != uid))
  {
    if |cs| > 0 && ContactKeysUnique(cs) {
      FilterKeepsContactKeys(cs[1..], uid);
      var rest := Filter(cs[1..], (c: Contact) => c.userId != uid);
      forall c | c in rest ensures c.id != cs[0].id && (cs[0].email.None? || cs[0].email != c.email) {
        var k :| 0 <= k < |cs[1..]| && cs[1..][k] == c;
        assert cs[k + 1] == c;
      }
    }
  }
}
