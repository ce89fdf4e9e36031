# Contacts API — a Dafny model

This is a model of the core of a contacts REST service written with FastAPI and
SQLAlchemy. Each user registers, confirms their email address through a token
sent by mail, logs in for a bearer JWT, and keeps a private address book of
contacts. The model replaces the database with in-memory tables and keeps the
rules the repositories and handlers apply to them:

- `Models` (`models.dfy`): the `users` and `contacts` rows. The table
  constraints are predicates: unique ids, the table-wide unique contact email,
  unique usernames and user emails, and the owner link with its cascading
  delete. The column defaults of a new user are included.
- `Schemas` (`schemas.dfy`): the request and response bodies, their length
  bounds and `None` defaults, and the serialisation of a row into a response
  body.
- `Contacts` (`contacts.dfy`): `ContactRepository`, a class over the
  `contacts` table. Every operation is scoped to the requesting user. It has
  listing with search and paging, lookup, create, full-replace update, remove
  and the seven-day birthday query.
- `Users` (`users.dfy`): `UserRepository`, a class over the `users` table. It
  has the three lookups, create, and the in-place writes of the confirmation
  flag, the avatar and the refresh token.
- `AuthService` (`auth_service.dfy`): the claims and expiry of access and
  email tokens, reading an email back from a token, and resolving the calling
  user from a bearer token.
- `AuthApi` (`auth_api.dfy`): the decisions of the `/auth` endpoints: register,
  login, confirm email and request another confirmation email. The
  background-task queue of a handler is a sequence it returns.
- `Common` (`common.dfy`): `Option`, `Result` and failures, plus the
  generic sequence operations the queries are built from. These are first
  match, filter, offset/limit, a stable sort and case-insensitive substring
  search under the case folding of the database collation, which is a parameter.

The JWT library and the bcrypt hasher are abstract values passed in. Each
comes with one assumed property, stated as a `requires` where it is used:

- decoding inverts encoding while the `exp` claim is not past;
- a password verifies against its own hash.

Time is an integer number of seconds passed in as `now`. A DATE column holds a
day number.

Behaviours kept as the code has them:

- `request_email` reads `user.confirmed` before it checks for a missing user,
  so an unknown email is a fault, not a response.
- `UserRepository.confirmed_email` and `update_avatar_url` do not guard
  against a missing row.
- A token without `sub` raises `KeyError`, which is not the 401 that other
  token failures give.
- A unique-constraint violation on insert or update is an `IntegrityError`
  fault, and the table is left unchanged (rollback).
- `update_contact` writes every field of the body, including `None` for
  fields the request left out. A partial update therefore stores NULLs, and
  the row then no longer serialises as a `ContactResponse`.
- `get_birthdays` compares the DATE column with the current datetime. On
  PostgreSQL the date is taken as midnight, so today's date is listed only
  when `now` is exactly midnight. Whole dates are compared, year included. No anniversary is
  computed, so a birth date in a past year is never listed.
- `create_access_token` treats an `expires_delta` of 0 like an absent one,
  because 0 is falsy.

## Model

| member | source | states |
|---|---|---|
| Common.Filter | src/repository/contacts.py:51-59 | a WHERE clause keeps exactly the rows satisfying it, as a sub-multiset |
| Common.FilterAppend | src/repository/contacts.py:51-59 | filtering distributes over concatenation, so the kept rows stay in table order |
| Common.Page | src/repository/contacts.py:51 | OFFSET `skip` LIMIT `limit` gives the rows from position `skip` on, at most `limit` of them, with the exact length |
| Common.SortBy | src/repository/contacts.py:152 | ORDER BY gives a permutation of its input sorted by the key |
| Models.NewUser | src/database/models.py:71-73 | a fresh user row is unconfirmed, has no refresh token and holds the given id, keys, hash, creation time and avatar |
| Models.DeleteUser | src/database/models.py:49 | deleting a user removes exactly that user and, by ON DELETE CASCADE, exactly its contacts (a SQL `DELETE`; an ORM `session.delete` would first set the contacts' `user_id` to NULL, since the backref has no delete cascade, and no code path deletes users); unique keys and the owner link are preserved |
| Models.FilterKeepsUserKeys | src/database/models.py:67-69 | removing users keeps user ids, usernames and emails unique |
| Models.FilterKeepsContactKeys | src/database/models.py:42-45 | removing contacts keeps contact ids and non-NULL emails unique |
| Schemas.ContactToResponse | src/schemas.py:24-62 | a row serialises as a `ContactResponse` if and only if its required columns are non-NULL and within the length bounds; then the id and fields are the row's and the birth date is the stored day at midnight |
| Schemas.UserToView | src/schemas.py:68-75 | a user row serialises as the public `User` body exactly when it has an avatar; the body holds only id, username, email and avatar |
| Schemas.UserViewHidesSecrets | src/schemas.py:72-75 | the public body does not depend on the password hash, the confirmation flag or the refresh token |
| Contacts.DayOf | src/database/models.py:47 | a DATE column keeps the calendar day containing the submitted datetime |
| Contacts.ApplyUpdate | src/repository/contacts.py:109-114 | an update replaces all six fields with the body's values (None included) and keeps the id and the owner |
| Contacts.IndexOf | src/repository/contacts.py:74 | finds a row with both the id and the owner, or reports that none exists |
| Contacts.ContactRepository.Matching | src/repository/contacts.py:51-59 | a row passes the listing filter if and only if the user owns it and, for a non-empty query, its first name, last name or email contains the query once both are case-folded by the collation's fold |
| Contacts.ContactRepository.GetContacts | src/repository/contacts.py:38-61 | at most `limit` rows, all owned and matching, equal to the matching rows from position `skip` on; a full page when enough rows match |
| Contacts.ContactRepository.GetContactById | src/repository/contacts.py:63-76 | returns a row only when both the id and the owner match, None exactly when there is none; another user's contact is invisible |
| Contacts.ContactRepository.GetBirthdays | src/repository/contacts.py:136-155 | exactly the user's contacts dated within [now, now + 7 days] (date at midnight), sorted ascending by birth date, each a stored row |
| Contacts.ContactRepository.CreateContact | src/repository/contacts.py:78-93 | appends exactly one row, owned by the user, with the body's fields and an id no stored row holds, leaving the other rows unchanged; an email held by another row fails with IntegrityError and no change |
| Contacts.ContactRepository.UpdateContact | src/repository/contacts.py:95-117 | a missing or foreign id gives None and no change; otherwise only the matched row is replaced by the full update, unless the new email is another row's, which fails with no change |
| Contacts.ContactRepository.RemoveContact | src/repository/contacts.py:119-134 | a missing or foreign id gives None and no change; otherwise the matched row is returned and removed, the rest kept in order |
| Contacts.RemovalKeepsKeys | src/repository/contacts.py:130-133 | removing a row keeps contact ids and emails unique |
| Contacts.RemoveDeletesExactlyOne | src/repository/contacts.py:130-134 | after a removal the table holds exactly the former rows with a different id |
| Contacts.ContactWritesKeepOwners | src/database/models.py:49 | create, update and remove keep every contact's owner an existing user |
| Contacts.CreatedContactReadsBack | src/repository/contacts.py:89-93 | a created contact serialises back to the submitted body, with the birth date truncated to midnight |
| Contacts.FullUpdateReadsBack | src/repository/contacts.py:107-117 | an update body with every required field present and within the `ContactUpdate` bounds leaves a row that serialises back to that body, birth date at midnight, under the same id |
| Contacts.PartialUpdateHasNoResponse | src/repository/contacts.py:109-114 | an update body that leaves out a required field stores NULL, and the row no longer serialises as a `ContactResponse` |
| Contacts.BirthdayWindowInDays | src/repository/contacts.py:146-151 | in whole days, the window runs from today (only when now is midnight; otherwise from tomorrow) to today + 7 |
| Contacts.BirthdaysTomorrowNotTenDays | src/repository/contacts.py:146-152 | the user's contact born tomorrow is listed; one born ten days ahead is not |
| Contacts.PastBirthDatesNeverListed | src/repository/contacts.py:149-151 | whole dates are compared, so a birth date before today is never listed |
| Contacts.UnfilteredFirstPageIsComplete | src/repository/contacts.py:51-52 | with no or an empty query, the first page lists every contact of the user when they fit under the limit |
| Users.IndexWhere | src/repository/users.py:49-81 | finds a row holding the key (id, username or email), or reports that none exists |
| Users.WithConfirmed | src/repository/users.py:113-114 | only the row with the email becomes confirmed; every other row is unchanged; an unknown email changes nothing |
| Users.WithAvatar | src/repository/users.py:129-130 | only the avatar of the row with the email changes; every other row is unchanged |
| Users.WithRefreshToken | src/repository/users.py:144-146 | only the refresh token of the row with the id changes; an unknown id changes nothing |
| Users.UserRepository.GetUserById | src/repository/users.py:39-51 | returns a stored user with that id, None exactly when there is none |
| Users.UserRepository.GetUserByUsername | src/repository/users.py:54-66 | returns a stored user with that username, None exactly when there is none |
| Users.UserRepository.GetUserByEmail | src/repository/users.py:69-81 | returns a stored user with that email, None exactly when there is none |
| Users.UserRepository.CreateUser | src/repository/users.py:84-103 | appends one unconfirmed row whose `hashedPassword` is the body's (already hashed) password, whose avatar is the argument and whose id no stored row holds; a taken username or email fails with IntegrityError and no change |
| Users.UserRepository.ConfirmedEmail | src/repository/users.py:106-115 | confirms the row with the email and changes nothing else; an unknown email faults and changes nothing |
| Users.UserRepository.UpdateAvatarUrl | src/repository/users.py:118-133 | sets only the matched user's avatar and returns that user; an unknown email faults and changes nothing |
| Users.UserRepository.SetRefreshToken | src/repository/users.py:136-147 | replaces the matched user's refresh token; an unknown id changes nothing |
| Users.ConfirmIsIdempotent | src/repository/users.py:113-115 | confirming twice equals confirming once |
| Users.ConfirmSetsFlag | src/repository/users.py:113-114 | after a confirmation, the row found by that email is confirmed |
| Users.LatestRefreshTokenWins | src/repository/users.py:144-147 | setting two refresh tokens in a row equals setting only the second |
| Users.WritesKeepKeys | src/database/models.py:67-69 | the three writes keep user ids, usernames and emails unique |
| Users.ConfirmedNeverCleared | src/repository/users.py:114 | no write turns a confirmed user back to unconfirmed |
| Users.WritesKeepOwners | src/database/models.py:49 | the user writes and a user insert keep every contact's owner an existing user |
| Users.LookupsFindTheUser | src/database/models.py:67-69 | under the unique constraints, each lookup by a stored user's id, username or email returns that user |
| AuthService.AccessExpiry | src/services/auth.py:71-74 | `exp` is now + `expires_delta` for a non-zero delta, otherwise now + the configured lifetime (3600 by default) |
| AuthService.AccessClaims | src/services/auth.py:70-75 | the claims are a copy of the input with `exp` added, so the caller's map is untouched |
| AuthService.EmailClaims | src/services/auth.py:121-123 | the claims are a copy of the input with `iat` = now and `exp` = now + 7 days |
| AuthService.Decode | src/services/auth.py:100-102 | the library's decode succeeds exactly when the signature and expiry pass and a present `sub` is a string |
| AuthService.GetEmailFromToken | src/services/auth.py:127-145 | returns the token's `sub`, always a string; a token that does not decode gives 422, and a missing `sub` raises KeyError |
| AuthService.GetCurrentUser | src/services/auth.py:81-112 | returns the stored user whose username is the token's `sub`, and does so whenever such a user exists; fails with 401 when decoding fails, `sub` is null or no user matches; a missing `sub` raises KeyError |
| AuthService.NonStringSubjectRefused | src/services/auth.py:136-145 | a signed token whose `sub` is not a string gives 422 on email confirmation and 401 on user resolution |
| AuthService.EmailTokenRoundTrip | src/services/auth.py:121-140 | an email token for `e` gives `e` back until it expires, since both token kinds share one key |
| AuthService.AccessTokenResolvesUser | src/services/auth.py:62-112 | an access token issued for a stored user resolves to that user until it expires |
| AuthApi.KeysDetermineUser | src/database/models.py:68-69 | a username or an email names at most one user |
| AuthApi.RegisterUser | src/api/auth.py:28-64 | a taken email gives 409 first, then a taken username gives 409, both with no change to the table or the id sequence; otherwise exactly one unconfirmed user with the hashed password and a fresh id is created and one confirmation email is queued |
| AuthApi.LoginUser | src/api/auth.py:68-96 | an unknown user and a wrong password give the same 401; correct credentials on an unconfirmed account give the "not confirmed" 401; otherwise a bearer token whose subject is the username |
| AuthApi.LoginWithOwnPassword | src/api/auth.py:83-96 | a stored user logging in with the password whose hash was stored gets a token when confirmed and the "not confirmed" 401 otherwise |
| AuthApi.LoginTokenResolvesUser | src/api/auth.py:95-96 | the token a login returns is a bearer token that resolves to the user who logged in, for the configured lifetime |
| AuthApi.ConfirmedEmail | src/api/auth.py:100-121 | a bad token fails as `get_email_from_token` does; an unknown email gives 400; an already confirmed user gets the "already confirmed" message and no change; otherwise the user is confirmed; the id sequence is never touched |
| AuthApi.RequestEmail | src/api/auth.py:125-154 | an unknown email faults; a confirmed user gets the "already confirmed" message and nothing is queued; an unconfirmed user gets exactly one queued email; no user is written |

## Left out

- JWT signing and verification (`jose.jwt`) and bcrypt hashing (`passlib`) are foreign libraries. They are abstract function values. The only properties assumed are that decoding inverts encoding before expiry and that a password verifies against its own hash. Signature forgery, the algorithm list and bcrypt's 72-byte truncation are not modelled.
- `CreateAccessToken` and `CreateEmailToken` are the encoder applied to `AccessClaims` and `EmailClaims`. Their properties are stated on those claim functions and in the round-trip lemmas.
- `create_email_token` reads the clock twice, once for `exp` and once for `iat`. The model uses one `now` for both.
- SQLAlchemy sessions, commit, refresh, rollback and the async machinery are replaced by in-memory sequences. A failed commit is a rollback to the prior table.
- GetBirthdays: the DATE-against-datetime comparison follows PostgreSQL, which takes the date as midnight. SQLite compares the two as text, so there today's date is never listed; that backend is not modelled.
- CreateContact, CreateUser: the new row's id is promised only to be held by no stored row. Which value the database picks is not modelled. A PostgreSQL sequence does not give back a value used by a refused insert, and SQLite takes the largest rowid plus one.
- SetRefreshToken: the ORM `User` class in src/database/models.py:53-73 maps no `refresh_token` column. As written, the assignment at src/repository/users.py:146 sets an unmapped attribute, so the commit stores nothing. The model stores the token in the nullable column that the migration adds, which is what the code evidently intends.
- Rows listed without ORDER BY come back in table (insertion) order. A real database promises no order.
- `GetContacts`: `skip` and `limit` are natural numbers. What the database does with negative values is not modelled.
- `ContactRepository.Matching`: `ilike` is modelled as a substring test after case folding, with the collation's fold as a parameter. The `%` and `_` wildcards inside a query are matched literally.
- `Decode`: of the claim checks python-jose makes, only the `sub` type check and `exp` are modelled. The `iat`, `nbf`, `aud` and `iss` checks are not.
- `EmailStr` validation of email syntax is not modelled. Only the length bounds are.
- Email delivery (`send_email`) is an external side effect. It appears only as an entry appended to the handler's task queue.
- The Gravatar lookup, the Cloudinary upload and the five-per-minute rate limiter are network and library calls. The avatar URL is an input to user creation and to `UpdateAvatarUrl`.
- `src/services/contacts.py`, `src/services/users.py` and the route wiring in `src/api/contacts.py` only forward calls. The routes map a None result to 404, which the repositories' `Option` results already carry.
- The health check, settings loading and the Alembic migration are not part of this model. The model keeps only the default `JWT_EXPIRATION_SECONDS = 3600` and the nullable `refresh_token` column.
- The wall clock is an input: `now` is in seconds since the epoch, and `datetime.today()` is taken as that same `now`.
