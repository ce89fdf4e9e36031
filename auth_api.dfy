/** The decisions of the `/auth` endpoints: registration, login, email confirmation
    and the request for a new confirmation email. A handler's `BackgroundTasks`
    queue is the sequence `tasks`; each handler returns it with what it queued. */
module AuthApi {
  import opened Common
  import opened Models
  import Schemas
  import opened Users
  import opened AuthService

  const EmailTakenDetail := "Користувач з таким email вже існує"
  const UsernameTakenDetail := "Користувач з таким іменем вже існує"
  const BadCredentialsDetail := "Неправильний логін або пароль"
  const NotConfirmedDetail := "Електронна адреса не підтверджена"
  const VerificationErrorDetail := "Verification error"
  const AlreadyConfirmedMessage := "Ваша електронна пошта вже підтверджена"
  const EmailConfirmedMessage := "Електронну пошту підтверджено"
  const CheckEmailMessage := "Перевірте свою електронну пошту для підтвердження"
  const BearerTokenType := "bearer"

  /** A queued `send_email(email, username, base_url)`. */
  datatype EmailTask = EmailTask(email: string, username: string, baseUrl: string)

  /** The OAuth2 password form of the login request. */
  datatype LoginForm = LoginForm(username: string, password: string)

  /** In a table with unique keys, a username or an email names at most one user. */
  lemma KeysDetermineUser(us: seq<User>)
    requires UserKeysUnique(us)
    ensures forall a, b :: a in us && b in us && a.username == b.username ==> a == b
    ensures forall a, b :: a in us && b in us && a.email == b.email ==> a == b
  {
    forall a, b | a in us && b in us && (a.username == b.username || a.email == b.email) ensures a == b {
      var i :| 0 <= i < |us| && us[i] == a;
      var j :| 0 <= j < |us| && us[j] == b;
      assert i == j;
    }
  }

  /** `register_user`: a taken email is refused first, then a taken username, both
      with 409 and no change; otherwise the password is hashed, exactly one
      unconfirmed user is created and one confirmation email is queued. */
  method RegisterUser(repo: UserRepository, userData: Schemas.UserCreate, baseUrl: string, avatar: Option<string>,
                      salt: int, now: int, hasher: Hasher, tasks: seq<EmailTask>)
    returns (r: Result<User>, queued: seq<EmailTask>)
    requires repo.Valid()
    modifies repo
    ensures repo.Valid()
    ensures (exists u :: u in old(repo.users) && u.email == userData.email) ==>
      && r == Err(Http(409, EmailTakenDetail)) && queued == tasks
      && repo.users == old(repo.users) && repo.nextId == old(repo.nextId)
    ensures (forall u :: u in old(repo.users) ==> u.email != userData.email) &&
            (exists u :: u in old(repo.users) && u.username == userData.username) ==>
      && r == Err(Http(409, UsernameTakenDetail)) && queued == tasks
      && repo.users == old(repo.users) && repo.nextId == old(repo.nextId)
    ensures (forall u :: u in old(repo.users) ==> u.email != userData.email && u.username != userData.username) ==>
      && r.Ok?
      && r.value == NewUser(r.value.id, userData.username, userData.email, hasher.hash(userData.password, salt), now, avatar)
      && (forall u :: u in old(repo.users) ==> u.id != r.value.id)
      && repo.users == old(repo.users) + [r.value]
      && repo.nextId >= old(repo.nextId)
      && queued == tasks + [EmailTask(userData.email, userData.username, baseUrl)]
  {
    queued := tasks;
    if repo.GetUserByEmail(userData.email).Some? {
      return Err(Http(409, EmailTakenDetail)), queued;
    }
    if repo.GetUserByUsername(userData.username).Some? {
      return Err(Http(409, UsernameTakenDetail)), queued;
    }
    var hashed := userData.(password := hasher.hash(userData.password, salt));
    var created := repo.CreateUser(hashed, avatar, now);
    assert created.Ok?;
    var u := created.value;
    queued := tasks + [EmailTask(u.email, u.username, baseUrl)];
    r := Ok(u);
  }

  /** `login_user`: an unknown username and a wrong password give the same 401;
      only correct credentials reach the confirmation check; a confirmed user gets
      a bearer access token whose subject is the username. Nothing is written. */
  function LoginUser(repo: UserRepository, form: LoginForm, hasher: Hasher, settings: Settings, jwt: JwtCodec, now: int): (r: Result<Schemas.Token>)
    reads repo
    requires repo.Valid()
    ensures r == Err(Http(401, BadCredentialsDetail)) <==>
      forall u :: u in repo.users && u.username == form.username ==> !hasher.verify(form.password, u.hashedPassword)
    ensures r == Err(Http(401, NotConfirmedDetail)) <==>
      exists u :: u in repo.users && u.username == form.username && hasher.verify(form.password, u.hashedPassword) && !u.confirmed
    ensures r.Ok? <==>
      exists u :: u in repo.users && u.username == form.username && hasher.verify(form.password, u.hashedPassword) && u.confirmed
    ensures r.Ok? ==>
      r.value == Schemas.Token(CreateAccessToken(map[SubClaim := Str(form.username)], None, now, settings, jwt), BearerTokenType)
  {
    KeysDetermineUser(repo.users);
    match repo.GetUserByUsername(form.username)
    case None => Err(Http(401, BadCredentialsDetail))
    case Some(u) =>
      if !hasher.verify(form.password, u.hashedPassword) then Err(Http(401, BadCredentialsDetail))
      else if !u.confirmed then Err(Http(401, NotConfirmedDetail))
      else Ok(Schemas.Token(CreateAccessToken(map[SubClaim := Str(u.username)], None, now, settings, jwt), BearerTokenType))
  }

  /** A stored user logging in with the password whose hash was stored: a token when
      confirmed, the "not confirmed" 401 otherwise (so right after registering). */
  lemma {:induction false} LoginWithOwnPassword(repo: UserRepository, u: User, password: string, salt: int,
                                                hasher: Hasher, settings: Settings, jwt: JwtCodec, now: int)
    requires VerifiesOwnHash(hasher)
    requires repo.Valid() && u in repo.users && u.hashedPassword == hasher.hash(password, salt)
    ensures u.confirmed ==> LoginUser(repo, LoginForm(u.username, password), hasher, settings, jwt, now).Ok?
    ensures !u.confirmed ==> LoginUser(repo, LoginForm(u.username, password), hasher, settings, jwt, now) == Err(Http(401, NotConfirmedDetail))
  {
    assert hasher.verify(password, hasher.hash(password, salt));
  }

  /** The token a login returns resolves to the user who logged in, for the
      configured lifetime. */
  lemma {:induction false} LoginTokenResolvesUser(repo: UserRepository, form: LoginForm, hasher: Hasher,
                                                  settings: Settings, jwt: JwtCodec, now: int, later: int)
    requires DecodeInvertsEncode(jwt) && repo.Valid()
    requires LoginUser(repo, form, hasher, settings, jwt, now).Ok?
    requires later <= now + settings.jwtExpirationSeconds
    ensures var token := LoginUser(repo, form, hasher, settings, jwt, now).value;
      token.tokenType == BearerTokenType &&
      var current := GetCurrentUser(token.accessToken, later, settings, jwt, repo);
      current.Ok? && current.value in repo.users && current.value.username == form.username
  {
    var u :| u in repo.users && u.username == form.username && hasher.verify(form.password, u.hashedPassword) && u.confirmed;
    AccessTokenResolvesUser(repo, u, None, now, later, settings, jwt);
    LookupsFindTheUser(repo, u);
  }

  /** The string subject of an email token; any other claim value names no email. */
  function EmailOf(v: ClaimValue): Option<string> {
    match v
    case Str(s) => Some(s)
    case _ => None
  }

  /** `confirmed_email`: an undecodable token fails as `get_email_from_token` does;
      an email of no user is a 400; an already confirmed user gets the "already
      confirmed" message and nothing changes; otherwise the user is confirmed. */
  method ConfirmedEmail(token: string, repo: UserRepository, now: int, settings: Settings, jwt: JwtCodec)
    returns (r: Result<string>)
    requires repo.Valid()
    modifies repo
    ensures repo.Valid() && repo.nextId == old(repo.nextId)
    ensures match GetEmailFromToken(token, now, settings, jwt)
      case Err(f) => r == Err(f) && repo.users == old(repo.users)
      case Ok(v) =>
        if EmailOf(v).None? || IndexWhere(old(repo.users), ByEmail(EmailOf(v).value)).None? then
          r == Err(Http(400, VerificationErrorDetail)) && repo.users == old(repo.users)
        else if old(repo.users)[IndexWhere(old(repo.users), ByEmail(EmailOf(v).value)).value].confirmed then
          r == Ok(AlreadyConfirmedMessage) && repo.users == old(repo.users)
        else
          r == Ok(EmailConfirmedMessage) && repo.users == WithConfirmed(old(repo.users), EmailOf(v).value)
  {
    var decoded := GetEmailFromToken(token, now, settings, jwt);
    if decoded.Err? {
      return Err(decoded.failure);
    }
    var email := EmailOf(decoded.value);
    var user := if email.Some? then repo.GetUserByEmail(email.value) else None;
    if user.None? {
      return Err(Http(400, VerificationErrorDetail));
    }
    if user.value.confirmed {
      return Ok(AlreadyConfirmedMessage);
    }
    var done := repo.ConfirmedEmail(email.value);
    r := Ok(EmailConfirmedMessage);
  }

  /** `request_email`: reads `user.confirmed` before checking for a missing user, so
      an unknown email faults; a confirmed user gets the "already confirmed"
      message; an unconfirmed one gets exactly one more email queued. No user is
      written. */
  method RequestEmail(repo: UserRepository, body: Schemas.RequestEmail, baseUrl: string, tasks: seq<EmailTask>)
    returns (r: Result<string>, queued: seq<EmailTask>)
    requires repo.Valid()
    ensures IndexWhere(repo.users, ByEmail(body.email)).None? ==> r == Err(Fault(AttributeOnNone)) && queued == tasks
    ensures IndexWhere(repo.users, ByEmail(body.email)).Some? ==>
      var u := repo.users[IndexWhere(repo.users, ByEmail(body.email)).value];
      if u.confirmed then r == Ok(AlreadyConfirmedMessage) && queued == tasks
      else r == Ok(CheckEmailMessage) && queued == tasks + [EmailTask(u.email, u.username, baseUrl)]
  {
    queued := tasks;
    var user := repo.GetUserByEmail(body.email);
    if user.None? {
      return Err(Fault(AttributeOnNone)), queued;
    }
    if user.value.confirmed {
      return Ok(AlreadyConfirmedMessage), queued;
    }
    queued := tasks + [EmailTask(user.value.email, user.value.username, baseUrl)];
    r := Ok(CheckEmailMessage);
  }
}
