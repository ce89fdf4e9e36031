/** Token issue and verification, and the resolution of the calling user. The JWT
    library and the bcrypt hasher are not modelled: each is an abstract value whose
    only assumed property (decoding inverts encoding until expiry; a password
    verifies against its own hash) is a precondition where it is needed. */
module AuthService {
  import opened Common
  import opened Models
  import Users

  const DefaultJwtAlgorithm := "HS256"
  const DefaultJwtExpirationSeconds := 3600
  const EmailTokenLifetimeSeconds := 7 * SecondsPerDay

  const SubClaim := "sub"
  const ExpClaim := "exp"
  const IatClaim := "iat"

  const CredentialsDetail := "Could not validate credentials"
  const EmailTokenDetail := "Неправильний токен для перевірки електронної пошти"

  /** The settings the token functions read; both kinds of token are signed with
      the same secret and algorithm. */
  datatype Settings = Settings(
    jwtSecret: string,
    jwtAlgorithm: string := DefaultJwtAlgorithm,
    jwtExpirationSeconds: int := DefaultJwtExpirationSeconds)

  datatype Key = Key(secret: string, algorithm: string)

  function SigningKey(settings: Settings): Key {
    Key(settings.jwtSecret, settings.jwtAlgorithm)
  }

  /** A claim value: a string, a time in seconds, or JSON null. */
  datatype ClaimValue = Str(s: string) | Time(t: int) | Null

  type Claims = map<string, ClaimValue>

  /** `jwt.encode(claims, key)` and `jwt.decode(token, key, now)`; decoding gives
      None where the library raises `JWTError` (bad signature, expired, malformed). */
  datatype JwtCodec = JwtCodec(
    encode: (Claims, Key) -> string,
    decode: (string, Key, int) -> Option<Claims>)

  /** The library's expiry rule: an `exp` claim, when present, is a time not yet past. */
  predicate Unexpired(c: Claims, now: int) {
    ExpClaim in c ==> c[ExpClaim].Time? && now <= c[ExpClaim].t
  }

  ghost predicate DecodeInvertsEncode(jwt: JwtCodec) {
    forall c: Claims, k: Key, now: int :: Unexpired(c, now) ==> jwt.decode(jwt.encode(c, k), k, now) == Some(c)
  }

  /** The claim check `jwt.decode` makes once the signature and expiry pass: a `sub`
      claim, when present, must be a string, otherwise it raises `JWTClaimsError`,
      which is a `JWTError`. */
  predicate SubjectValid(c: Claims) {
    SubClaim in c ==> c[SubClaim].Str?
  }

  /** `jwt.decode(token, secret, algorithms=[algorithm])` as the handlers call it:
      None where the library raises `JWTError`. */
  function Decode(token: string, now: int, settings: Settings, jwt: JwtCodec): (r: Option<Claims>)
    ensures r.Some? <==> jwt.decode(token, SigningKey(settings), now).Some? && SubjectValid(jwt.decode(token, SigningKey(settings), now).value)
    ensures r.Some? ==> r == jwt.decode(token, SigningKey(settings), now)
  {
    match jwt.decode(token, SigningKey(settings), now)
    case Some(c) => if SubjectValid(c) then Some(c) else None
    case None => None
  }

  /** `Hash.get_password_hash(password)` with its random salt made an input, and
      `Hash.verify_password(plain, hashed)`. */
  datatype Hasher = Hasher(
    hash: (string, int) -> string,
    verify: (string, string) -> bool)

  ghost predicate VerifiesOwnHash(h: Hasher) {
    forall p: string, salt: int :: h.verify(p, h.hash(p, salt))
  }

  /** The `exp` of an access token: `now + expiresDelta` for a non-zero delta,
      otherwise (absent or 0) `now` plus the configured lifetime. */
  function AccessExpiry(expiresDelta: Option<int>, now: int, settings: Settings): (exp: int)
    ensures expiresDelta.Some? && expiresDelta.value != 0 ==> exp == now + expiresDelta.value
    ensures expiresDelta.None? || expiresDelta.value == 0 ==> exp == now + settings.jwtExpirationSeconds
  {
    match expiresDelta
    case Some(d) => if d != 0 then now + d else now + settings.jwtExpirationSeconds
    case None => now + settings.jwtExpirationSeconds
  }

  /** The claims of an access token: a copy of `data` with `exp` set; the caller's
      map is a value and stays as it was. */
  function AccessClaims(data: Claims, expiresDelta: Option<int>, now: int, settings: Settings): (c: Claims)
    ensures c.Keys == data.Keys + {ExpClaim}
    ensures c[ExpClaim] == Time(AccessExpiry(expiresDelta, now, settings))
    ensures forall k :: k in data && k != ExpClaim ==> c[k] == data[k]
  {
    data[ExpClaim := Time(AccessExpiry(expiresDelta, now, settings))]
  }

  /** `create_access_token`. */
  function CreateAccessToken(data: Claims, expiresDelta: Option<int>, now: int, settings: Settings, jwt: JwtCodec): string {
    jwt.encode(AccessClaims(data, expiresDelta, now, settings), SigningKey(settings))
  }

  /** The claims of an email-confirmation token: a copy of `data` with `iat = now`
      and `exp` seven days later. */
  function EmailClaims(data: Claims, now: int): (c: Claims)
    ensures c.Keys == data.Keys + {IatClaim, ExpClaim}
    ensures c[IatClaim] == Time(now) && c[ExpClaim] == Time(now + EmailTokenLifetimeSeconds)
    ensures forall k :: k in data && k != IatClaim && k != ExpClaim ==> c[k] == data[k]
  {
    data[IatClaim := Time(now)][ExpClaim := Time(now + EmailTokenLifetimeSeconds)]
  }

  /** `create_email_token`. */
  function CreateEmailToken(data: Claims, now: int, settings: Settings, jwt: JwtCodec): string {
    jwt.encode(EmailClaims(data, now), SigningKey(settings))
  }

  /** `get_email_from_token`: the `sub` claim, which the library has checked to be
      a string; a decoding failure is a 422, and a payload without `sub` raises
      KeyError, which nothing catches. */
  function GetEmailFromToken(token: string, now: int, settings: Settings, jwt: JwtCodec): (r: Result<ClaimValue>)
    ensures Decode(token, now, settings, jwt).None? <==> r == Err(Http(422, EmailTokenDetail))
    ensures r.Ok? <==>
      && Decode(token, now, settings, jwt).Some?
      && SubClaim in Decode(token, now, settings, jwt).value
    ensures r.Ok? ==> r.value == Decode(token, now, settings, jwt).value[SubClaim] && r.value.Str?
    ensures r.Err? && Decode(token, now, settings, jwt).Some? ==> r == Err(Fault(KeyError))
  {
    match Decode(token, now, settings, jwt)
    case None => Err(Http(422, EmailTokenDetail))
    case Some(payload) =>
      if SubClaim in payload then Ok(payload[SubClaim]) else Err(Fault(KeyError))
  }

  /** `get_current_user`: fails closed with 401 when the token does not decode, its
      subject is null or names no user; a payload without `sub` raises KeyError. The
      null and non-string cases are already refused inside the library. */
  function GetCurrentUser(token: string, now: int, settings: Settings, jwt: JwtCodec, repo: Users.UserRepository): (r: Result<User>)
    reads repo
    ensures r.Ok? ==>
      && r.value in repo.users
      && Decode(token, now, settings, jwt).Some?
      && SubClaim in Decode(token, now, settings, jwt).value
      && Decode(token, now, settings, jwt).value[SubClaim] == Str(r.value.username)
    ensures
      && Decode(token, now, settings, jwt).Some?
      && SubClaim in Decode(token, now, settings, jwt).value
      && Decode(token, now, settings, jwt).value[SubClaim].Str?
      && (exists u :: u in repo.users && Str(u.username) == Decode(token, now, settings, jwt).value[SubClaim])
      ==> r.Ok?
    ensures Decode(token, now, settings, jwt).None? ==> r == Err(Http(401, CredentialsDetail))
    ensures r.Err? ==> r == Err(Http(401, CredentialsDetail)) || r == Err(Fault(KeyError))
    ensures r == Err(Fault(KeyError)) <==>
      Decode(token, now, settings, jwt).Some? && SubClaim !in Decode(token, now, settings, jwt).value
  {
    match Decode(token, now, settings, jwt)
    case None => Err(Http(401, CredentialsDetail))
    case Some(payload) =>
      if SubClaim !in payload then Err(Fault(KeyError))
      else match payload[SubClaim]
        case Null => Err(Http(401, CredentialsDetail))
        case Time(_) => Err(Http(401, CredentialsDetail))
        case Str(username) =>
          match repo.GetUserByUsername(username)
          case None => Err(Http(401, CredentialsDetail))
          case Some(u) => Ok(u)
  }

  /** A validly signed, unexpired token whose `sub` is not a string is refused like
      an undecodable one: 422 when confirming an email, 401 when resolving a user. */
  lemma {:induction false} NonStringSubjectRefused(token: string, c: Claims, now: int, settings: Settings,
                                                   jwt: JwtCodec, repo: Users.UserRepository)
    requires jwt.decode(token, SigningKey(settings), now) == Some(c)
    requires SubClaim in c && !c[SubClaim].Str?
    ensures GetEmailFromToken(token, now, settings, jwt) == Err(Http(422, EmailTokenDetail))
    ensures GetCurrentUser(token, now, settings, jwt, repo) == Err(Http(401, CredentialsDetail))
  {
  }

  /** The two kinds of token share one key, so an email token issued for `e` gives
      `e` back until it expires. */
  lemma {:induction false} EmailTokenRoundTrip(e: string, now: int, later: int, settings: Settings, jwt: JwtCodec)
    requires DecodeInvertsEncode(jwt)
    requires later <= now + EmailTokenLifetimeSeconds
    ensures GetEmailFromToken(CreateEmailToken(map[SubClaim := Str(e)], now, settings, jwt), later, settings, jwt) == Ok(Str(e))
  {
    var c := EmailClaims(map[SubClaim := Str(e)], now);
    assert Unexpired(c, later) && SubjectValid(c);
    assert jwt.decode(jwt.encode(c, SigningKey(settings)), SigningKey(settings), later) == Some(c);
  }

  /** An access token issued for a stored user resolves to that user until it expires. */
  lemma {:induction false} AccessTokenResolvesUser(repo: Users.UserRepository, u: User, expiresDelta: Option<int>,
                                                   now: int, later: int, settings: Settings, jwt: JwtCodec)
    requires DecodeInvertsEncode(jwt)
    requires repo.Valid() && u in repo.users
    requires later <= AccessExpiry(expiresDelta, now, settings)
    ensures GetCurrentUser(CreateAccessToken(map[SubClaim := Str(u.username)], expiresDelta, now, settings, jwt),
                           later, settings, jwt, repo) == Ok(u)
  {
    var c := AccessClaims(map[SubClaim := Str(u.username)], expiresDelta, now, settings);
    assert Unexpired(c, later) && SubjectValid(c);
    assert jwt.decode(jwt.encode(c, SigningKey(settings)), SigningKey(settings), later) == Some(c);
    Users.LookupsFindTheUser(repo, u);
  }
}
