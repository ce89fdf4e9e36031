/** The request and response bodies of the HTTP interface, with the length bounds
    and defaults their validators enforce, and the conversions from table rows to
    response bodies that the framework performs when it serialises a result. */
module Schemas {
  import opened Common
  import opened Models

  const NameMaxLength := 50
  const EmailMaxLength := 100
  const PhoneMaxLength := 15

  /** `ContactBase`, which `ContactCreate` is without additions. `birthDate` is
      the submitted datetime in seconds; `additionalData` defaults to None. */
  datatype ContactBase = ContactBase(
    firstName: string,
    lastName: string,
    email: string,
    phone: string,
    birthDate: int,
    additionalData: Option<string> := None)

  type ContactCreate = ContactBase

  predicate ValidContactBase(b: ContactBase) {
    && |b.firstName| <= NameMaxLength
    && |b.lastName| <= NameMaxLength
    && |b.email| <= EmailMaxLength
    && |b.phone| <= PhoneMaxLength
  }

  /** `ContactUpdate`: every field optional, None when the request leaves it out. */
  datatype ContactUpdate = ContactUpdate(
    firstName: Option<string> := None,
    lastName: Option<string> := None,
    email: Option<string> := None,
    phone: Option<string> := None,
    birthDate: Option<int> := None,
    additionalData: Option<string> := None)

  predicate ValidContactUpdate(u: ContactUpdate) {
    && (u.firstName.Some? ==> |u.firstName.value| <= NameMaxLength)
    && (u.lastName.Some? ==> |u.lastName.value| <= NameMaxLength)
    && (u.email.Some? ==> |u.email.value| <= EmailMaxLength)
    && (u.phone.Some? ==> |u.phone.value| <= PhoneMaxLength)
  }

  /** `ContactResponse`: the fields of `ContactBase` plus the integer id. */
  datatype ContactResponse = ContactResponse(id: int, contact: ContactBase)

  /** The public `User` body: no password hash, no confirmation flag, no token. */
  datatype UserView = UserView(id: int, username: string, email: string, avatar: string)

  datatype UserCreate = UserCreate(username: string, email: string, password: string)

  datatype Token = Token(accessToken: string, tokenType: string)

  datatype RequestEmail = RequestEmail(email: string)

  /** Serialising a contact row as a `ContactResponse`: the stored DATE comes back
      as midnight of that day; the body is refused (None) when a required column is
      NULL or a value breaks a length bound. */
  function ContactToResponse(c: Contact): (r: Option<ContactResponse>)
    ensures r.Some? <==>
      && c.firstName.Some? && c.lastName.Some? && c.email.Some? && c.phone.Some? && c.birthDate.Some?
      && ValidContactBase(ContactBase(c.firstName.value, c.lastName.value, c.email.value, c.phone.value, 0))
    ensures r.Some? ==>
      && r.value.id == c.id
      && ValidContactBase(r.value.contact)
      && Some(r.value.contact.firstName) == c.firstName
      && Some(r.value.contact.lastName) == c.lastName
      && Some(r.value.contact.email) == c.email
      && Some(r.value.contact.phone) == c.phone
      && r.value.contact.birthDate == c.birthDate.value * SecondsPerDay
      && r.value.contact.additionalData == c.additionalData
  {
    match (c.firstName, c.lastName, c.email, c.phone, c.birthDate)
    case (Some(f), Some(l), Some(e), Some(p), Some(d)) =>
      var b := ContactBase(f, l, e, p, d * SecondsPerDay, c.additionalData);
      if ValidContactBase(b) then Some(ContactResponse(c.id, b)) else None
    case _ => None
  }

  /** Serialising a user row as the public `User` body; refused when the avatar is
      NULL, since that body declares `avatar` as a required string. */
  function UserToView(u: User): (r: Option<UserView>)
    ensures r.Some? <==> u.avatar.Some?
    ensures r.Some? ==> r.value == UserView(u.id, u.username, u.email, u.avatar.value)
  {
    match u.avatar
    case Some(a) => Some(UserView(u.id, u.username, u.email, a))
    case None => None
  }

  /** The public body does not depend on the stored hash, the confirmation flag or
      the refresh token. */
  lemma UserViewHidesSecrets(u: User, hash: string, confirmed: bool, token: Option<string>)
    ensures UserToView(u.(hashedPassword := hash, confirmed := confirmed, refreshToken := token)) == UserToView(u)
  {
  }
}
