/** The contact store: the `contacts` table behind `ContactRepository`, where every
    read and write is scoped to the requesting user, and a contact that belongs to
    someone else is reported as absent. */
module Contacts {
  import opened Common
  import opened Models
  import opened Schemas

  const BirthdayWindowDays := 7

  /** The calendar day of a datetime given in seconds: what a DATE column keeps of it. */
  function DayOf(t: int): (d: int)
    ensures d * SecondsPerDay <= t < d * SecondsPerDay + SecondsPerDay
  {
    t / SecondsPerDay
  }

  predicate Owns(user: User, c: Contact) {
    c.userId == user.id
  }

  predicate FieldContains(field: Option<string>, q: string, fold: char -> char) {
    field.Some? && ContainsIgnoreCase(field.value, q, fold)
  }

  /** The search filter of the listing: none for an absent or empty query, else a
      case-insensitive substring match on first name, last name or email (OR'd;
      a NULL column never matches). `fold` is the collation's case folding. */
  predicate MatchesQuery(c: Contact, query: Option<string>, fold: char -> char) {
    match query
    case None => true
    case Some(q) =>
      q == [] || FieldContains(c.firstName, q, fold) || FieldContains(c.lastName, q, fold) || FieldContains(c.email, q, fold)
  }

  /** `birth_date >= today AND birth_date <= today + 7 days`, where `today` is the
      current datetime `now` in seconds: the DATE column is compared as midnight of
      its day, whole dates with the year, and a NULL date never matches. */
  predicate InBirthdayWindow(c: Contact, now: int) {
    c.birthDate.Some? && now <= c.birthDate.value * SecondsPerDay <= now + BirthdayWindowDays * SecondsPerDay
  }

  function BirthKey(c: Contact): int {
    if c.birthDate.Some? then c.birthDate.value else 0
  }

  /** The row an insert of `body` produces, owned by `userId`. */
  function NewRow(body: ContactCreate, id: int, userId: int): Contact {
    Contact(id, Some(body.firstName), Some(body.lastName), Some(body.email), Some(body.phone),
            Some(DayOf(body.birthDate)), body.additionalData, userId)
  }

  /** The full replace of an update: all six fields take the body's values, None
      included; the id and the owner stay. */
  function ApplyUpdate(c: Contact, body: ContactUpdate): (r: Contact)
    ensures r.id == c.id && r.userId == c.userId
    ensures r.firstName == body.firstName && r.lastName == body.lastName
    ensures r.email == body.email && r.phone == body.phone
    ensures r.birthDate == (if body.birthDate.Some? then Some(DayOf(body.birthDate.value)) else None)
    ensures r.additionalData == body.additionalData
  {
    c.(firstName := body.firstName, lastName := body.lastName, email := body.email, phone := body.phone,
       birthDate := (match body.birthDate case Some(t) => Some(DayOf(t)) case None => None),
       additionalData := body.additionalData)
  }

  /** The position of contact `contactId` among the rows of `user`. */
  function IndexOf(cs: seq<Contact>, contactId: int, user: User): (r: Option<nat>)
    ensures r.Some? ==> r.value < |cs| && cs[r.value].id == contactId && Owns(user, cs[r.value])
    ensures r.None? <==> forall c :: c in cs ==> !(c.id == contactId && Owns(user, c))
  {
    FindFirst(cs, (c: Contact) => c.id == contactId && Owns(user, c))
  }

  /** Whether a row other than the one at `except` already holds the non-NULL `email`. */
  predicate EmailTaken(cs: seq<Contact>, email: Option<string>, except: int) {
    email.Some? && exists j :: 0 <= j < |cs| && j != except && cs[j].email == email
  }

  class ContactRepository {
    var contacts: seq<Contact>
    var nextId: int

    /** The table constraints, and the id sequence ahead of every stored id. */
    ghost predicate Valid()
      reads this
    {
      ContactKeysUnique(contacts) && forall c :: c in contacts ==> c.id < nextId
    }

    constructor ()
      ensures Valid() && contacts == []
    {
      contacts := [];
      nextId := 1;
    }

    /** The rows of `user` that pass the search filter, in table order. */
    function Matching(user: User, query: Option<string>, fold: char -> char): (r: seq<Contact>)
      reads this
      ensures forall c :: c in r <==> c in contacts && Owns(user, c) && MatchesQuery(c, query, fold)
      ensures multiset(r) <= multiset(contacts)
    {
      Filter(contacts, (c: Contact) => Owns(user, c) && MatchesQuery(c, query, fold))
    }

    /** `get_contacts`: the filter is applied before OFFSET `skip` and LIMIT `limit`. */
    function GetContacts(skip: nat, limit: nat, user: User, query: Option<string>, fold: char -> char): (r: seq<Contact>)
      reads this
      ensures |r| <= limit
      ensures forall c :: c in r ==> c in contacts && Owns(user, c) && MatchesQuery(c, query, fold)
      ensures forall i :: 0 <= i < |r| ==> skip + i < |Matching(user, query, fold)| && r[i] == Matching(user, query, fold)[skip + i]
      ensures skip + limit <= |Matching(user, query, fold)| ==> |r| == limit
      ensures skip <= |Matching(user, query, fold)| <= skip + limit ==> |r| == |Matching(user, query, fold)| - skip
    {
      Page(Matching(user, query, fold), skip, limit)
    }

    /** `get_contact_by_id`: only a row with both the id and the owner is visible. */
    function GetContactById(contactId: int, user: User): (r: Option<Contact>)
      reads this
      ensures r.Some? ==> r.value in contacts && r.value.id == contactId && Owns(user, r.value)
      ensures r.None? <==> forall c :: c in contacts ==> !(c.id == contactId && Owns(user, c))
      ensures Valid() && (exists c :: c in contacts && c.id == contactId && !Owns(user, c)) ==> r.None?
    {
      match IndexOf(contacts, contactId, user)
      case Some(i) => Some(contacts[i])
      case None => None
    }

    /** `get_birthdays`: the user's rows dated within the week ahead, ordered by date. */
    function GetBirthdays(user: User, now: int): (r: seq<Contact>)
      reads this
      ensures SortedBy(r, BirthKey)
      ensures forall c :: c in r <==> c in contacts && Owns(user, c) && InBirthdayWindow(c, now)
      ensures multiset(r) <= multiset(contacts)
    {
      var selected := Filter(contacts, (c: Contact) => Owns(user, c) && InBirthdayWindow(c, now));
      var r := SortBy(selected, BirthKey);
      assert forall c :: c in r <==> c in multiset(selected);
      r
    }

    /** `create_contact`: one row appended, owned by `user`, under an id no stored
        row holds; a body whose email another row already holds is refused by the
        UNIQUE constraint and the table rolls back. Which fresh id the database
        picks is not promised. */
    method CreateContact(body: ContactCreate, user: User) returns (r: Result<Contact>)
      requires Valid()
      modifies this
      ensures Valid() && nextId >= old(nextId)
      ensures EmailTaken(old(contacts), Some(body.email), -1) ==>
        r == Err(Fault(IntegrityError)) && contacts == old(contacts)
      ensures !EmailTaken(old(contacts), Some(body.email), -1) ==>
        && r.Ok?
        && r.value == NewRow(body, r.value.id, user.id)
        && (forall c :: c in old(contacts) ==> c.id != r.value.id)
        && contacts == old(contacts) + [r.value]
    {
      // The id is drawn from the sequence before the constraint is checked, so a
      // refused insert still uses one up.
      var id := nextId;
      nextId := nextId + 1;
      if EmailTaken(contacts, Some(body.email), -1) {
        return Err(Fault(IntegrityError));
      }
      var c := NewRow(body, id, user.id);
      contacts := contacts + [c];
      r := Ok(c);
    }

    /** `update_contact`: the matched row is replaced field by field in place; a
        missing or foreign id gives None and no change; an email held by another
        row is refused by the UNIQUE constraint and nothing changes. */
    method UpdateContact(contactId: int, body: ContactUpdate, user: User) returns (r: Result<Option<Contact>>)
      requires Valid()
      modifies this
      ensures Valid() && nextId == old(nextId)
      ensures IndexOf(old(contacts), contactId, user).None? ==>
        r == Ok(None) && contacts == old(contacts)
      ensures IndexOf(old(contacts), contactId, user).Some? ==>
        var i := IndexOf(old(contacts), contactId, user).value;
        if EmailTaken(old(contacts), body.email, i) then
          r == Err(Fault(IntegrityError)) && contacts == old(contacts)
        else
          && r == Ok(Some(ApplyUpdate(old(contacts)[i], body)))
          && contacts == old(contacts)[i := ApplyUpdate(old(contacts)[i], body)]
    {
      var found := IndexOf(contacts, contactId, user);
      if found.None? {
        return Ok(None);
      }
      var i := found.value;
      if EmailTaken(contacts, body.email, i) {
        return Err(Fault(IntegrityError));
      }
      var updated := ApplyUpdate(contacts[i], body);
      contacts := contacts[i := updated];
      r := Ok(Some(updated));
    }

    /** `remove_contact`: the matched row is deleted and returned; a missing or
        foreign id gives None and no change. */
    method RemoveContact(contactId: int, user: User) returns (r: Option<Contact>)
      requires Valid()
      modifies this
      ensures Valid() && nextId == old(nextId)
      ensures IndexOf(old(contacts), contactId, user).None? ==> r == None && contacts == old(contacts)
      ensures IndexOf(old(contacts), contactId, user).Some? ==>
        var i := IndexOf(old(contacts), contactId, user).value;
        r == Some(old(contacts)[i]) && contacts == old(contacts)[..i] + old(contacts)[i + 1..]
    {
      var found := IndexOf(contacts, contactId, user);
      if found.None? {
        return None;
      }
      var i := found.value;
      r := Some(contacts[i]);
      RemovalKeepsKeys(contacts, i);
      contacts := contacts[..i] + contacts[i + 1..];
    }
  }

  lemma RemovalKeepsKeys(cs: seq<Contact>, i: nat)
    requires i < |cs| && ContactKeysUnique(cs)
    ensures ContactKeysUnique(cs[..i] + cs[i + 1..])
  {
    var r := cs[..i] + cs[i + 1..];
    forall a, b | 0 <= a < |r| && 0 <= b < |r| && a != b
      ensures r[a].id != r[b].id && (r[a].email.None? || r[a].email != r[b].email)
    {
      var a' := if a < i then a else a + 1;
      var b' := if b < i then b else b + 1;
      assert r[a] == cs[a'] && r[b] == cs[b'];
    }
  }

  /** Removing the matched row deletes exactly that contact: every other row stays. */
  lemma RemoveDeletesExactlyOne(cs: seq<Contact>, contactId: int, user: User)
    requires ContactKeysUnique(cs) && IndexOf(cs, contactId, user).Some?
    ensures var i := IndexOf(cs, contactId, user).value;
      forall c :: c in cs[..i] + cs[i + 1..] <==> c in cs && c.id != contactId
  {
    var i := IndexOf(cs, contactId, user).value;
    var r := cs[..i] + cs[i + 1..];
    forall c ensures c in r <==> c in cs && c.id != contactId {
      if c in r {
        var k :| 0 <= k < |r| && r[k] == c;
        var k' := if k < i then k else k + 1;
        assert cs[k'] == c && k' != i;
      }
      if c in cs && c.id != contactId {
        var k :| 0 <= k < |cs| && cs[k] == c;
        assert k != i;
        assert r[if k < i then k else k - 1] == c;
      }
    }
  }

  /** The foreign key survives the contact writes: an insert is owned by an existing
      user, an update keeps the owner, and a removal only drops a row. */
  lemma {:induction false} ContactWritesKeepOwners(cs: seq<Contact>, us: seq<User>, body: ContactCreate, id: int,
                                                   user: User, i: nat, upd: ContactUpdate)
    requires OwnersExist(cs, us) && user in us
    ensures OwnersExist(cs + [NewRow(body, id, user.id)], us)
    ensures i < |cs| ==> OwnersExist(cs[i := ApplyUpdate(cs[i], upd)], us)
    ensures i < |cs| ==> OwnersExist(cs[..i] + cs[i + 1..], us)
  {
    forall c | c in cs + [NewRow(body, id, user.id)] ensures exists u :: u in us && u.id == c.userId {
      if c !in cs {
        assert c == NewRow(body, id, user.id);
      }
    }
    if i < |cs| {
      var upd' := cs[i := ApplyUpdate(cs[i], upd)];
      forall c | c in upd' ensures exists u :: u in us && u.id == c.userId {
        var k :| 0 <= k < |upd'| && upd'[k] == c;
        assert cs[k] in cs && cs[k].userId == c.userId;
      }
      var rem := cs[..i] + cs[i + 1..];
      forall c | c in rem ensures c in cs {
        var k :| 0 <= k < |rem| && rem[k] == c;
        assert cs[if k < i then k else k + 1] == c;
      }
    }
  }

  /** A created contact reads back with the submitted fields; its birth date comes
      back as midnight of the submitted day. */
  lemma CreatedContactReadsBack(body: ContactCreate, id: int, userId: int)
    requires ValidContactBase(body)
    ensures ContactToResponse(NewRow(body, id, userId))
      == Some(ContactResponse(id, body.(birthDate := DayOf(body.birthDate) * SecondsPerDay)))
    ensures body.birthDate % SecondsPerDay == 0 ==>
      ContactToResponse(NewRow(body, id, userId)) == Some(ContactResponse(id, body))
  {
  }

  /** An update body that sends every required field within its bounds leaves a
      row that reads back as that body, birth date at midnight, under the same id. */
  lemma FullUpdateReadsBack(c: Contact, body: ContactUpdate)
    requires ValidContactUpdate(body)
    requires body.firstName.Some? && body.lastName.Some? && body.email.Some? && body.phone.Some? && body.birthDate.Some?
    ensures ContactToResponse(ApplyUpdate(c, body)) == Some(ContactResponse(c.id, ContactBase(
      body.firstName.value, body.lastName.value, body.email.value, body.phone.value,
      DayOf(body.birthDate.value) * SecondsPerDay, body.additionalData)))
  {
  }

  /** An update whose body leaves out any required field stores NULL there, so the
      updated row no longer serialises as a `ContactResponse`. */
  lemma PartialUpdateHasNoResponse(c: Contact, body: ContactUpdate)
    requires body.firstName.None? || body.lastName.None? || body.email.None? || body.phone.None? || body.birthDate.None?
    ensures ContactToResponse(ApplyUpdate(c, body)).None?
  {
  }

  /** The birthday window in whole days: from today when `now` is exactly midnight,
      otherwise from tomorrow (today's midnight already lies before `now`), up to
      and including the day seven days ahead. */
  lemma {:induction false} BirthdayWindowInDays(c: Contact, now: int)
    requires c.birthDate.Some?
    ensures var today := DayOf(now);
      var first := if now == today * SecondsPerDay then today else today + 1;
      InBirthdayWindow(c, now) <==> first <= c.birthDate.value <= today + BirthdayWindowDays
  {
    var d, today := c.birthDate.value, DayOf(now);
    var s := now - today * SecondsPerDay;
    assert 0 <= s < SecondsPerDay;
    assert d * SecondsPerDay - now == (d - today) * SecondsPerDay - s;
  }

  /** A contact of the user born tomorrow (year included) is listed; one born ten
      days ahead is not. */
  lemma {:induction false} BirthdaysTomorrowNotTenDays(repo: ContactRepository, user: User, now: int, c: Contact)
    requires c in repo.contacts && Owns(user, c)
    ensures c.birthDate == Some(DayOf(now) + 1) ==> c in repo.GetBirthdays(user, now)
    ensures c.birthDate == Some(DayOf(now) + 10) ==> c !in repo.GetBirthdays(user, now)
  {
    if c.birthDate.Some? {
      BirthdayWindowInDays(c, now);
    }
  }

  /** Whole dates are compared: a contact whose stored birth date lies before today
      (any real birthday, one year or more in the past) is never listed. */
  lemma {:induction false} PastBirthDatesNeverListed(repo: ContactRepository, user: User, now: int, c: Contact)
    requires c.birthDate.Some? && c.birthDate.value < DayOf(now)
    ensures c !in repo.GetBirthdays(user, now)
  {
    BirthdayWindowInDays(c, now);
  }

  /** Without a search term, or with an empty one, the first page lists every
      contact of the user when they fit under the limit. */
  lemma {:induction false} UnfilteredFirstPageIsComplete(repo: ContactRepository, user: User, limit: nat, query: Option<string>,
                                                         fold: char -> char)
    requires query.None? || query == Some([])
    requires |repo.Matching(user, query, fold)| <= limit
    ensures forall c :: c in repo.contacts && Owns(user, c) ==> c in repo.GetContacts(0, limit, user, query, fold)
  {
    var m := repo.Matching(user, query, fold);
    var r := repo.GetContacts(0, limit, user, query, fold);
    assert |r| == |m|;
    forall c | c in repo.contacts && Owns(user, c) ensures c in r {
      assert c in m;
      var k :| 0 <= k < |m| && m[k] == c;
      assert r[k] == c;
    }
  }
}
