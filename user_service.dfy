/** The "users" collection and the service that manages it
    (backend/app/services/user_service.py). */
module Users {
  import opened Common
  import opened Collection

  /** UserCreate: what a client sends to register a user. */
  datatype UserCreate = UserCreate(name: string, email: string, googleCalendarConnected: bool)

  /** The data stored for a user (the document body, without its id). */
  datatype UserDoc = UserDoc(name: string, email: string, googleCalendarConnected: bool, createdAt: Instant)

  /** UserUpdate: each field is either left unset or set to a new value. */
  datatype UserUpdate = UserUpdate(name: Field<string>, email: Field<string>, googleCalendarConnected: Field<bool>)

  predicate NoFieldsSet(u: UserUpdate) {
    u.name.Unset? && u.email.Unset? && u.googleCalendarConnected.Unset?
  }

  /** Some stored user has this email. */
  predicate EmailTaken(users: map<Id, UserDoc>, email: string) {
    exists id :: id in users && users[id].email == email
  }

  /** No two stored users share an email. */
  predicate UniqueEmails(users: map<Id, UserDoc>) {
    forall a, b :: a in users && b in users && users[a].email == users[b].email ==> a == b
  }

  /** The document after Firestore's `update` writes the set fields of `u`. */
  function ApplyUpdate(d: UserDoc, u: UserUpdate): (r: UserDoc)
    ensures u.name.Set? ==> r.name == u.name.value
    ensures u.email.Set? ==> r.email == u.email.value
    ensures u.googleCalendarConnected.Set? ==> r.googleCalendarConnected == u.googleCalendarConnected.value
    ensures u.name.Unset? ==> r.name == d.name
    ensures u.email.Unset? ==> r.email == d.email
    ensures u.googleCalendarConnected.Unset? ==> r.googleCalendarConnected == d.googleCalendarConnected
    ensures r.createdAt == d.createdAt
  {
    d.(name := u.name.Merge(d.name),
       email := u.email.Merge(d.email),
       googleCalendarConnected := u.googleCalendarConnected.Merge(d.googleCalendarConnected))
  }

  /** The table create_user leaves behind: unchanged when the email is taken,
      otherwise grown by the new user under the fresh id. */
  function AfterCreate(users: map<Id, UserDoc>, input: UserCreate, now: Instant, freshId: Id): map<Id, UserDoc> {
    if EmailTaken(users, input.email) then users
    else users[freshId := UserDoc(input.name, input.email, input.googleCalendarConnected, now)]
  }

  /** create_user never stores a second user with an email already present:
      it keeps emails unique, and the email is stored afterwards. */
  lemma CreateKeepsEmailsUnique(users: map<Id, UserDoc>, input: UserCreate, now: Instant, freshId: Id)
    requires freshId !in users
    requires UniqueEmails(users)
    ensures UniqueEmails(AfterCreate(users, input, now, freshId))
    ensures EmailTaken(AfterCreate(users, input, now, freshId), input.email)
    ensures |AfterCreate(users, input, now, freshId)| == |users| + (if EmailTaken(users, input.email) then 0 else 1)
  {
    var after := AfterCreate(users, input, now, freshId);
    if !EmailTaken(users, input.email) {
      assert after[freshId].email == input.email;
      forall a, b | a in after && b in after && after[a].email == after[b].email ensures a == b {
      }
    }
  }

  /** update_user does not check emails: on any table, setting one user's
      email to another user's email leaves two users with one email. */
  lemma UpdateCanDuplicateEmail(users: map<Id, UserDoc>, a: Id, b: Id)
    requires a in users && b in users && a != b
    ensures !UniqueEmails(users[b := ApplyUpdate(users[b], UserUpdate(Unset, Set(users[a].email), Unset))])
  {
    var after := users[b := ApplyUpdate(users[b], UserUpdate(Unset, Set(users[a].email), Unset))];
    assert after[a].email == after[b].email;
  }

  class UserService {
    /** The collection "users", keyed by document id. */
    var users: map<Id, UserDoc>

    constructor (stored: map<Id, UserDoc>)
      ensures users == stored
    {
      users := stored;
    }

    /** create_user: returns the stored user with the same email if there is
        one; otherwise stores the input stamped with `now` under the fresh id. */
    method CreateUser(input: UserCreate, now: Instant, freshId: Id) returns (u: Doc<UserDoc>)
      requires freshId !in users
      modifies this
      ensures users == AfterCreate(old(users), input, now, freshId)
      ensures EmailTaken(old(users), input.email) ==> u.id in users && users[u.id] == u.data && u.data.email == input.email
      ensures !EmailTaken(old(users), input.email) ==>
        u == Doc(freshId, UserDoc(input.name, input.email, input.googleCalendarConnected, now))
      ensures |users| == |old(users)| + (if EmailTaken(old(users), input.email) then 0 else 1)
      ensures UniqueEmails(old(users)) ==> UniqueEmails(users)
    {
      if UniqueEmails(users) {
        CreateKeepsEmailsUnique(users, input, now, freshId);
      }
      var doc := UserDoc(input.name, input.email, input.googleCalendarConnected, now);
      var existing := GetUserByEmail(input.email);
      if existing.Some? {
        return existing.value;
      }
      users := users[freshId := doc];
      u := Doc(freshId, doc);
    }

    /** get_user: the stored user, or None when the id is missing. */
    method GetUser(id: Id) returns (r: Option<Doc<UserDoc>>)
      ensures r.None? <==> id !in users
      ensures r.Some? ==> r.value.id == id && r.value.data == users[id]
    {
      if id in users {
        r := Some(Doc(id, users[id]));
      } else {
        r := None;
      }
    }

    /** get_user_by_email: the first user the query yields with that email,
        or None exactly when no stored user has it. */
    method GetUserByEmail(email: string) returns (r: Option<Doc<UserDoc>>)
      ensures r.None? <==> !EmailTaken(users, email)
      ensures r.Some? ==> r.value.id in users && users[r.value.id] == r.value.data && r.value.data.email == email
    {
      var withEmail := (d: UserDoc) => d.email == email;
      var docs := Where(users, withEmail);
      var first := Limit(docs, 1);
      if |first| > 0 {
        IdsMembership(docs, docs[0].id);
        r := Some(first[0]);
      } else {
        assert MatchingIds(users, withEmail) == {};
        forall id | id in users ensures users[id].email != email {
          assert id !in MatchingIds(users, withEmail);
        }
        r := None;
      }
    }

    /** update_user: with no field set, a plain get; otherwise Firestore writes
        the set fields (failing with NotFound on a missing id) and the user is
        read back. */
    method UpdateUser(id: Id, u: UserUpdate) returns (r: Result<Option<Doc<UserDoc>>, StoreError>)
      modifies this
      ensures NoFieldsSet(u) ==> users == old(users) && r == Success(Lookup(users, id))
      ensures !NoFieldsSet(u) && id !in old(users) ==> users == old(users) && r == Failure(NotFound(id))
      ensures !NoFieldsSet(u) && id in old(users) ==>
        && users == old(users)[id := ApplyUpdate(old(users)[id], u)]
        && r == Success(Some(Doc(id, users[id])))
    {
      if NoFieldsSet(u) {
        var found := GetUser(id);
        return Success(found);
      }
      if id !in users {
        return Failure(NotFound(id));
      }
      users := users[id := ApplyUpdate(users[id], u)];
      var found := GetUser(id);
      r := Success(found);
    }

    /** delete_user: removes the id (a no-op when it is missing) and reports true. */
    method DeleteUser(id: Id) returns (ok: bool)
      modifies this
      ensures ok
      ensures users == old(users) - {id}
    {
      users := users - {id};
      ok := true;
    }

    /** list_users: every stored user, once each, in no particular order. */
    method ListUsers() returns (r: seq<Doc<UserDoc>>)
      ensures DistinctIds(r) && FromTable(users, r)
      ensures Ids(r) == users.Keys
      ensures |r| == |users|
    {
      var all := (d: UserDoc) => true;
      r := Where(users, all);
      assert MatchingIds(users, all) == users.Keys;
    }
  }
}
