/** The in-memory user store (app/repositories/memory/user_repository.ts): an
    insertion-ordered list of users, a set index of their ids and a set index
    of emails. The email index is added to on `create` only: `update` never
    touches it and `delete` removes the empty string from it instead of the
    deleted user's email, so it is not the set of current emails. */
module UserRepository {
  import opened Base
  import opened Seqs
  import opened Keyed
  import opened UserEntity

  datatype Store = Store(users: seq<User>, userIds: set<Id>, userEmails: set<string>)

  /** The store as the module creates it: nothing listed, nothing indexed. */
  const Empty: Store := Store([], {}, {})

  function IdOf(u: User): Id
  {
    u.id
  }

  function EmailOf(u: User): string
  {
    u.email
  }

  /** The ids of the users in a list. */
  function IdsOf(us: seq<User>): set<Id>
  {
    Keys(us, IdOf)
  }

  /** The emails of the users in a list. */
  function EmailsOf(us: seq<User>): set<string>
  {
    Keys(us, EmailOf)
  }

  /** The invariant the id index keeps. Nothing comparable holds of the email
      index (see `DeleteKeepsEmailIndexed` and `UpdatesCanShareEmail`). */
  predicate Valid(s: Store)
  {
    s.userIds == IdsOf(s.users) && Distinct(s.users, IdOf)
  }

  function HasId(id: Id): User -> bool
  {
    HasKey(IdOf, id)
  }

  function LacksId(id: Id): User -> bool
  {
    LacksKey(IdOf, id)
  }

  function HasEmail(email: string): User -> bool
  {
    HasKey(EmailOf, email)
  }

  const IdTaken: Error := PlainError("User with this ID already exists")
  const EmailTaken: Error := PlainError("User with this email already exists")
  const UserNotFound: Error := PlainError("User not found")
  const EmailExists: Error := PlainError("Email already exists")

  /** `create(data)`: builds the user; refuses an id the id index holds, then
      an email the email index holds; otherwise appends the user and indexes
      both. */
  function Create(s: Store, d: UserDraft, id: Id, now: Timestamp): (r: Step<Store, User>)
    ensures r.result.Err? <==> id in s.userIds || d.email in s.userEmails
    ensures r.result.Err? ==> r.store == s
    ensures r.result.Err? ==> r.result.error == if id in s.userIds then IdTaken else EmailTaken
    ensures r.result.Ok? ==>
      && r.result.value == NewUser(d, id, now)
      && r.store.users == s.users + [r.result.value]
      && r.store.userIds == s.userIds + {id}
      && r.store.userEmails == s.userEmails + {d.email}
    ensures Valid(s) ==> Valid(r.store)
  {
    var u := NewUser(d, id, now);
    if u.id in s.userIds then Step(s, Err(IdTaken))
    else if u.email in s.userEmails then Step(s, Err(EmailTaken))
    else
      AppendKeys(s.users, u, IdOf);
      Step(Store(s.users + [u], s.userIds + {u.id}, s.userEmails + {u.email}), Ok(u))
  }

  /** `findById(id)`: the first user with that id, or null. */
  function FindById(s: Store, id: Id): (r: Option<User>)
    ensures r.Some? <==> id in IdsOf(s.users)
    ensures r.Some? ==> r.value in s.users && r.value.id == id
    ensures r.Some? ==>
      exists i :: 0 <= i < |s.users| && s.users[i] == r.value && forall j :: 0 <= j < i ==> s.users[j].id != id
    ensures Valid(s) ==> (r.Some? <==> id in s.userIds)
  {
    var r := Find(s.users, HasId(id));
    assert r.Some? ==> IdOf(r.value) == id;
    assert r.Some? ==>
      exists i :: 0 <= i < |s.users| && s.users[i] == r.value && forall j :: 0 <= j < i ==> !HasId(id)(s.users[j]);
    r
  }

  /** `findByEmail(email)`: the first user, in insertion order, with that email,
      or null. The list is searched, not the email index. */
  function FindByEmail(s: Store, email: string): (r: Option<User>)
    ensures r.Some? <==> email in EmailsOf(s.users)
    ensures r.Some? ==> r.value.email == email
    ensures r.Some? ==>
      exists i :: 0 <= i < |s.users| && s.users[i] == r.value && forall j :: 0 <= j < i ==> s.users[j].email != email
  {
    var r := Find(s.users, HasEmail(email));
    assert r.Some? ==>
      exists i :: 0 <= i < |s.users| && s.users[i] == r.value && forall j :: 0 <= j < i ==> !HasEmail(email)(s.users[j]);
    r
  }

  /** `findAll()`: the list itself, in insertion order. */
  function FindAll(s: Store): (r: seq<User>)
    ensures Valid(s) ==> IdsOf(r) == s.userIds && Distinct(r, IdOf)
  {
    s.users
  }

  /** In a valid store the first user with a listed user's id is that user. */
  lemma FindIndexOfListed(s: Store, i: int)
    requires Valid(s) && 0 <= i < |s.users|
    ensures FindIndex(s.users, HasId(s.users[i].id)) == i
  {
    FindIndexDistinct(s.users, IdOf, i);
  }

  /** In a valid store a user is found by its id exactly when it is listed. */
  lemma FindByIdExact(s: Store, u: User)
    requires Valid(s)
    ensures FindById(s, u.id) == Some(u) <==> u in s.users
  {
    FindDistinct(s.users, IdOf, u);
  }

  /** The JavaScript truthiness test `data.email && …`: a present, non-empty email. */
  predicate Truthy(e: Option<string>)
  {
    e.Some? && e.value != ""
  }

  /** The email check of `update`: the new email is indexed and differs from
      the record's own. */
  predicate EmailClash(s: Store, existing: User, u: UserUpdate)
  {
    Truthy(u.email) && u.email.value in s.userEmails && u.email.value != existing.email
  }

  /** `{ ...data, updatedAt: now }`: the patch `update` merges. */
  function Stamp(u: UserUpdate, now: Timestamp): UserPatch
  {
    UserPatch(None, u.email, u.name, u.password, None, Some(now))
  }

  /** `s'` is `s` with the user at `k`, whose email did not clash, replaced by
      `updated`, its merge with the stamped patch; both indices are unchanged. */
  predicate InPlace(s: Store, s': Store, k: int, u: UserUpdate, now: Timestamp, updated: User)
    requires 0 <= k < |s.users|
  {
    && !EmailClash(s, s.users[k], u)
    && updated == Merge(s.users[k], Stamp(u, now))
    && s' == Store(s.users[k := updated], s.userIds, s.userEmails)
  }

  /** `update(id, data)`: refuses an absent id, then an email clash; otherwise
      replaces the record in place by the merged one. Neither index changes. */
  function Update(s: Store, id: Id, u: UserUpdate, now: Timestamp): (r: Step<Store, User>)
    ensures r.result.Err? ==> r.store == s
    ensures r.result == Err(UserNotFound) <==> id !in IdsOf(s.users)
    ensures r.result.Err? ==> r.result.error in {UserNotFound, EmailExists}
    ensures Valid(s) ==> forall k :: 0 <= k < |s.users| && s.users[k].id == id ==>
      (r.result == Err(EmailExists) <==> EmailClash(s, s.users[k], u))
    ensures r.result.Ok? ==>
      exists k :: 0 <= k < |s.users| && s.users[k].id == id && InPlace(s, r.store, k, u, now, r.result.value)
    ensures r.result.Ok? ==> r.result.value.id == id && r.result.value.updatedAt == now
    ensures Valid(s) ==> Valid(r.store)
  {
    var k := FindIndex(s.users, HasId(id));
    if k == -1 then Step(s, Err(UserNotFound))
    else
      var existing := s.users[k];
      if EmailClash(s, existing, u) then Step(s, Err(EmailExists))
      else
        var updated := Merge(existing, Stamp(u, now));
        ReplaceKeepsKeys(s.users, k, updated, IdOf);
        Step(Store(s.users[k := updated], s.userIds, s.userEmails), Ok(updated))
  }

  /** `delete(id)`: drops every user with that id and the id from the id index,
      then looks the id up in the already filtered list to find the email to
      release. That lookup always misses, so the email released is `''`. */
  function Delete(s: Store, id: Id): (r: Store)
    ensures r.users == Filter(s.users, LacksId(id))
    ensures r.userIds == s.userIds - {id}
    ensures r.userEmails == s.userEmails - {""}
    ensures id !in IdsOf(r.users)
    ensures forall x :: x in s.users && x.id != id ==> x in r.users
    ensures Valid(s) ==> Valid(r)
  {
    var kept := Filter(s.users, LacksId(id));
    FilterDropsKey(s.users, IdOf, id);
    FilterKeepsDistinct(s.users, IdOf, LacksId(id));
    var released := match Find(kept, HasId(id))
      case Some(gone) => gone.email
      case None => "";
    Store(kept, s.userIds - {id}, s.userEmails - {released})
  }

  /** A created user is found by its id and, when no listed user had its
      email, by its email too; it sits last in `findAll`. */
  lemma CreateThenFind(s: Store, d: UserDraft, id: Id, now: Timestamp)
    requires Valid(s)
    requires Create(s, d, id, now).result.Ok?
    ensures var r := Create(s, d, id, now);
      && FindById(r.store, id) == Some(r.result.value)
      && FindAll(r.store) == FindAll(s) + [r.result.value]
      && (d.email !in EmailsOf(s.users) ==> FindByEmail(r.store, d.email) == Some(r.result.value))
  {
    var r := Create(s, d, id, now);
    FindByIdExact(r.store, r.result.value);
    if d.email !in EmailsOf(s.users) {
      assert forall j :: 0 <= j < |s.users| ==> !HasEmail(d.email)(s.users[j]);
      FindIndexAfter(s.users, [r.result.value], HasEmail(d.email));
    }
  }

  /** Updating a user to the email it already has never clashes. */
  lemma UpdateToOwnEmail(s: Store, k: int, name: Option<string>, password: Option<string>, now: Timestamp)
    requires Valid(s) && 0 <= k < |s.users|
    ensures Update(s, s.users[k].id, UserUpdate(Some(s.users[k].email), name, password), now).result.Ok?
  {
    FindIndexOfListed(s, k);
  }

  /** `delete` never releases a real email: once a user created with a
      non-empty email is deleted, `create` still refuses that email, although
      no listed user has it any more. */
  lemma DeleteKeepsEmailIndexed(s: Store, x: User, d: UserDraft, id: Id, now: Timestamp)
    requires Valid(s) && x in s.users && x.email in s.userEmails && x.email != ""
    requires d.email == x.email && id !in s.userIds - {x.id}
    ensures x.email in Delete(s, x.id).userEmails
    ensures Create(Delete(s, x.id), d, id, now).result == Err(EmailTaken)
  {
  }

  /** Email uniqueness is not an invariant: the email index is not updated by
      `update`, so two users can both move to the same unindexed email. */
  lemma {:induction false} UpdatesCanShareEmail(s: Store, i: int, j: int, e: string, now: Timestamp)
    requires Valid(s) && 0 <= i < |s.users| && 0 <= j < |s.users| && i != j
    requires e != "" && e !in s.userEmails
    ensures var u := UserUpdate(Some(e), None, None);
      var first := Update(s, s.users[i].id, u, now);
      var second := Update(first.store, s.users[j].id, u, now);
      && first.result.Ok? && second.result.Ok?
      && second.store.users[i].email == e && second.store.users[j].email == e
      && second.store.users[i].id != second.store.users[j].id
  {
    var u := UserUpdate(Some(e), None, None);
    FindIndexOfListed(s, i);
    var first := Update(s, s.users[i].id, u, now);
    assert first.store.users[i] == first.result.value;
    FindIndexOfListed(first.store, j);
    assert first.store.users[j] == s.users[j];
  }

  /** The store starts out satisfying its invariant, with nothing to list. */
  lemma EmptyIsValid()
    ensures Valid(Empty) && FindAll(Empty) == []
  {
  }
}
