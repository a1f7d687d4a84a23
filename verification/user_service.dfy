/** The user service (app/services/user_service.ts): registration with the
    duplicate-email gate and password hashing, lookups that raise 404, and
    update and delete guarded by an existence check. */
module UserService {
  import opened Base
  import opened UserEntity
  import opened Crypto
  import Repo = UserRepository

  const UserNotFound: Error := HttpError("Usuário não encontrado", NotFoundStatus, RowNotFoundCode)
  const DuplicateEmail: Error := HttpError("Email já cadastrado", BadRequestStatus, DuplicateCode)

  /** `getAll()`: the public view of every user, in store order. */
  function GetAll(s: Repo.Store): (r: seq<UserView>)
    ensures |r| == |s.users|
    ensures forall i :: 0 <= i < |r| ==>
      && r[i].id == s.users[i].id && r[i].email == s.users[i].email && r[i].name == s.users[i].name
      && r[i].createdAt == s.users[i].createdAt && r[i].updatedAt == s.users[i].updatedAt
  {
    seq(|s.users|, i requires 0 <= i < |s.users| => Serialize(s.users[i]))
  }

  /** Two user lists that differ at most in passwords. */
  predicate SameButPasswords(us: seq<User>, vs: seq<User>)
  {
    |us| == |vs| && forall i :: 0 <= i < |us| ==> us[i].(password := vs[i].password) == vs[i]
  }

  /** The listing reveals nothing about passwords: stores that differ only in
      passwords list the same views. */
  lemma GetAllHidesPasswords(s: Repo.Store, t: Repo.Store)
    requires SameButPasswords(s.users, t.users)
    ensures GetAll(s) == GetAll(t)
  {
    forall i | 0 <= i < |s.users| ensures GetAll(s)[i] == GetAll(t)[i] {
      SerializeForgetsOnlyPassword(s.users[i], t.users[i]);
    }
  }

  /** `create(data)`: refuses an email some current user has with 400
      `E_DUPLICATE`; otherwise stores the user with the password replaced by
      its hash, and returns the stored record itself (hash included). */
  function Create(s: Repo.Store, h: Hasher, d: UserDraft, id: Id, now: Timestamp): (r: Step<Repo.Store, User>)
    ensures r.result.Err? ==> r.store == s
    ensures r.result == Err(DuplicateEmail) <==> d.email in Repo.EmailsOf(s.users)
    ensures r.result.Ok? <==> d.email !in Repo.EmailsOf(s.users) && id !in s.userIds && d.email !in s.userEmails
    ensures r.result.Err? ==> r.result.error in {DuplicateEmail, Repo.IdTaken, Repo.EmailTaken}
    ensures d.email !in Repo.EmailsOf(s.users) ==> r == Repo.Create(s, d.(password := h.hash(d.password)), id, now)
    ensures r.result.Ok? ==>
      && r.result.value == NewUser(d.(password := h.hash(d.password)), id, now)
      && r.store.users == s.users + [r.result.value]
    ensures Repo.Valid(s) ==> Repo.Valid(r.store)
  {
    if Repo.FindByEmail(s, d.email).Some? then
      Step(s, Err(DuplicateEmail))
    else
      Repo.Create(s, UserDraft(d.email, d.name, h.hash(d.password)), id, now)
  }

  /** `getByID(id)`: the stored user, or 404. */
  function GetById(s: Repo.Store, id: Id): (r: Result<User>)
    ensures r.Err? ==> r.error == UserNotFound
    ensures r.Ok? <==> id in Repo.IdsOf(s.users)
    ensures r.Ok? ==> r.value in s.users && r.value.id == id
  {
    match Repo.FindById(s, id)
    case None => Err(UserNotFound)
    case Some(u) => Ok(u)
  }

  /** `getByEmail(email)`: the first stored user with that email, or 404. */
  function GetByEmail(s: Repo.Store, email: string): (r: Result<User>)
    ensures r.Err? ==> r.error == UserNotFound
    ensures r.Ok? <==> email in Repo.EmailsOf(s.users)
    ensures r.Ok? ==> r.value in s.users && r.value.email == email
    ensures r.Ok? ==>
      exists i :: 0 <= i < |s.users| && s.users[i] == r.value && forall j :: 0 <= j < i ==> s.users[j].email != email
  {
    match Repo.FindByEmail(s, email)
    case None => Err(UserNotFound)
    case Some(u) => Ok(u)
  }

  /** `update(id, data)`: 404 for an absent id before the store is asked;
      otherwise the store update, whose result is returned without its
      password. The patch is passed on as given, so a new password is stored
      unhashed. */
  function Update(s: Repo.Store, id: Id, u: UserUpdate, now: Timestamp): (r: Step<Repo.Store, UserView>)
    ensures r.result.Err? ==> r.store == s
    ensures r.result == Err(UserNotFound) <==> id !in Repo.IdsOf(s.users)
    ensures r.result.Err? ==> r.result.error in {UserNotFound, Repo.EmailExists}
    ensures Repo.Valid(s) ==> forall k :: 0 <= k < |s.users| && s.users[k].id == id ==>
      (r.result == Err(Repo.EmailExists) <==> Repo.EmailClash(s, s.users[k], u))
    ensures r.result.Ok? ==> r.result.value.id == id && r.result.value.updatedAt == now
    ensures id in Repo.IdsOf(s.users) ==>
      && r.store == Repo.Update(s, id, u, now).store
      && (r.result.Ok? <==> Repo.Update(s, id, u, now).result.Ok?)
    ensures r.result.Ok? ==> r.result.value == Serialize(Repo.Update(s, id, u, now).result.value)
    ensures Repo.Valid(s) ==> Repo.Valid(r.store)
  {
    match Repo.FindById(s, id)
    case None => Step(s, Err(UserNotFound))
    case Some(_) =>
      var step := Repo.Update(s, id, u, now);
      match step.result
      case Ok(updated) => Step(step.store, Ok(Serialize(updated)))
      case Err(e) => Step(step.store, Err(e))
  }

  /** `delete(id)`: 404 for an absent id; otherwise the store delete. */
  function Delete(s: Repo.Store, id: Id): (r: Step<Repo.Store, ()>)
    ensures r.result.Err? ==> r.store == s && r.result.error == UserNotFound
    ensures r.result.Ok? <==> id in Repo.IdsOf(s.users)
    ensures r.result.Ok? ==> r.store == Repo.Delete(s, id)
    ensures Repo.Valid(s) ==> Repo.Valid(r.store)
  {
    match Repo.FindById(s, id)
    case None => Step(s, Err(UserNotFound))
    case Some(_) => Step(Repo.Delete(s, id), Ok(()))
  }

  /** Registering an email a second time fails with 400 `E_DUPLICATE` and
      stores nothing. */
  lemma DuplicateRegistrationRejected(s: Repo.Store, h: Hasher, d1: UserDraft, id1: Id, d2: UserDraft, id2: Id, now: Timestamp)
    requires Create(s, h, d1, id1, now).result.Ok?
    requires d2.email == d1.email
    ensures var s1 := Create(s, h, d1, id1, now).store;
      Create(s1, h, d2, id2, now) == Step(s1, Err(DuplicateEmail))
  {
    var s1 := Create(s, h, d1, id1, now).store;
    assert s1.users[|s1.users| - 1].email == d1.email;
  }

  /** A user whose profile update set a new password has that password stored
      as given, not hashed. */
  lemma UpdateStoresPasswordUnhashed(s: Repo.Store, id: Id, u: UserUpdate, now: Timestamp)
    requires Repo.Valid(s)
    requires Update(s, id, u, now).result.Ok? && u.password.Some?
    ensures var s' := Update(s, id, u, now).store;
      Repo.FindById(s', id).Some? && Repo.FindById(s', id).value.password == u.password.value
  {
    var r := Repo.Update(s, id, u, now);
    var k :| 0 <= k < |s.users| && s.users[k].id == id && Repo.InPlace(s, r.store, k, u, now, r.result.value);
    assert r.store.users[k] == r.result.value;
    Repo.FindByIdExact(r.store, r.result.value);
  }

  /** Because `delete` keeps the email indexed, registering again with the
      email of a deleted user passes the service's own duplicate check but is
      refused by the store with a plain error (a 500), not with 400
      `E_DUPLICATE`. */
  lemma ReRegisterAfterDelete(s: Repo.Store, h: Hasher, x: User, d: UserDraft, id: Id, now: Timestamp)
    requires Repo.Valid(s) && x in s.users && x.email in s.userEmails && x.email != ""
    requires forall y :: y in s.users && y.email == x.email ==> y == x
    requires d.email == x.email && id !in s.userIds - {x.id}
    ensures var s' := Delete(s, x.id).store;
      Create(s', h, d, id, now) == Step(s', Err(Repo.EmailTaken))
  {
    var s' := Delete(s, x.id).store;
    assert d.email !in Repo.EmailsOf(s'.users);
  }
}
