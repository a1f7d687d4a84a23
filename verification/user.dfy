/** The `User` entity (app/entities/user.ts): construction from a registration
    draft, the public view without the password, and `merge`. */
module UserEntity {
  import opened Base

  /** `CreateUserDTO`. */
  datatype UserDraft = UserDraft(email: string, name: string, password: string)

  datatype User = User(
    id: Id,
    email: string,
    name: string,
    password: string,
    createdAt: Timestamp,
    updatedAt: Timestamp)

  /** `UserResponseDTO`: the public view of a user; it has no password field. */
  datatype UserView = UserView(
    id: Id,
    email: string,
    name: string,
    createdAt: Timestamp,
    updatedAt: Timestamp)

  /** `UpdateUserDTO`: the fields a profile update may carry. */
  datatype UserUpdate = UserUpdate(email: Option<string>, name: Option<string>, password: Option<string>)

  /** `Partial<User>`: any subset of the record's fields, as `merge` accepts it. */
  datatype UserPatch = UserPatch(
    id: Option<Id>,
    email: Option<string>,
    name: Option<string>,
    password: Option<string>,
    createdAt: Option<Timestamp>,
    updatedAt: Option<Timestamp>)

  const EmptyPatch: UserPatch := UserPatch(None, None, None, None, None, None)

  /** The draft a record was built from. */
  function DraftOf(u: User): UserDraft
  {
    UserDraft(u.email, u.name, u.password)
  }

  /** `new User(data)`, with the generated UUID and the clock reading supplied. */
  function NewUser(d: UserDraft, id: Id, now: Timestamp): (u: User)
    ensures DraftOf(u) == d
    ensures u.id == id
    ensures u.createdAt == now && u.updatedAt == now
  {
    User(id, d.email, d.name, d.password, now, now)
  }

  /** `user.serialize()`. */
  function Serialize(u: User): UserView
  {
    UserView(u.id, u.email, u.name, u.createdAt, u.updatedAt)
  }

  /** The view carries every field but the password: two users have the same
      view exactly when they agree on everything except, possibly, the password. */
  lemma SerializeForgetsOnlyPassword(u: User, u': User)
    ensures Serialize(u) == Serialize(u') <==> u.(password := u'.password) == u'
  {
  }

  /** `user.merge(data)`: `Object.assign` of the patch onto the record. */
  function Merge(u: User, p: UserPatch): User
  {
    User(
      Patched(p.id, u.id),
      Patched(p.email, u.email),
      Patched(p.name, u.name),
      Patched(p.password, u.password),
      Patched(p.createdAt, u.createdAt),
      Patched(p.updatedAt, u.updatedAt))
  }

  /** `merge` overwrites the fields the patch carries and keeps every other one. */
  lemma MergeOverwritesExactlyPatched(u: User, p: UserPatch)
    ensures var r := Merge(u, p);
      && (p.id.Some? ==> r.id == p.id.value) && (p.id.None? ==> r.id == u.id)
      && (p.email.Some? ==> r.email == p.email.value) && (p.email.None? ==> r.email == u.email)
      && (p.name.Some? ==> r.name == p.name.value) && (p.name.None? ==> r.name == u.name)
      && (p.password.Some? ==> r.password == p.password.value) && (p.password.None? ==> r.password == u.password)
      && (p.createdAt.Some? ==> r.createdAt == p.createdAt.value) && (p.createdAt.None? ==> r.createdAt == u.createdAt)
      && (p.updatedAt.Some? ==> r.updatedAt == p.updatedAt.value) && (p.updatedAt.None? ==> r.updatedAt == u.updatedAt)
  {
  }

  /** Merging the empty patch leaves the record as it was, and merging the same
      patch twice is the same as merging it once. */
  lemma MergeIdentityAndIdempotence(u: User, p: UserPatch)
    ensures Merge(u, EmptyPatch) == u
    ensures Merge(Merge(u, p), p) == Merge(u, p)
  {
  }
}
