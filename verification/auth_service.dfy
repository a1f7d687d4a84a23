/** The session service (app/services/auth_service.ts): login, token
    verification and token-to-user resolution. bcrypt and jsonwebtoken are the
    `Hasher` and `Jwt` values the caller supplies. */
module AuthService {
  import opened Base
  import opened UserEntity
  import opened Crypto
  import Users = UserRepository
  import UserService

  const NotAuthorized: Error := HttpError("Não autorizado", UnauthorizedStatus, UnauthorizedCode)

  /** `expiresIn: '7d'`. */
  const TokenLifetime: string := "7d"

  /** The claims a login signs for a user: the user id as payload and subject,
      valid for seven days. */
  function ClaimsFor(u: User): Claims
  {
    Claims(u.id, u.id, TokenLifetime)
  }

  /** `login(email, password)`: the same 401 for an unknown email and for a
      wrong password; otherwise a token signed for the first user with that
      email. */
  function Login(s: Users.Store, h: Hasher, j: Jwt, email: string, password: string): (r: Result<Token>)
    ensures r.Err? ==> r.error == NotAuthorized
    ensures email !in Users.EmailsOf(s.users) ==> r == Err(NotAuthorized)
    ensures email in Users.EmailsOf(s.users) ==>
      var u := Users.FindByEmail(s, email).value;
      r == (if h.compare(password, u.password) then Ok(j.sign(ClaimsFor(u))) else Err(NotAuthorized))
  {
    match Users.FindByEmail(s, email)
    case None => Err(NotAuthorized)
    case Some(u) =>
      if !h.compare(password, u.password) then
        Err(NotAuthorized)
      else
        Ok(j.sign(Claims(u.id, u.id, TokenLifetime)))
  }

  /** `verifyToken(token)`: the subject of a token that verifies, and null
      when verification throws; it never raises. */
  function VerifyToken(j: Jwt, token: Token): (r: Option<Id>)
    ensures j.verify(token).Rejected? ==> r.None?
    ensures j.verify(token).Verified? ==> r == j.verify(token).sub
  {
    match j.verify(token)
    case Rejected => None
    case Verified(sub) => sub
  }

  /** `getAuthUser(token)`: null unless the token verifies to a truthy
      subject; otherwise the store's user with that id, null once deleted. */
  function GetAuthUser(s: Users.Store, j: Jwt, token: Token): (r: Option<User>)
    ensures VerifyToken(j, token).None? ==> r.None?
    ensures r.Some? ==> r.value in s.users && Some(r.value.id) == VerifyToken(j, token) && r.value.id != ""
    ensures forall id :: VerifyToken(j, token) == Some(id) && id != "" ==>
      (r.Some? <==> id in Users.IdsOf(s.users))
  {
    var userId := VerifyToken(j, token);
    if userId.None? || userId.value == "" then None
    else Users.FindById(s, userId.value)
  }

  /** The same error for an unknown email and for a wrong password, so a
      failed login does not reveal whether the account exists. */
  lemma LoginFailuresIndistinguishable(s: Users.Store, h: Hasher, j: Jwt, unknown: string, known: string, p: string, q: string)
    requires unknown !in Users.EmailsOf(s.users)
    requires Login(s, h, j, known, q).Err?
    ensures Login(s, h, j, unknown, p) == Login(s, h, j, known, q) == Err(NotAuthorized)
  {
  }

  /** A token obtained from `login` verifies to the id of the user with that
      email. */
  lemma LoginVerifyRoundTrip(s: Users.Store, h: Hasher, j: Jwt, email: string, password: string)
    requires SignRoundTrip(j)
    requires Login(s, h, j, email, password).Ok?
    ensures VerifyToken(j, Login(s, h, j, email, password).value) == Some(Users.FindByEmail(s, email).value.id)
  {
    var u := Users.FindByEmail(s, email).value;
    assert j.verify(j.sign(ClaimsFor(u))) == Verified(Some(u.id));
  }

  /** Register, then log in with the same credentials: the login succeeds, and
      its token resolves to the registered user. */
  lemma RegisterThenLogin(s: Users.Store, h: Hasher, j: Jwt, d: UserDraft, id: Id, now: Timestamp)
    requires HashRoundTrip(h) && SignRoundTrip(j)
    requires Users.Valid(s) && id != ""
    requires UserService.Create(s, h, d, id, now).result.Ok?
    ensures var r := UserService.Create(s, h, d, id, now);
      && Login(r.store, h, j, d.email, d.password) == Ok(j.sign(ClaimsFor(r.result.value)))
      && GetAuthUser(r.store, j, j.sign(ClaimsFor(r.result.value))) == Some(r.result.value)
  {
    var r := UserService.Create(s, h, d, id, now);
    var u := r.result.value;
    Users.CreateThenFind(s, d.(password := h.hash(d.password)), id, now);
    assert h.compare(d.password, h.hash(d.password));
    assert j.verify(j.sign(ClaimsFor(u))) == Verified(Some(u.id));
  }

  /** Once the user behind a token is deleted, the token no longer resolves. */
  lemma DeletedUserTokenRejected(s: Users.Store, h: Hasher, j: Jwt, email: string, password: string)
    requires SignRoundTrip(j) && Users.Valid(s)
    requires Login(s, h, j, email, password).Ok?
    ensures var u := Users.FindByEmail(s, email).value;
      GetAuthUser(UserService.Delete(s, u.id).store, j, Login(s, h, j, email, password).value).None?
  {
    LoginVerifyRoundTrip(s, h, j, email, password);
  }
}
