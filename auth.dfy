/** The credential check and token issue of the auth service
    (backend/src/modules/auth/auth.service.ts) and the token subject check
    of the JWT strategy (jwt.strategy.ts). The password hash comparison and
    token signing are parameters: `compare(password, hash)` and
    `sign(payload)`. */
module Auth {
  import opened Common
  import opened Query

  datatype AdminUser = AdminUser(id: Id, email: string, passwordHash: string, role: string)

  /** The claims of an access token. */
  datatype JwtPayload = JwtPayload(sub: Id, email: string, role: string)

  datatype LoginResponse = LoginResponse(accessToken: string)

  const InvalidCredentials: Error := Unauthorized("Invalid credentials")

  /** `email` is a unique column, and so is the primary key. */
  ghost predicate TableValid(users: seq<AdminUser>) {
    forall i, j :: 0 <= i < j < |users| ==> users[i].email != users[j].email && users[i].id != users[j].id
  }

  /** `validateUser(email, password)`: the user with that email, provided
      the password matches its hash; otherwise one and the same
      Unauthorized error. */
  function ValidateUser(users: seq<AdminUser>, email: string, password: string,
                        compare: (string, string) -> bool): (r: Result<AdminUser>)
    ensures r.Err? ==> r.error == InvalidCredentials
    ensures r.Ok? ==> r.value in users && r.value.email == email && compare(password, r.value.passwordHash)
    ensures (forall i :: 0 <= i < |users| ==> users[i].email != email) ==> r.Err?
  {
    match FindFirst(users, (u: AdminUser) => u.email == email)
    case None => Err(InvalidCredentials)
    case Some(i) =>
      if compare(password, users[i].passwordHash) then Ok(users[i]) else Err(InvalidCredentials)
  }

  /** With unique emails, validation succeeds exactly for the user with that
      email whose hash the password matches. */
  lemma ValidateUserIff(users: seq<AdminUser>, email: string, password: string,
                        compare: (string, string) -> bool, k: nat)
    requires TableValid(users)
    requires k < |users| && users[k].email == email
    ensures ValidateUser(users, email, password, compare).Ok? <==> compare(password, users[k].passwordHash)
    ensures ValidateUser(users, email, password, compare).Ok? ==> ValidateUser(users, email, password, compare).value == users[k]
  {
    var found := FindFirst(users, (u: AdminUser) => u.email == email);
    assert found.Some?;
    assert found.value == k;
  }

  /** An unknown email and a wrong password for a known one give the
      caller exactly the same outcome. */
  lemma UnknownUserLooksLikeWrongPassword(users: seq<AdminUser>, unknown: string, p1: string,
                                          known: string, p2: string, compare: (string, string) -> bool, k: nat)
    requires TableValid(users)
    requires forall i :: 0 <= i < |users| ==> users[i].email != unknown
    requires k < |users| && users[k].email == known && !compare(p2, users[k].passwordHash)
    ensures ValidateUser(users, unknown, p1, compare) == ValidateUser(users, known, p2, compare) == Err(InvalidCredentials)
  {
    ValidateUserIff(users, known, p2, compare, k);
  }

  /** The claims `login` signs for a validated user. */
  function PayloadOf(u: AdminUser): (p: JwtPayload)
    ensures p.sub == u.id && p.email == u.email && p.role == u.role
  {
    JwtPayload(u.id, u.email, u.role)
  }

  /** `login(email, password)`: fails as validation fails, otherwise signs
      the validated user's id, email and role. */
  function Login(users: seq<AdminUser>, email: string, password: string,
                 compare: (string, string) -> bool, sign: JwtPayload -> string): (r: Result<LoginResponse>)
    ensures r.Err? <==> ValidateUser(users, email, password, compare).Err?
    ensures r.Err? ==> r.error == InvalidCredentials
    ensures r.Ok? ==> exists u :: (u in users && u.email == email && compare(password, u.passwordHash) &&
                                   r.value.accessToken == sign(JwtPayload(u.id, u.email, u.role)))
  {
    match ValidateUser(users, email, password, compare)
    case Err(e) => Err(e)
    case Ok(u) => Ok(LoginResponse(sign(PayloadOf(u))))
  }

  /** `findById(id)`. */
  function FindById(users: seq<AdminUser>, id: Id): (r: Option<AdminUser>)
    ensures r.Some? ==> r.value in users && r.value.id == id
    ensures r.None? <==> forall i :: 0 <= i < |users| ==> users[i].id != id
  {
    match FindFirst(users, (u: AdminUser) => u.id == id)
    case None => None
    case Some(i) => Some(users[i])
  }

  /** The strategy's `validate(payload)` on a token whose signature and
      expiry were accepted: the subject must still be a user. */
  function ValidateToken(users: seq<AdminUser>, payload: JwtPayload): (r: Result<AdminUser>)
    ensures r.Err? <==> forall i :: 0 <= i < |users| ==> users[i].id != payload.sub
    ensures r.Err? ==> r.error == Failure("User not found")
    ensures r.Ok? ==> r.value in users && r.value.id == payload.sub
  {
    match FindById(users, payload.sub)
    case None => Err(Failure("User not found"))
    case Some(u) => Ok(u)
  }

  /** The claims issued at login identify the same user while the table is
      unchanged. */
  lemma LoginTokenIdentifiesUser(users: seq<AdminUser>, email: string, password: string,
                                 compare: (string, string) -> bool)
    requires TableValid(users)
    requires ValidateUser(users, email, password, compare).Ok?
    ensures ValidateToken(users, PayloadOf(ValidateUser(users, email, password, compare).value))
      == ValidateUser(users, email, password, compare)
  {
    var u := ValidateUser(users, email, password, compare).value;
    var k :| 0 <= k < |users| && users[k] == u;
    var found := FindFirst(users, (v: AdminUser) => v.id == u.id);
    assert found.Some?;
    assert found.value == k;
  }
}
