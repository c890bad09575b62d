/** models/Auth.php: the decisions of `login`, `register` and
    `getUserFromToken` on top of the token codec. Password hashing and
    verification are parameters, as is the clock. */
module Auth {
  import opened Wrappers
  import Jwt
  import Users
  import UserSettings

  /** What a successful login or registration hands back. */
  datatype Session = Session(userId: int, username: string, email: string, token: string)

  datatype Registration =
    | Registered(session: Session)
    | RegisterFailed(message: string)

  /** `login`: the first user with this email, if the password verifies
      against that user's hash, gets a token issued at `now`. Any other user
      with the same email is not tried. */
  function Login(p: Jwt.Primitives, users: Users.UserTable, email: string, password: string,
                 verify: (string, string) -> bool, now: int): (r: Option<Session>)
    ensures r.Some? <==> Users.FindByEmail(users, email).Some? &&
                         verify(password, Users.FindByEmail(users, email).value.passwordHash)
    ensures r.Some? ==> r.value.userId == Users.FindByEmail(users, email).value.id
    ensures r.Some? ==> r.value.token == Jwt.GenerateJwt(p, r.value.userId, now)
  {
    match Users.FindByEmail(users, email)
    case None => None
    case Some(u) =>
      if verify(password, u.passwordHash) then Some(Session(u.id, u.username, u.email, Jwt.GenerateJwt(p, u.id, now)))
      else None
  }

  /** `register`: refuses an email in use, then a username in use (in that
      order); otherwise inserts the user with the hashed password, creates
      the default settings row and issues a token for the new id. */
  function Register(p: Jwt.Primitives, users: Users.UserTable, settings: UserSettings.Table,
                    username: string, email: string, password: string, phone: string, picture: string,
                    hash: string -> string, now: int)
    : (r: (Registration, Users.UserTable, UserSettings.Table))
    ensures Users.FindByEmail(users, email).Some? ==> r == (RegisterFailed("Email is already in use."), users, settings)
    ensures Users.FindByEmail(users, email).None? && Users.FindByUsername(users, username).Some? ==>
      r == (RegisterFailed("Username is already taken."), users, settings)
    ensures r.0.Registered? ==>
      && r.0.session.userId == users.nextId
      && r.1.rows == users.rows + [Users.User(users.nextId, username, email, hash(password), phone, picture)]
      && r.2 == settings[users.nextId := UserSettings.Defaults]
      && r.0.session.token == Jwt.GenerateJwt(p, users.nextId, now)
    ensures r.0.RegisterFailed? ==> r.1 == users && r.2 == settings
  {
    if Users.FindByEmail(users, email).Some? then (RegisterFailed("Email is already in use."), users, settings)
    else if Users.FindByUsername(users, username).Some? then (RegisterFailed("Username is already taken."), users, settings)
    else
      var (id, users') := Users.Insert(users, username, email, hash(password), phone, picture);
      var (_, settings') := UserSettings.CreateDefault(settings, id);
      (Registered(Session(id, username, email, Jwt.GenerateJwt(p, id, now))), users', settings')
  }

  /** `getUserFromToken`: false when validation fails, when the payload has
      no `user_id`, or when no user has that id. */
  function GetUserFromToken(p: Jwt.Primitives, users: Users.UserTable, token: string, now: int): (r: Option<Users.User>)
    ensures r.Some? ==> Jwt.ValidateToken(p, token, now).Some?
    ensures r.Some? ==> Jwt.ValidateToken(p, token, now).value.userId == Some(r.value.id)
    ensures r.Some? ==> r.value in users.rows
    ensures r.None? <==>
      || Jwt.ValidateToken(p, token, now).None?
      || Jwt.ValidateToken(p, token, now).value.userId.None?
      || !Users.Exists(users, Jwt.ValidateToken(p, token, now).value.userId.value)
  {
    match Jwt.ValidateToken(p, token, now)
    case None => None
    case Some(claims) =>
      match claims.userId
      case None => None
      case Some(id) => Users.FindById(users, id)
  }

  /** A token issued for an existing user identifies that user until it
      expires, and identifies nobody afterwards. */
  lemma IssuedTokenIdentifiesUser(p: Jwt.Primitives, users: Users.UserTable, u: Users.User, issuedAt: int, now: int)
    requires Jwt.Lawful(p)
    requires Users.Valid(users) && u in users.rows
    ensures now <= issuedAt + 86400 ==> GetUserFromToken(p, users, Jwt.GenerateJwt(p, u.id, issuedAt), now) == Some(u)
    ensures now > issuedAt + 86400 ==> GetUserFromToken(p, users, Jwt.GenerateJwt(p, u.id, issuedAt), now) == None
  {
    Jwt.GeneratedTokenLifetime(p, u.id, issuedAt, now);
    var found := Users.FindById(users, u.id);
    assert found.Some?;
  }

  /** The session a successful login returns carries a token that
      identifies the logged-in user for the next 24 hours. */
  lemma LoginTokenIdentifiesUser(p: Jwt.Primitives, users: Users.UserTable, email: string, password: string,
                                 verify: (string, string) -> bool, now: int, later: int)
    requires Jwt.Lawful(p) && Users.Valid(users)
    requires Login(p, users, email, password, verify, now).Some?
    requires now <= later <= now + 86400
    ensures GetUserFromToken(p, users, Login(p, users, email, password, verify, now).value.token, later)
            == Users.FindByEmail(users, email)
  {
    var u := Users.FindByEmail(users, email).value;
    IssuedTokenIdentifiesUser(p, users, u, now, later);
  }

  /** A registration with a fresh email and username is followed by a
      successful login with the same password, provided the verifier
      accepts what the hasher produced. */
  lemma RegisterThenLogin(p: Jwt.Primitives, users: Users.UserTable, settings: UserSettings.Table,
                          username: string, email: string, password: string, phone: string, picture: string,
                          hash: string -> string, verify: (string, string) -> bool, now: int)
    requires verify(password, hash(password))
    requires Users.FindByEmail(users, email).None? && Users.FindByUsername(users, username).None?
    ensures Register(p, users, settings, username, email, password, phone, picture, hash, now).0.Registered?
    ensures Login(p, Register(p, users, settings, username, email, password, phone, picture, hash, now).1,
                  email, password, verify, now).Some?
    ensures Login(p, Register(p, users, settings, username, email, password, phone, picture, hash, now).1,
                  email, password, verify, now).value.userId == users.nextId
  {
    var users' := Register(p, users, settings, username, email, password, phone, picture, hash, now).1;
    var found := Users.FindByEmail(users', email);
    assert users'.rows[|users.rows|].email == email;
    assert found.Some?;
    assert found.value == users'.rows[|users.rows|] by {
      assert forall j | 0 <= j < |users.rows| :: users'.rows[j] == users.rows[j];
      var i :| 0 <= i < |users'.rows| && users'.rows[i] == found.value &&
               forall j | 0 <= j < i :: users'.rows[j].email != email;
      assert i == |users.rows|;
    }
  }
}
