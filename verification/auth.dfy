/**
 * The credentials provider and the session callbacks: sign-up inserts a
 * PENDING user, sign-in checks the stored password hash, the `jwt` callback
 * copies the user's role and status into the token at sign-in and later
 * refuses a token whose role or status no longer matches the stored user,
 * and the `session` callback exposes the token's fields.
 *
 * Hashing and hash comparison are parameters: `hash` stands for bcrypt's
 * `hash` and `matches(password, stored)` for its `compare`.
 */
module Auth {
  import opened Common
  import opened Domain

  /** The form fields of the credentials provider; "" stands for a missing field. */
  datatype Credentials = Credentials(email: string, password: string, name: string, isSignUp: string)

  /** The user object `authorize` returns. */
  datatype AuthUser = AuthUser(id: UserId, email: string, name: string, role: Role, status: UserStatus)

  /** The JSON web token's fields this application adds; "" stands for an absent id. */
  datatype Jwt = Jwt(id: string, role: Option<Role>, status: Option<UserStatus>)

  datatype SessionUser = SessionUser(id: string, email: string, name: string, role: Option<Role>, status: Option<UserStatus>)

  datatype Session = Session(user: SessionUser, expires: string)

  datatype AuthError =
    | CredentialsRequired
    | NameRequired
    | EmailAlreadyRegistered
    | InvalidCredentials
    | NoStoredPassword   // `compare` given no stored hash throws its own error

  datatype JwtError = UserGone | RoleOrStatusChanged

  function AuthErrorMessage(e: AuthError): string
    requires e != NoStoredPassword
  {
    match e
    case CredentialsRequired => "Email and password are required"
    case NameRequired => "Name is required for sign up"
    case EmailAlreadyRegistered => "Email already registered"
    case InvalidCredentials => "Invalid email or password"
  }

  function JwtErrorMessage(e: JwtError): string
  {
    match e
    case UserGone => "User not found"
    case RoleOrStatusChanged => "User role or status has changed"
  }

  predicate CredentialsPresent(credentials: Option<Credentials>)
  {
    credentials.Some? && credentials.value.email != "" && credentials.value.password != ""
  }

  /** The fields `authorize` copies from a stored user. */
  function Mirror(u: User): AuthUser
  {
    AuthUser(u.id, u.email, u.name, u.role, u.status)
  }

  /** The checks sign-up runs before inserting: a name, then an unused email. */
  function SignUpCheck(users: map<UserId, User>, c: Credentials): (r: Outcome<AuthError>)
    ensures c.name == "" ==> r == Fail(NameRequired)
    ensures c.name != "" && EmailTaken(users, c.email) ==> r == Fail(EmailAlreadyRegistered)
    ensures r.Pass? <==> c.name != "" && !EmailTaken(users, c.email)
  {
    if c.name == "" then Fail(NameRequired)
    else if EmailTaken(users, c.email) then Fail(EmailAlreadyRegistered)
    else Pass
  }

  /** The row sign-up inserts: role USER, status PENDING, the password hashed. */
  function SignUpUser(id: UserId, c: Credentials, hash: string -> string, schema: Schema): User
  {
    User(id, c.email, c.name, Some(hash(c.password)), Role.USER, UserStatus.PENDING, schema.ptoBalance, None, None)
  }

  /**
   * Sign-in: look the email up, compare the password with the stored hash.
   * An unknown email and a wrong password fail with the same error.
   */
  function SignIn(users: map<UserId, User>, email: string, password: string,
                  matches: (string, string) -> bool)
    : (r: Result<AuthUser, AuthError>)
    requires UsersValid(users)
    ensures !EmailTaken(users, email) ==> r == Err(InvalidCredentials)
    ensures r.Err? && r.error != InvalidCredentials ==> r.error == NoStoredPassword
    ensures r.Ok? <==>
              exists id :: id in users && users[id].email == email && users[id].password.Some? &&
                           matches(password, users[id].password.value)
    ensures r.Ok? ==> r.value.id in users && r.value == Mirror(users[r.value.id]) && r.value.email == email
  {
    var user := UserByEmail(users, email);
    if user.None? then Err(InvalidCredentials)
    else if user.value.password.None? then Err(NoStoredPassword)
    else if !matches(password, user.value.password.value) then Err(InvalidCredentials)
    else Ok(Mirror(user.value))
  }

  /** A wrong password and an unknown email cannot be told apart by the error. */
  lemma WrongPasswordLooksLikeUnknownEmail(users: map<UserId, User>, id: UserId, password: string,
                                           other: string, matches: (string, string) -> bool)
    requires UsersValid(users) && id in users && users[id].password.Some?
    requires !matches(password, users[id].password.value)
    requires !EmailTaken(users, other)
    ensures SignIn(users, users[id].email, password, matches) == SignIn(users, other, password, matches)
  {
  }

  /**
   * `authorize`: missing credentials are refused before the store is read;
   * sign-up (`isSignUp === "true"`) inserts one user; sign-in changes nothing.
   */
  method Authorize(db: Store, credentials: Option<Credentials>, hash: string -> string,
                   matches: (string, string) -> bool, newId: UserId, schema: Schema)
    returns (r: Result<AuthUser, AuthError>)
    requires db.Valid() && newId !in db.users
    modifies db
    ensures db.Valid()
    ensures db.departments == old(db.departments) && db.requests == old(db.requests)
    ensures !CredentialsPresent(credentials) ==> r == Err(CredentialsRequired) && db.users == old(db.users)
    ensures CredentialsPresent(credentials) && credentials.value.isSignUp == "true" ==>
              var c := credentials.value;
              var check := SignUpCheck(old(db.users), c);
              && (r.Ok? <==> check.Pass?)
              && (r.Err? ==> Fail(r.error) == check && db.users == old(db.users))
              && (r.Ok? ==> db.users == old(db.users)[newId := SignUpUser(newId, c, hash, schema)]
                            && r.value == Mirror(db.users[newId]))
    ensures CredentialsPresent(credentials) && credentials.value.isSignUp != "true" ==>
              r == SignIn(old(db.users), credentials.value.email, credentials.value.password, matches)
              && db.users == old(db.users)
  {
    if !CredentialsPresent(credentials) {
      return Err(CredentialsRequired);
    }
    var c := credentials.value;
    if c.isSignUp == "true" {
      if c.name == "" {
        return Err(NameRequired);
      }
      var existingUser := UserByEmail(db.users, c.email);
      if existingUser.Some? {
        return Err(EmailAlreadyRegistered);
      }
      var user := SignUpUser(newId, c, hash, schema);
      db.users := db.users[newId := user];
      return Ok(Mirror(user));
    }
    r := SignIn(db.users, c.email, c.password, matches);
  }

  /**
   * The `jwt` callback. At sign-in it copies id, role and status into the
   * token; afterwards it re-reads the user and refuses the token once the
   * user is gone or its role or status differs from the token's.
   */
  function JwtCallback(token: Jwt, user: Option<AuthUser>, users: map<UserId, User>)
    : (r: Result<Jwt, JwtError>)
    ensures user.Some? ==>
              r.Ok? && r.value.id == user.value.id && r.value.role == Some(user.value.role)
              && r.value.status == Some(user.value.status)
    ensures user.None? && token.id != "" && token.id !in users ==> r == Err(UserGone)
    ensures user.None? && token.id != "" && token.id in users &&
            (token.role != Some(users[token.id].role) || token.status != Some(users[token.id].status))
            ==> r == Err(RoleOrStatusChanged)
    ensures user.None? ==>
              (r.Ok? <==> token.id == "" ||
                          (token.id in users && token.role == Some(users[token.id].role)
                           && token.status == Some(users[token.id].status)))
    ensures user.None? && r.Ok? ==> r.value == token
  {
    if user.Some? then
      Ok(token.(id := user.value.id, role := Some(user.value.role), status := Some(user.value.status)))
    else if token.id != "" then
      if token.id !in users then Err(UserGone)
      else if Some(users[token.id].role) != token.role || Some(users[token.id].status) != token.status then
        Err(RoleOrStatusChanged)
      else Ok(token)
    else Ok(token)
  }

  /** A role change in the store signs the user out at the next token check. */
  lemma RoleChangeForcesSignOut(token: Jwt, users: map<UserId, User>, role: Role)
    requires token.id != "" && token.id in users && JwtCallback(token, None, users).Ok?
    requires role != users[token.id].role
    ensures JwtCallback(token, None, users[token.id := users[token.id].(role := role)]) == Err(RoleOrStatusChanged)
  {
  }

  /** The `session` callback: the session's user carries the token's id, role and status. */
  function SessionCallback(session: Session, token: Jwt): (r: Session)
    ensures r.user.id == token.id && r.user.role == token.role && r.user.status == token.status
    ensures r.user.email == session.user.email && r.user.name == session.user.name
    ensures r.expires == session.expires
  {
    session.(user := session.user.(id := token.id, role := token.role, status := token.status))
  }

  /** After a successful sign-in, the session reports the stored user's id, role and status. */
  lemma SessionMirrorsSignedInUser(users: map<UserId, User>, email: string, password: string,
                                   matches: (string, string) -> bool, token: Jwt, session: Session)
    requires UsersValid(users)
    requires SignIn(users, email, password, matches).Ok?
    ensures var u := SignIn(users, email, password, matches).value;
            var s := SessionCallback(session, JwtCallback(token, Some(u), users).value);
            u.id in users && s.user.id == u.id
            && s.user.role == Some(users[u.id].role) && s.user.status == Some(users[u.id].status)
  {
  }
}
