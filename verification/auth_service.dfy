/** Local registration and password login over the `users` table and the token service. */
module AuthService {
  import opened Wrappers
  import opened Crypto
  import opened CredentialStore
  import opened Errors
  import opened TokenService

  /** `saltRounds` passed to `bcrypt.hash`. */
  const SaltRounds: nat := 12

  /** The columns `registerUser` returns: `RETURNING id, email, name, created_at`; never the hash. */
  datatype RegisteredUser = RegisteredUser(id: string, email: string, name: string, createdAt: Time)

  /** The `user` object of a login response. */
  datatype UserSummary = UserSummary(id: string, email: string, name: string)

  datatype LoginResult = LoginResult(user: UserSummary, accessToken: string, refreshToken: string)

  /** The row `registerUser` inserts; `newId` and `createdAt` are the database's defaults, `salt` is bcrypt's. */
  function LocalUser(c: Primitives, email: string, password: string, name: string, salt: string, newId: string, now: Time): (u: User)
    ensures u.id == newId && u.email == email && u.name == name && u.createdAt == now
    ensures u.provider == "local" && u.providerId.None?
    ensures u.passwordHash == Some(c.bcryptHash(password, SaltRounds, salt))
    ensures BcryptSound(c) ==> c.bcryptCompare(password, u.passwordHash.value)
  {
    User(newId, email, Some(c.bcryptHash(password, SaltRounds, salt)), name, "local", None, now, now)
  }

  /**
   * `registerUser`: refused when the email is taken (and then nothing
   * changes); otherwise one `local` user with the bcrypt hash of the password
   * is inserted, as the database stores it, and its public columns are returned.
   */
  function Register(db: Tables, c: Primitives, email: string, password: string, name: string, salt: string, newId: string, now: Time)
    : (r: Step<RegisteredUser>)
    ensures r.result == Failure(UserExists) <==> exists u | u in db.users :: u.email == email
    ensures r.result.Failure? ==> r.db == db
    ensures r.result.Success? ==>
      && StoredUser(LocalUser(c, email, password, name, salt, newId, now)).Success?
      && var stored := StoredUser(LocalUser(c, email, password, name, salt, newId, now)).value;
      && r.db == Tables(db.users + [stored], db.refreshTokens)
      && r.result.value == RegisteredUser(newId, stored.email, stored.name, now)
    ensures ((forall u | u in db.users :: u.email != email) && newId !in UserIds(db.users) &&
             UserFits(LocalUser(c, email, password, name, salt, newId, now))) ==>
      r.result == Success(RegisteredUser(newId, email, name, now))
    ensures (forall u | u in db.users :: u.email != email) ==>
      var added := AddUser(db, LocalUser(c, email, password, name, salt, newId, now));
      && (added.Failure? ==> r == Step(Failure(Database(added.error)), db))
      && (added.Success? ==>
            var stored := StoredUser(LocalUser(c, email, password, name, salt, newId, now)).value;
            r == Step(Success(RegisteredUser(newId, stored.email, stored.name, now)), added.value))
    ensures Consistent(db) ==> Consistent(r.db)
  {
    if FindUserByEmail(db.users, email).Some? then Step(Failure(UserExists), db)
    else
      var u := LocalUser(c, email, password, name, salt, newId, now);
      match AddUser(db, u)
      case Failure(e) => Step(Failure(Database(e)), db)
      case Success(next) =>
        var stored := StoredUser(u).value;
        Step(Success(RegisteredUser(stored.id, stored.email, stored.name, stored.createdAt)), next)
  }

  /** `registerUser` against the live store. */
  method RegisterUser(store: Store, c: Primitives, email: string, password: string, name: string, salt: string, newId: string, now: Time)
    returns (r: Result<RegisteredUser, AuthError>)
    requires store.Valid()
    modifies store
    ensures store.Valid()
    ensures Step(r, store.Contents()) == Register(old(store.Contents()), c, email, password, name, salt, newId, now)
  {
    var existingUser := FindUserByEmail(store.users, email);
    if existingUser.Some? {
      return Failure(UserExists);
    }
    var passwordHash := c.bcryptHash(password, SaltRounds, salt);
    var result := store.InsertUser(User(newId, email, Some(passwordHash), name, "local", None, now, now));
    assert User(newId, email, Some(passwordHash), name, "local", None, now, now) == LocalUser(c, email, password, name, salt, newId, now);
    if result.Failure? {
      return Failure(Database(result.error));
    }
    var u := result.value;
    r := Success(RegisteredUser(u.id, u.email, u.name, u.createdAt));
  }

  /**
   * `loginUser`: an unknown email, a NULL hash, a wrong password and a missing
   * secret each fail with no change; success issues an access token for
   * `{userId, email}` and inserts exactly one refresh-token row for the user.
   */
  function Login(db: Tables, cfg: Config, c: Primitives, email: string, password: string, tokenId: string, rowId: string, now: Time)
    : (r: Step<LoginResult>)
    ensures r.db.users == db.users
    ensures r.result.Failure? ==> r.db == db
    ensures FindUserByEmail(db.users, email).None? ==> r == Step(Failure(InvalidCredentials), db)
    ensures FindUserByEmail(db.users, email).Some? ==>
      var u := FindUserByEmail(db.users, email).value;
      && (u.passwordHash.None? ==> r.result == Failure(HashArgumentsRequired))
      && (u.passwordHash.Some? && !c.bcryptCompare(password, u.passwordHash.value) ==> r.result == Failure(InvalidPassword))
    ensures r.result.Success? ==>
      && FindUserByEmail(db.users, email).Some?
      && var u := FindUserByEmail(db.users, email).value;
      && u.passwordHash.Some? && c.bcryptCompare(password, u.passwordHash.value)
      && r.result.value.user == UserSummary(u.id, email, u.name)
      && GenerateAccessToken(cfg, c, TokenPayload(u.id, email), now) == Success(r.result.value.accessToken)
      && IssueRefreshToken(db, cfg, c, u.id, tokenId, rowId, now) == Step(Success(r.result.value.refreshToken), r.db)
      && r.db.refreshTokens == db.refreshTokens + [RefreshRow(c, rowId, u.id, r.result.value.refreshToken, now)]
    ensures FindUserByEmail(db.users, email).Some? ==>
      var u := FindUserByEmail(db.users, email).value;
      var access := GenerateAccessToken(cfg, c, TokenPayload(u.id, email), now);
      var issued := IssueRefreshToken(db, cfg, c, u.id, tokenId, rowId, now);
      u.passwordHash.Some? && c.bcryptCompare(password, u.passwordHash.value) ==>
        && (access.Failure? ==> r == Step(Failure(access.error), db))
        && (access.Success? ==> (r.result.Success? <==> issued.result.Success?))
        && (access.Success? && issued.result.Failure? ==> r == Step(Failure(issued.result.error), db))
    ensures Consistent(db) ==> Consistent(r.db)
  {
    match FindUserByEmail(db.users, email)
    case None => Step(Failure(InvalidCredentials), db)
    case Some(u) =>
      if u.passwordHash.None? then Step(Failure(HashArgumentsRequired), db)
      else if !c.bcryptCompare(password, u.passwordHash.value) then Step(Failure(InvalidPassword), db)
      else
        match GenerateAccessToken(cfg, c, TokenPayload(u.id, u.email), now)
        case Failure(e) => Step(Failure(e), db)
        case Success(accessToken) =>
          var issued := IssueRefreshToken(db, cfg, c, u.id, tokenId, rowId, now);
          match issued.result
          case Failure(e) => Step(Failure(e), issued.db)
          case Success(refreshToken) =>
            Step(Success(LoginResult(UserSummary(u.id, u.email, u.name), accessToken, refreshToken)), issued.db)
  }

  /** `loginUser` against the live store. */
  method LoginUser(store: Store, cfg: Config, c: Primitives, email: string, password: string, tokenId: string, rowId: string, now: Time)
    returns (r: Result<LoginResult, AuthError>)
    requires store.Valid()
    modifies store
    ensures store.Valid()
    ensures Step(r, store.Contents()) == Login(old(store.Contents()), cfg, c, email, password, tokenId, rowId, now)
  {
    var result := FindUserByEmail(store.users, email);
    if result.None? {
      return Failure(InvalidCredentials);
    }
    var user := result.value;
    if user.passwordHash.None? {
      return Failure(HashArgumentsRequired);
    }
    var isPasswordValid := c.bcryptCompare(password, user.passwordHash.value);
    if !isPasswordValid {
      return Failure(InvalidPassword);
    }
    var accessToken := GenerateAccessToken(cfg, c, TokenPayload(user.id, user.email), now);
    if accessToken.Failure? {
      return Failure(accessToken.error);
    }
    var refreshToken := GenerateRefreshToken(store, cfg, c, user.id, tokenId, rowId, now);
    if refreshToken.Failure? {
      return Failure(refreshToken.error);
    }
    r := Success(LoginResult(UserSummary(user.id, user.email, user.name), accessToken.value, refreshToken.value));
  }

  /**
   * A user who has just registered can log in with the same email and
   * password, provided the email fits its column (see `OverlongEmailCannotLogIn`).
   */
  lemma RegisterThenLogin(db: Tables, cfg: Config, c: Primitives, email: string, password: string, name: string, salt: string,
                          newId: string, registeredAt: Time, tokenId: string, rowId: string, now: Time)
    requires BcryptSound(c) && HexDigest(c)
    requires HasSecret(cfg.accessSecret) && HasSecret(cfg.refreshSecret)
    requires Register(db, c, email, password, name, salt, newId, registeredAt).result.Success?
    requires |email| <= EmailWidth && |c.bcryptHash(password, SaltRounds, salt)| <= PasswordHashWidth
    requires rowId !in RowIds(db.refreshTokens)
    ensures var registered := Register(db, c, email, password, name, salt, newId, registeredAt);
      var s := Login(registered.db, cfg, c, email, password, tokenId, rowId, now);
      s.result.Success? && s.result.value.user == UserSummary(newId, email, registered.result.value.name)
  {
    var u := StoredUser(LocalUser(c, email, password, name, salt, newId, registeredAt)).value;
    var registered := Register(db, c, email, password, name, salt, newId, registeredAt).db;
    assert u.email == email;
    assert u.passwordHash == LocalUser(c, email, password, name, salt, newId, registeredAt).passwordHash;
    FindUserByEmailAppend(db.users, u, email);
    assert FindUserByEmail(registered.users, email) == Some(u);
    assert u in registered.users;
    assert newId in UserIds(registered.users);
  }

  /**
   * An email longer than its column whose excess is spaces registers, but is
   * stored truncated, so logging in with the email as given finds no user.
   */
  lemma OverlongEmailCannotLogIn(db: Tables, cfg: Config, c: Primitives, email: string, password: string, name: string, salt: string,
                                 newId: string, registeredAt: Time, tokenId: string, rowId: string, now: Time)
    requires Register(db, c, email, password, name, salt, newId, registeredAt).result.Success?
    requires |email| > EmailWidth
    ensures var registered := Register(db, c, email, password, name, salt, newId, registeredAt).db;
      Login(registered, cfg, c, email, password, tokenId, rowId, now) == Step(Failure(InvalidCredentials), registered)
  {
    var u := StoredUser(LocalUser(c, email, password, name, salt, newId, registeredAt)).value;
    assert |u.email| <= EmailWidth;
    FindUserByEmailAppend(db.users, u, email);
  }

  /**
   * A name whose characters past the 100th are all spaces is accepted and
   * stored cut to 100 characters, as PostgreSQL assigns to VARCHAR(100).
   */
  lemma PaddedNameIsTruncated(db: Tables, c: Primitives, email: string, password: string, name: string, salt: string,
                              newId: string, now: Time)
    requires |name| == NameWidth + 1 && name[NameWidth] == ' '
    requires |email| <= EmailWidth && |c.bcryptHash(password, SaltRounds, salt)| <= PasswordHashWidth
    requires (forall u | u in db.users :: u.email != email) && newId !in UserIds(db.users)
    ensures Register(db, c, email, password, name, salt, newId, now).result
      == Success(RegisteredUser(newId, email, name[..NameWidth], now))
  {
    var u := LocalUser(c, email, password, name, salt, newId, now);
    assert Assignable(u.name, NameWidth);
    assert Varchar(u.name, NameWidth) == name[..NameWidth];
  }

  /** Both tokens of a successful login are good at once: the access token and the refresh token verify. */
  lemma LoginTokensVerify(db: Tables, cfg: Config, c: Primitives, email: string, password: string, tokenId: string, rowId: string,
                          now: Time, t: Time)
    requires JwtRoundTrip(c)
    requires Login(db, cfg, c, email, password, tokenId, rowId, now).result.Success?
    requires now <= t < now + AccessExpiry(cfg) && t < now + RefreshExpiry(cfg) && t < now + RefreshRowLifetime
    ensures var s := Login(db, cfg, c, email, password, tokenId, rowId, now);
      && VerifyAccessToken(cfg, c, s.result.value.accessToken, t)
         == Success(AccessClaims(TokenPayload(s.result.value.user.id, email)))
      && VerifyRefreshToken(s.db, cfg, c, s.result.value.refreshToken, t).Success?
  {
    var s := Login(db, cfg, c, email, password, tokenId, rowId, now);
    var u := FindUserByEmail(db.users, email).value;
    AccessTokenRoundTrip(cfg, c, TokenPayload(u.id, email), now, t);
    IssuedRefreshTokenVerifies(db, cfg, c, u.id, tokenId, rowId, now, t);
  }

  /**
   * With unique emails, a known user whose password does not match gets
   * "Invalid Password", a message different from the unknown-email one.
   */
  lemma WrongPasswordIsDistinguished(db: Tables, cfg: Config, c: Primitives, u: User, password: string, tokenId: string, rowId: string, now: Time)
    requires Consistent(db)
    requires u in db.users && u.passwordHash.Some? && !c.bcryptCompare(password, u.passwordHash.value)
    ensures Login(db, cfg, c, u.email, password, tokenId, rowId, now) == Step(Failure(InvalidPassword), db)
    ensures Message(InvalidPassword) != Message(InvalidCredentials)
  {
    FindUserByEmailUnique(db.users, u);
  }
}
