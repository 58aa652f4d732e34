/**
 * The credential store: the `users` and `refresh_tokens` tables with the
 * column widths, keys and constraints their DDL declares. Rows are kept in
 * insertion order; a SELECT that returns several rows is read as returning
 * them in that order.
 */
module CredentialStore {
  import opened Wrappers

  /** Clock instants, in seconds. */
  type Time = int

  // VARCHAR widths of the DDL.
  const EmailWidth: nat := 255
  const PasswordHashWidth: nat := 255
  const NameWidth: nat := 100
  const ProviderWidth: nat := 50
  const ProviderIdWidth: nat := 255
  const TokenHashWidth: nat := 255

  /** A `users` row. `passwordHash` is NULL for accounts created by federated login. */
  datatype User = User(
    id: string,
    email: string,
    passwordHash: Option<string>,
    name: string,
    provider: string,
    providerId: Option<string>,
    createdAt: Time,
    updatedAt: Time)

  /** A `refresh_tokens` row: only the hash of the token is kept. */
  datatype RefreshTokenRow = RefreshTokenRow(
    id: string,
    userId: string,
    tokenHash: string,
    expiresAt: Time,
    createdAt: Time)

  datatype Tables = Tables(users: seq<User>, refreshTokens: seq<RefreshTokenRow>)

  /** Why the database refuses an INSERT. */
  datatype StoreError =
    | ValueTooLong(width: nat)
    | UniqueViolation(constraint: string)
    | ForeignKeyViolation(constraint: string)

  predicate FitsWidth(o: Option<string>, width: nat) {
    o.None? || |o.value| <= width
  }

  predicate UserFits(u: User) {
    && |u.email| <= EmailWidth
    && FitsWidth(u.passwordHash, PasswordHashWidth)
    && |u.name| <= NameWidth
    && |u.provider| <= ProviderWidth
    && FitsWidth(u.providerId, ProviderIdWidth)
  }

  /**
   * Whether a value may be assigned to a VARCHAR(width) column: it fits, or
   * everything past the width is spaces.
   */
  predicate Assignable(s: string, width: nat) {
    |s| <= width || forall i | width <= i < |s| :: s[i] == ' '
  }

  predicate AssignableOpt(o: Option<string>, width: nat) {
    o.None? || Assignable(o.value, width)
  }

  /** Assignment to VARCHAR(width): an assignable value loses its excess spaces. */
  function Varchar(s: string, width: nat): (v: string)
    requires Assignable(s, width)
    ensures |v| <= width && v <= s
    ensures forall i | |v| <= i < |s| :: s[i] == ' '
    ensures |s| <= width ==> v == s
    ensures |s| > width ==> |v| == width
  {
    if |s| <= width then s else s[..width]
  }

  function VarcharOpt(o: Option<string>, width: nat): (v: Option<string>)
    requires AssignableOpt(o, width)
    ensures FitsWidth(v, width) && v.Some? == o.Some?
    ensures o.Some? ==> v.value <= o.value
    ensures o.Some? && |o.value| > width ==> |v.value| == width
  {
    if o.None? then None else Some(Varchar(o.value, width))
  }

  /**
   * The `users` row PostgreSQL stores for `u`: every column truncated to its
   * width, or the width of the first column (in table order) that is too long.
   */
  function StoredUser(u: User): (r: Result<User, nat>)
    ensures r.Success? <==>
      && Assignable(u.email, EmailWidth) && AssignableOpt(u.passwordHash, PasswordHashWidth)
      && Assignable(u.name, NameWidth) && Assignable(u.provider, ProviderWidth)
      && AssignableOpt(u.providerId, ProviderIdWidth)
    ensures r.Success? ==>
      && UserFits(r.value)
      && r.value.id == u.id && r.value.createdAt == u.createdAt && r.value.updatedAt == u.updatedAt
      && r.value.email <= u.email && r.value.name <= u.name && r.value.provider <= u.provider
      && r.value.passwordHash.Some? == u.passwordHash.Some? && r.value.providerId.Some? == u.providerId.Some?
      && (u.passwordHash.Some? ==> r.value.passwordHash.value <= u.passwordHash.value)
      && (u.providerId.Some? ==> r.value.providerId.value <= u.providerId.value)
      && r.value.email == Varchar(u.email, EmailWidth) && r.value.name == Varchar(u.name, NameWidth)
      && r.value.provider == Varchar(u.provider, ProviderWidth)
      && r.value.passwordHash == VarcharOpt(u.passwordHash, PasswordHashWidth)
      && r.value.providerId == VarcharOpt(u.providerId, ProviderIdWidth)
    ensures !Assignable(u.email, EmailWidth) ==> r == Failure(EmailWidth)
    ensures (Assignable(u.email, EmailWidth) && !AssignableOpt(u.passwordHash, PasswordHashWidth)) ==>
      r == Failure(PasswordHashWidth)
    ensures (Assignable(u.email, EmailWidth) && AssignableOpt(u.passwordHash, PasswordHashWidth) &&
             !Assignable(u.name, NameWidth)) ==> r == Failure(NameWidth)
    ensures (Assignable(u.email, EmailWidth) && AssignableOpt(u.passwordHash, PasswordHashWidth) &&
             Assignable(u.name, NameWidth) && !Assignable(u.provider, ProviderWidth)) ==> r == Failure(ProviderWidth)
    ensures (Assignable(u.email, EmailWidth) && AssignableOpt(u.passwordHash, PasswordHashWidth) &&
             Assignable(u.name, NameWidth) && Assignable(u.provider, ProviderWidth) &&
             !AssignableOpt(u.providerId, ProviderIdWidth)) ==> r == Failure(ProviderIdWidth)
    ensures UserFits(u) ==> r == Success(u)
  {
    if !Assignable(u.email, EmailWidth) then Failure(EmailWidth)
    else if !AssignableOpt(u.passwordHash, PasswordHashWidth) then Failure(PasswordHashWidth)
    else if !Assignable(u.name, NameWidth) then Failure(NameWidth)
    else if !Assignable(u.provider, ProviderWidth) then Failure(ProviderWidth)
    else if !AssignableOpt(u.providerId, ProviderIdWidth) then Failure(ProviderIdWidth)
    else
      Success(u.(email := Varchar(u.email, EmailWidth),
                 passwordHash := VarcharOpt(u.passwordHash, PasswordHashWidth),
                 name := Varchar(u.name, NameWidth),
                 provider := Varchar(u.provider, ProviderWidth),
                 providerId := VarcharOpt(u.providerId, ProviderIdWidth)))
  }

  predicate RowFits(r: RefreshTokenRow) {
    |r.tokenHash| <= TokenHashWidth
  }

  function UserIds(users: seq<User>): set<string> {
    set u | u in users :: u.id
  }

  function RowIds(rows: seq<RefreshTokenRow>): set<string> {
    set r | r in rows :: r.id
  }

  /** What the DDL guarantees of every state of the tables. */
  ghost predicate Consistent(db: Tables) {
    && (forall i, j | 0 <= i < j < |db.users| ::
          db.users[i].id != db.users[j].id && db.users[i].email != db.users[j].email)
    && (forall u | u in db.users :: UserFits(u))
    && (forall i, j | 0 <= i < j < |db.refreshTokens| ::
          db.refreshTokens[i].id != db.refreshTokens[j].id)
    && (forall r | r in db.refreshTokens :: RowFits(r) && r.userId in UserIds(db.users))
  }

  /** `SELECT ... FROM users WHERE email = $1`, first row. */
  function FindUserByEmail(users: seq<User>, email: string): (r: Option<User>)
    ensures r.Some? ==> r.value in users && r.value.email == email
    ensures r.None? <==> forall u | u in users :: u.email != email
  {
    if users == [] then None
    else if users[0].email == email then Some(users[0])
    else FindUserByEmail(users[1..], email)
  }

  /** `SELECT user_id FROM refresh_tokens WHERE token_hash = $1 AND expires_at > NOW()`, first row. */
  function FindRefreshToken(rows: seq<RefreshTokenRow>, tokenHash: string, now: Time): (r: Option<RefreshTokenRow>)
    ensures r.Some? ==> r.value in rows && r.value.tokenHash == tokenHash && r.value.expiresAt > now
    ensures r.None? <==> forall row | row in rows :: row.tokenHash != tokenHash || row.expiresAt <= now
  {
    if rows == [] then None
    else if rows[0].tokenHash == tokenHash && rows[0].expiresAt > now then Some(rows[0])
    else FindRefreshToken(rows[1..], tokenHash, now)
  }

  /**
   * `INSERT INTO users`: the stored row (see `StoredUser`) is appended, unless
   * a value is too long, or the primary key or the unique email would be violated.
   */
  function AddUser(db: Tables, u: User): (r: Result<Tables, StoreError>)
    ensures r.Success? <==>
      && StoredUser(u).Success?
      && u.id !in UserIds(db.users)
      && forall v | v in db.users :: v.email != StoredUser(u).value.email
    ensures r.Success? ==> r.value == Tables(db.users + [StoredUser(u).value], db.refreshTokens)
    ensures StoredUser(u).Failure? ==> r == Failure(ValueTooLong(StoredUser(u).error))
    ensures StoredUser(u).Success? && u.id in UserIds(db.users) ==> r == Failure(UniqueViolation("users_pkey"))
    ensures (StoredUser(u).Success? && u.id !in UserIds(db.users) &&
             exists v | v in db.users :: v.email == StoredUser(u).value.email) ==>
      r == Failure(UniqueViolation("users_email_key"))
    ensures r.Success? && Consistent(db) ==> Consistent(r.value)
  {
    match StoredUser(u)
    case Failure(width) => Failure(ValueTooLong(width))
    case Success(stored) =>
      if u.id in UserIds(db.users) then Failure(UniqueViolation("users_pkey"))
      else if FindUserByEmail(db.users, stored.email).Some? then Failure(UniqueViolation("users_email_key"))
      else
        var next := Tables(db.users + [stored], db.refreshTokens);
        assert forall v | v in db.users :: v.id in UserIds(db.users);
        assert UserIds(next.users) == UserIds(db.users) + {u.id};
        Success(next)
  }

  /** `INSERT INTO refresh_tokens`: refused on a width, the primary key or the reference to `users(id)`. */
  function AddRefreshToken(db: Tables, row: RefreshTokenRow): (r: Result<Tables, StoreError>)
    ensures r.Success? <==>
      RowFits(row) && row.id !in RowIds(db.refreshTokens) && row.userId in UserIds(db.users)
    ensures r.Success? ==> r.value == Tables(db.users, db.refreshTokens + [row])
    ensures r.Success? && Consistent(db) ==> Consistent(r.value)
  {
    if !RowFits(row) then Failure(ValueTooLong(TokenHashWidth))
    else if row.id in RowIds(db.refreshTokens) then Failure(UniqueViolation("refresh_tokens_pkey"))
    else if row.userId !in UserIds(db.users) then Failure(ForeignKeyViolation("refresh_tokens_user_id_fkey"))
    else
      assert forall v | v in db.refreshTokens :: v.id in RowIds(db.refreshTokens);
      Success(Tables(db.users, db.refreshTokens + [row]))
  }

  /** Appending a user changes an email lookup only when the email was absent. */
  lemma {:induction false} FindUserByEmailAppend(users: seq<User>, u: User, email: string)
    ensures FindUserByEmail(users + [u], email) ==
      if FindUserByEmail(users, email).Some? then FindUserByEmail(users, email)
      else if u.email == email then Some(u) else None
  {
    if users != [] {
      assert (users + [u])[1..] == users[1..] + [u];
      FindUserByEmailAppend(users[1..], u, email);
    }
  }

  /** With unique emails, the lookup returns the one user that has the email. */
  lemma {:induction false} FindUserByEmailUnique(users: seq<User>, u: User)
    requires forall i, j | 0 <= i < j < |users| :: users[i].email != users[j].email
    requires u in users
    ensures FindUserByEmail(users, u.email) == Some(u)
  {
    var k :| 0 <= k < |users| && users[k] == u;
    if k != 0 {
      assert users[0].email != users[k].email;
      assert users[1..][k - 1] == u;
      FindUserByEmailUnique(users[1..], u);
    }
  }

  /** Rows inserted later never change which row an earlier lookup found. */
  lemma {:induction false} FindRefreshTokenAppend(rows: seq<RefreshTokenRow>, extra: seq<RefreshTokenRow>, tokenHash: string, now: Time)
    ensures FindRefreshToken(rows + extra, tokenHash, now) ==
      if FindRefreshToken(rows, tokenHash, now).Some? then FindRefreshToken(rows, tokenHash, now)
      else FindRefreshToken(extra, tokenHash, now)
  {
    if rows != [] {
      assert (rows + extra)[1..] == rows[1..] + extra;
      FindRefreshTokenAppend(rows[1..], extra, tokenHash, now);
    } else {
      assert rows + extra == extra;
    }
  }

  /** The live tables, updated in place by the services. */
  class Store {
    var users: seq<User>
    var refreshTokens: seq<RefreshTokenRow>

    function Contents(): Tables
      reads this
    {
      Tables(users, refreshTokens)
    }

    ghost predicate Valid()
      reads this
    {
      Consistent(Contents())
    }

    constructor ()
      ensures Valid() && Contents() == Tables([], [])
    {
      users := [];
      refreshTokens := [];
    }

    /** `INSERT INTO users ... RETURNING ...`: the stored row, or the database's refusal and no change. */
    method InsertUser(u: User) returns (r: Result<User, StoreError>)
      requires Valid()
      modifies this
      ensures Valid()
      ensures match AddUser(old(Contents()), u)
        case Success(db) => r == Success(StoredUser(u).value) && Contents() == db
        case Failure(e) => r == Failure(e) && Contents() == old(Contents())
    {
      var added := AddUser(Contents(), u);
      match added
      case Success(db) =>
        users := db.users;
        r := Success(StoredUser(u).value);
      case Failure(e) =>
        r := Failure(e);
    }

    /** `INSERT INTO refresh_tokens`: the stored row, or the database's refusal and no change. */
    method InsertRefreshToken(row: RefreshTokenRow) returns (r: Result<RefreshTokenRow, StoreError>)
      requires Valid()
      modifies this
      ensures Valid()
      ensures match AddRefreshToken(old(Contents()), row)
        case Success(db) => r == Success(row) && Contents() == db
        case Failure(e) => r == Failure(e) && Contents() == old(Contents())
    {
      var added := AddRefreshToken(Contents(), row);
      match added
      case Success(db) =>
        refreshTokens := db.refreshTokens;
        r := Success(row);
      case Failure(e) =>
        r := Failure(e);
    }
  }
}
