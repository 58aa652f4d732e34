/** The errors the services throw, with their messages, and the outcome of a store-changing operation. */
module Errors {
  import opened Wrappers
  import opened CredentialStore

  datatype AuthError =
    | AccessSecretMissing
    | RefreshSecretMissing
    | InvalidAccessToken
    | InvalidRefreshToken
    | UserExists
    | InvalidCredentials
    | InvalidPassword
    | HashArgumentsRequired   // thrown by bcrypt.compare when the stored hash is NULL
    | NoEmailInProfile
    | Database(cause: StoreError)

  /** The text the controller compares a registration error against to answer 409; it lacks the service's `!`. */
  const ConflictText: string := "User with this email already exists"

  /** The fixed parts of PostgreSQL's messages for the constraint violations the store raises. */
  const TooLongPrefix: string := "value too long for type " + "character varying("
  const UniquePrefix: string := "duplicate key value " + "violates unique constraint \""
  const ForeignKeyPrefix: string := "insert or update on table " + "\"refresh_tokens\" violates " + "foreign key constraint \""

  /**
   * The `message` of the thrown `Error`. No error carries the controller's
   * conflict text, so a duplicate registration never takes its 409 branch.
   */
  function Message(e: AuthError): (m: string)
    ensures m != ConflictText
    ensures e == UserExists ==> m == ConflictText + "!"
  {
    match e
    case AccessSecretMissing => "JWT_ACCESS_SECRET " + "is not defined in environment variables"
    case RefreshSecretMissing => "JWT_REFRESH_SECRET " + "is not defined in environment variables"
    case InvalidAccessToken => "Invalid or expired access token"
    case InvalidRefreshToken => "Invalid or expired refresh token"
    case UserExists => "User with this email already exists!"
    case InvalidCredentials => "Invalid Credentials"
    case InvalidPassword => "Invalid Password"
    case HashArgumentsRequired => "data and hash arguments required"
    case NoEmailInProfile => "No email found in google profile"
    case Database(ValueTooLong(width)) => TooLongPrefix + Decimal(width) + ")"
    case Database(UniqueViolation(c)) => UniquePrefix + c + "\""
    case Database(ForeignKeyViolation(c)) => ForeignKeyPrefix + c + "\""
  }

  /** The decimal digits of `n`, most significant first. */
  function Decimal(n: nat): (digits: string)
    ensures |digits| >= 1 && forall i | 0 <= i < |digits| :: '0' <= digits[i] <= '9'
  {
    if n < 10 then ["0123456789"[n]] else Decimal(n / 10) + ["0123456789"[n % 10]]
  }

  /** Distinct numbers have distinct decimal forms. */
  lemma {:induction false} DecimalInjective(a: nat, b: nat)
    requires Decimal(a) == Decimal(b)
    ensures a == b
  {
    if a >= 10 && b >= 10 {
      var da, db := Decimal(a), Decimal(b);
      assert da[..|da| - 1] == Decimal(a / 10);
      assert db[..|db| - 1] == Decimal(b / 10);
      DecimalInjective(a / 10, b / 10);
      assert "0123456789"[a % 10] == da[|da| - 1] == "0123456789"[b % 10];
    }
  }

  /** The first characters of a message tell its kind apart. */
  lemma MessageHead(e: AuthError)
    ensures var m := Message(e);
      && |m| >= 2
      && (e.Database? && e.cause.ValueTooLong? ==> m[0] == 'v')
      && (e.Database? && e.cause.UniqueViolation? ==> m[0] == 'd' && m[1] == 'u')
      && (e.Database? && e.cause.ForeignKeyViolation? ==> m[0] == 'i')
      && (!e.Database? ==> m[0] in "JIUdN" && (m[0] == 'd' ==> m[1] == 'a'))
  {
  }

  /** The database's messages quote what failed, so two causes share a message only when they are equal. */
  lemma DatabaseMessageInjective(s1: StoreError, s2: StoreError)
    requires Message(Database(s1)) == Message(Database(s2))
    ensures s1 == s2
  {
    var m := Message(Database(s1));
    MessageHead(Database(s1));
    MessageHead(Database(s2));
    match s1
    case ValueTooLong(w1) =>
      var prefix := TooLongPrefix;
      var w2 :| s2 == ValueTooLong(w2);
      var d1, d2 := Decimal(w1), Decimal(w2);
      assert m == prefix + d1 + ")" == prefix + d2 + ")";
      assert d1 == m[|prefix|..|prefix| + |d1|];
      assert d2 == m[|prefix|..|prefix| + |d2|];
      DecimalInjective(w1, w2);
    case UniqueViolation(c1) =>
      var prefix := UniquePrefix;
      var c2 :| s2 == UniqueViolation(c2);
      assert m == prefix + c1 + "\"" == prefix + c2 + "\"";
      assert c1 == m[|prefix|..|prefix| + |c1|];
      assert c2 == m[|prefix|..|prefix| + |c2|];
    case ForeignKeyViolation(c1) =>
      var prefix := ForeignKeyPrefix;
      var c2 :| s2 == ForeignKeyViolation(c2);
      assert m == prefix + c1 + "\"" == prefix + c2 + "\"";
      assert c1 == m[|prefix|..|prefix| + |c1|];
      assert c2 == m[|prefix|..|prefix| + |c2|];
  }

  /** A message names its error: different errors are never reported with the same text. */
  lemma MessageInjective(e1: AuthError, e2: AuthError)
    requires Message(e1) == Message(e2)
    ensures e1 == e2
  {
    MessageHead(e1);
    MessageHead(e2);
    if e1.Database? && e2.Database? {
      DatabaseMessageInjective(e1.cause, e2.cause);
    }
  }

  /** What an operation over the store returns, and the tables it leaves behind. */
  datatype Step<+T> = Step(result: Result<T, AuthError>, db: Tables)
}
