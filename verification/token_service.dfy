/**
 * Access tokens (stateless, signed) and refresh tokens (signed, and recorded
 * in `refresh_tokens` by their SHA-256 hex digest, never in plaintext).
 */
module TokenService {
  import opened Wrappers
  import opened Crypto
  import opened CredentialStore
  import opened Errors

  const Minute: nat := 60
  const Day: nat := 24 * 60 * Minute
  /** `JWT_ACCESS_EXPIRY || '15m'`. */
  const DefaultAccessExpiry: nat := 15 * Minute
  /** `JWT_REFRESH_EXPIRY || '15m'`: the refresh token's own signature expires after 15 minutes by default. */
  const DefaultRefreshExpiry: nat := 15 * Minute
  /** The stored row expires seven calendar days after issue, taken here as 7 * 24 hours. */
  const RefreshRowLifetime: nat := 7 * Day

  /**
   * The environment the services read. An expiry is `None` when the variable
   * is unset or empty; otherwise it is the duration, in seconds, it denotes.
   */
  datatype Config = Config(
    accessSecret: Option<string>,
    accessExpiry: Option<nat>,
    refreshSecret: Option<string>,
    refreshExpiry: Option<nat>)

  /** A secret as `if (!secret)` and `jwt.verify` see it: unset and empty are both missing. */
  predicate HasSecret(o: Option<string>) {
    o.Some? && o.value != []
  }

  /** `JWT_ACCESS_EXPIRY || '15m'`: the configured lifetime, or fifteen minutes when unset or empty. */
  function AccessExpiry(cfg: Config): nat {
    match cfg.accessExpiry
    case Some(d) => d
    case None => DefaultAccessExpiry
  }

  /** `JWT_REFRESH_EXPIRY || '15m'`: the configured lifetime, or fifteen minutes when unset or empty. */
  function RefreshExpiry(cfg: Config): nat {
    match cfg.refreshExpiry
    case Some(d) => d
    case None => DefaultRefreshExpiry
  }

  /** The `TokenPayload` an access token is signed over. */
  datatype TokenPayload = TokenPayload(userId: string, email: string)

  function AccessClaims(p: TokenPayload): Payload {
    Payload(p.userId, Some(p.email), None)
  }

  function RefreshClaims(userId: string, tokenId: string): Payload {
    Payload(userId, None, Some(tokenId))
  }

  /** `generateAccessToken`: fails without a secret, else signs the payload for the configured lifetime. */
  function GenerateAccessToken(cfg: Config, c: Primitives, p: TokenPayload, now: Time): (r: Result<string, AuthError>)
    ensures r.Failure? <==> !HasSecret(cfg.accessSecret)
    ensures r.Failure? ==> r.error == AccessSecretMissing
    ensures r.Success? ==> r.value == c.sign(AccessClaims(p), cfg.accessSecret.value, AccessExpiry(cfg), now)
  {
    if !HasSecret(cfg.accessSecret) then Failure(AccessSecretMissing)
    else Success(c.sign(AccessClaims(p), cfg.accessSecret.value, AccessExpiry(cfg), now))
  }

  /** `verifyAccessToken`: the decoded payload, or one error for every way verification fails. */
  function VerifyAccessToken(cfg: Config, c: Primitives, token: string, now: Time): (r: Result<Payload, AuthError>)
    ensures r.Failure? ==> r.error == InvalidAccessToken
    ensures r.Success? <==> HasSecret(cfg.accessSecret) && c.verify(token, cfg.accessSecret.value, now).Some?
    ensures r.Success? ==> c.verify(token, cfg.accessSecret.value, now) == Some(r.value)
  {
    if !HasSecret(cfg.accessSecret) then Failure(InvalidAccessToken)
    else
      match c.verify(token, cfg.accessSecret.value, now)
      case None => Failure(InvalidAccessToken)
      case Some(decoded) => Success(decoded)
  }

  /** The row `generateRefreshToken` stores for `token`. */
  function RefreshRow(c: Primitives, rowId: string, userId: string, token: string, now: Time): (row: RefreshTokenRow)
    ensures row.id == rowId && row.userId == userId && row.createdAt == now
    ensures row.tokenHash == c.sha256Hex(token)
    ensures row.expiresAt - row.createdAt == 7 * 24 * 60 * 60
    ensures HexDigest(c) ==> RowFits(row)
  {
    RefreshTokenRow(rowId, userId, c.sha256Hex(token), now + RefreshRowLifetime, now)
  }

  /**
   * `generateRefreshToken`: without a secret it fails before touching the
   * store; otherwise it signs `{userId, tokenId}` and inserts one row holding
   * the token's digest, expiring seven days from now.
   */
  function IssueRefreshToken(db: Tables, cfg: Config, c: Primitives, userId: string, tokenId: string, rowId: string, now: Time): (r: Step<string>)
    ensures !HasSecret(cfg.refreshSecret) ==> r == Step(Failure(RefreshSecretMissing), db)
    ensures r.result.Failure? ==> r.db == db
    ensures r.result.Success? ==>
      && r.result.value == c.sign(RefreshClaims(userId, tokenId), cfg.refreshSecret.value, RefreshExpiry(cfg), now)
      && r.db == Tables(db.users, db.refreshTokens + [RefreshRow(c, rowId, userId, r.result.value, now)])
    ensures HasSecret(cfg.refreshSecret) ==>
      var token := c.sign(RefreshClaims(userId, tokenId), cfg.refreshSecret.value, RefreshExpiry(cfg), now);
      var added := AddRefreshToken(db, RefreshRow(c, rowId, userId, token, now));
      && (r.result.Failure? <==> added.Failure?)
      && (added.Failure? ==> r == Step(Failure(Database(added.error)), db))
      && (added.Success? ==> r == Step(Success(token), added.value))
    ensures (HasSecret(cfg.refreshSecret) && HexDigest(c) &&
             rowId !in RowIds(db.refreshTokens) && userId in UserIds(db.users)) ==> r.result.Success?
    ensures Consistent(db) ==> Consistent(r.db)
  {
    if !HasSecret(cfg.refreshSecret) then Step(Failure(RefreshSecretMissing), db)
    else
      var token := c.sign(RefreshClaims(userId, tokenId), cfg.refreshSecret.value, RefreshExpiry(cfg), now);
      match AddRefreshToken(db, RefreshRow(c, rowId, userId, token, now))
      case Failure(e) => Step(Failure(Database(e)), db)
      case Success(next) => Step(Success(token), next)
  }

  /** `generateRefreshToken` against the live store. */
  method GenerateRefreshToken(store: Store, cfg: Config, c: Primitives, userId: string, tokenId: string, rowId: string, now: Time)
    returns (r: Result<string, AuthError>)
    requires store.Valid()
    modifies store
    ensures store.Valid()
    ensures Step(r, store.Contents()) == IssueRefreshToken(old(store.Contents()), cfg, c, userId, tokenId, rowId, now)
  {
    if !HasSecret(cfg.refreshSecret) {
      return Failure(RefreshSecretMissing);
    }
    var payload := RefreshClaims(userId, tokenId);
    var token := c.sign(payload, cfg.refreshSecret.value, RefreshExpiry(cfg), now);
    var tokenHash := c.sha256Hex(token);
    var expiresAt := now + RefreshRowLifetime;
    var inserted := store.InsertRefreshToken(RefreshTokenRow(rowId, userId, tokenHash, expiresAt, now));
    if inserted.Failure? {
      return Failure(Database(inserted.error));
    }
    r := Success(token);
  }

  /**
   * `verifyRefreshToken`: a read-only lookup. It yields the `user_id` of the
   * first unexpired row holding the token's digest, provided the signature
   * verifies; every failure is the same error.
   */
  function VerifyRefreshToken(db: Tables, cfg: Config, c: Primitives, token: string, now: Time): (r: Result<string, AuthError>)
    ensures r.Failure? ==> r.error == InvalidRefreshToken
    ensures r.Success? <==>
      && HasSecret(cfg.refreshSecret)
      && c.verify(token, cfg.refreshSecret.value, now).Some?
      && exists row | row in db.refreshTokens :: row.tokenHash == c.sha256Hex(token) && row.expiresAt > now
    ensures r.Success? ==>
      exists row | row in db.refreshTokens ::
        row.tokenHash == c.sha256Hex(token) && row.expiresAt > now && row.userId == r.value
  {
    if !HasSecret(cfg.refreshSecret) || c.verify(token, cfg.refreshSecret.value, now).None? then
      Failure(InvalidRefreshToken)
    else
      match FindRefreshToken(db.refreshTokens, c.sha256Hex(token), now)
      case None => Failure(InvalidRefreshToken)
      case Some(row) => Success(row.userId)
  }

  /** An access token verifies back to its payload until it expires. */
  lemma AccessTokenRoundTrip(cfg: Config, c: Primitives, p: TokenPayload, iat: Time, t: Time)
    requires JwtRoundTrip(c)
    requires GenerateAccessToken(cfg, c, p, iat).Success?
    requires iat <= t < iat + AccessExpiry(cfg)
    ensures VerifyAccessToken(cfg, c, GenerateAccessToken(cfg, c, p, iat).value, t) == Success(AccessClaims(p))
  {
  }

  /**
   * A freshly issued refresh token verifies while both its signature and its
   * row are alive; its owner is the answer unless an older live row carries
   * the same digest.
   */
  lemma IssuedRefreshTokenVerifies(db: Tables, cfg: Config, c: Primitives, userId: string, tokenId: string, rowId: string, iat: Time, t: Time)
    requires JwtRoundTrip(c)
    requires IssueRefreshToken(db, cfg, c, userId, tokenId, rowId, iat).result.Success?
    requires iat <= t < iat + RefreshExpiry(cfg) && t < iat + RefreshRowLifetime
    ensures var s := IssueRefreshToken(db, cfg, c, userId, tokenId, rowId, iat);
      && VerifyRefreshToken(s.db, cfg, c, s.result.value, t).Success?
      && ((forall row | row in db.refreshTokens :: row.tokenHash != c.sha256Hex(s.result.value) || row.expiresAt <= t)
          ==> VerifyRefreshToken(s.db, cfg, c, s.result.value, t) == Success(userId))
  {
    var s := IssueRefreshToken(db, cfg, c, userId, tokenId, rowId, iat);
    var row := RefreshRow(c, rowId, userId, s.result.value, iat);
    assert row in s.db.refreshTokens;
    FindRefreshTokenAppend(db.refreshTokens, [row], c.sha256Hex(s.result.value), t);
  }

  /**
   * Verification changes nothing, and rows inserted afterwards do not change
   * its answer: a token keeps verifying to the same user as the tables grow.
   */
  lemma VerifyRefreshTokenStable(db: Tables, later: Tables, cfg: Config, c: Primitives, token: string, t: Time)
    requires db.refreshTokens <= later.refreshTokens
    requires VerifyRefreshToken(db, cfg, c, token, t).Success?
    ensures VerifyRefreshToken(later, cfg, c, token, t) == VerifyRefreshToken(db, cfg, c, token, t)
  {
    var extra := later.refreshTokens[|db.refreshTokens|..];
    assert db.refreshTokens + extra == later.refreshTokens;
    FindRefreshTokenAppend(db.refreshTokens, extra, c.sha256Hex(token), t);
  }

  /** Under the default configuration a refresh token's signature dies long before its row. */
  lemma DefaultRefreshTokenOutlivedByItsRow(db: Tables, cfg: Config, c: Primitives, userId: string, tokenId: string, rowId: string, iat: Time)
    requires JwtExpires(c)
    requires cfg.refreshExpiry.None?
    requires IssueRefreshToken(db, cfg, c, userId, tokenId, rowId, iat).result.Success?
    ensures var s := IssueRefreshToken(db, cfg, c, userId, tokenId, rowId, iat);
      && RefreshRow(c, rowId, userId, s.result.value, iat).expiresAt > iat + DefaultRefreshExpiry
      && VerifyRefreshToken(s.db, cfg, c, s.result.value, iat + DefaultRefreshExpiry) == Failure(InvalidRefreshToken)
  {
  }
}
