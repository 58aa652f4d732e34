# secure-auth-service: credential store and bearer-token gate

A Dafny model of the authentication core of `secure-auth-service`, an Express
service that registers users, logs them in with a password or a Google
account, and issues JWT access tokens and database-backed refresh tokens.

What is modelled:

- **Credential store** (`store.dfy`, module `CredentialStore`). The `users` and
  `refresh_tokens` tables are sequences of rows in insertion order, held in the
  class `Store`. Inserts are refused as the DDL refuses them: a VARCHAR value too
  long, a duplicate primary key, a duplicate `users.email`, or a
  `refresh_tokens.user_id` that names no user. As in PostgreSQL, a `users`
  value whose characters past the column width are all spaces is not refused
  but stored cut to the width (`StoredUser`). `Consistent` is what these
  constraints guarantee of every state, and every operation preserves it.
  `token_hash` is not unique. A SELECT that matches several rows is read as
  returning the earliest inserted one.
- **Token service** (`token_service.dfy`). Access tokens are signed
  `{userId, email}` payloads. Refresh tokens are signed `{userId, tokenId}`
  payloads. Each one is recorded as one row holding its SHA-256 hex digest and
  an expiry seven days after issue. Verifying a refresh token is a read-only
  lookup of an unexpired row by digest.
- **Auth service** (`auth_service.dfy`). Registration checks that the email is
  unused, then inserts a `local` user holding a bcrypt hash. Login looks the
  user up, compares the password, then issues an access token and a refresh
  token.
- **Google verify callback** (`passport.dfy`, module `Passport`). It takes the
  profile's first email and reuses the account with that email, whatever its
  provider. Otherwise it inserts a `google` account whose name is the display
  name or, failing that, the part of the email before the first `@`.
- **Bearer gate** (`auth_middleware.dfy`). The token is the second piece of
  the `Authorization` header split on single spaces (`text.dfy` models
  JavaScript's `split`). No token gives 401 with `{error: "Access token
  required"}`. A token that fails to verify gives 401 with `{message: "Invalid
  or expired access token"}`. Otherwise `req.user` is set and `next` is called.

Each store-changing operation exists twice. A pure specification function over
a `Tables` value (`Register`, `Login`, `IssueRefreshToken`, `FindOrCreate`)
returns a `Step`: the result and the resulting tables. A method over the live
`Store` (`RegisterUser`, `LoginUser`, `GenerateRefreshToken`,
`VerifyCallback`) does the same reads and writes in the source's order. Its
postcondition equates its result and new state with the function's. The
lemmas are stated about the functions.

The foreign libraries are treated as uninterpreted functions: `jsonwebtoken`
sign/verify, the SHA-256 hex digest, and bcrypt hash/compare. A `Primitives`
value is any choice of these functions. The only facts assumed about them are
the predicates in `crypto.dfy`, and each lemma requires the ones it uses:

- `JwtRoundTrip`: a token verifies to its payload before expiry.
- `JwtExpires`: a token does not verify after expiry.
- `JwtCompact`: a token is non-empty and contains no space.
- `HexDigest`: a digest has 64 characters.
- `BcryptSound`: a password matches its own hash.

Randomness is passed in as parameters: `crypto.randomUUID`, the database's
`gen_random_uuid()` ids, and bcrypt's salt. The clock (`new Date()`, `NOW()`,
the JWT clock) is an integer parameter in seconds. Environment variables are
the `Config` value.

Behaviours of the code worth knowing, all modelled as written:

- The refresh JWT's own expiry defaults to `'15m'` (`JWT_REFRESH_EXPIRY ||
  '15m'`), not seven days. Only the database row lives seven days
  (`DefaultRefreshTokenOutlivedByItsRow`).
- Login reports "Invalid Credentials" for an unknown email and "Invalid
  Password" for a wrong password. The two failures are distinguishable.
- A Google account has a NULL `password_hash`. Logging in to it with a password
  makes `bcrypt.compare` throw "data and hash arguments required". It does not
  give "Invalid Password".
- An email longer than 255 characters whose excess is spaces registers, but it
  is stored truncated. Logging in with the email as given then finds no user
  (`OverlongEmailCannotLogIn`). A second Google callback for such an email
  does not find the account either, and its insert is refused as a duplicate
  email (`OverlongEmailNotReused`).
- The controller answers 409 only for the text "User with this email already
  exists", without the `!` the service throws. No error message equals that
  text (`Errors.Message`).
- No code deletes or rotates refresh-token rows. Verification never consumes a
  token, so a token keeps verifying while its signature and its row are alive (`IssuedRefreshTokenVerifies`), and keeps its answer as rows are appended (`VerifyRefreshTokenStable`).

## Model

| member | source | states |
|---|---|---|
| `Text.Split` | src/middleware/auth.middleware.ts:8 | `split` never returns an empty list. No piece contains the separator. The first piece is the prefix of the input before the first separator, or all of it. |
| `Text.JoinSplit` | src/middleware/auth.middleware.ts:8 | Splitting loses nothing: joining the pieces with the separator gives back the input. |
| `Text.SplitJoin` | src/middleware/auth.middleware.ts:8 | Conversely, joining separator-free pieces and splitting the result gives back the same pieces. |
| `CredentialStore.FindUserByEmail` | src/services/auth.service.ts:48-57 | The user lookup returns a row of the table with that email. It returns none exactly when no row has that email. |
| `CredentialStore.FindRefreshToken` | src/services/token.service.ts:74-79 | The refresh-token lookup returns a row with that digest and an expiry later than now. It returns none exactly when every row has another digest or has expired. |
| `CredentialStore.Varchar` | src/models/createTables.ts:10-14 | Assigning to VARCHAR(n) keeps a value that fits whole. A longer value whose excess is spaces is cut to exactly its first n characters. |
| `CredentialStore.StoredUser` | src/models/createTables.ts:8-17 | A users row can be stored exactly when every VARCHAR value fits or has only spaces past its width. Otherwise the result is the width of the first column, in table order, that does not fit. The stored row fits every width, and each VARCHAR value is the given one cut to exactly its width as `Varchar` cuts it. Each value, the optional `password_hash` and `provider_id` included, is a prefix of the given one. Ids, timestamps and NULLs are kept, and a row that fits is stored unchanged. |
| `CredentialStore.AddUser` | src/models/createTables.ts:8-17 | A users INSERT succeeds exactly when the row can be stored, the id is new and no row has the stored email. On success it appends the stored row and keeps the constraints. A width failure gives "value too long" with that width. A duplicate id gives `users_pkey`. A duplicate email gives `users_email_key`. |
| `CredentialStore.AddRefreshToken` | src/models/createTables.ts:22-28 | A refresh_tokens INSERT succeeds exactly when `token_hash` fits, the id is new and `user_id` names an existing user. On success it appends exactly that row and keeps the constraints. |
| `CredentialStore.FindUserByEmailAppend` | src/services/auth.service.ts:14-23 | Inserting a user changes the answer of an email lookup only when no row had that email before. |
| `CredentialStore.FindUserByEmailUnique` | src/models/createTables.ts:10 | Because email is UNIQUE, the lookup by email returns the one user that has it. |
| `CredentialStore.FindRefreshTokenAppend` | src/services/token.service.ts:74-77 | Rows inserted later never change which row an earlier refresh-token lookup found. |
| `CredentialStore.Store.constructor` | src/models/createTables.ts:7-29 | The tables start empty and consistent. |
| `CredentialStore.Store.InsertUser` | src/services/auth.service.ts:28-33 | The live INSERT returns the row as stored and appends it, or returns the database's refusal and changes nothing. |
| `CredentialStore.Store.InsertRefreshToken` | src/services/token.service.ts:48-51 | The live INSERT appends the row, or returns the database's refusal and changes nothing. |
| `TokenService.HasSecret` | src/services/token.service.ts:14 | No contract; defines `!secret`: a secret that is unset or the empty string is missing. `GenerateAccessToken`, `IssueRefreshToken` and the two verify functions state what follows from it. |
| `TokenService.AccessExpiry` | src/services/token.service.ts:19 | No contract; defines `JWT_ACCESS_EXPIRY || '15m'` as the configured seconds or 900. `GenerateAccessToken` and `AccessTokenRoundTrip` state what follows from it. |
| `TokenService.RefreshExpiry` | src/services/token.service.ts:36 | No contract; defines `JWT_REFRESH_EXPIRY || '15m'` as the configured seconds or 900. `IssueRefreshToken` and `DefaultRefreshTokenOutlivedByItsRow` state what follows from it. |
| `TokenService.RefreshRow` | src/services/token.service.ts:42-50 | The stored row carries the user id and the SHA-256 hex digest of the token, not the token. It expires exactly 7 * 24 hours after its creation time, now. With 64-character digests it fits `token_hash`. |
| `TokenService.GenerateAccessToken` | src/services/token.service.ts:11-23 | Fails with the JWT_ACCESS_SECRET error exactly when the secret is unset or empty. Otherwise it returns the token signed over `{userId, email}` with the configured expiry, which defaults to 15 minutes. |
| `TokenService.VerifyAccessToken` | src/services/token.service.ts:57-64 | Succeeds exactly when the secret is set and the signature verifies, and then returns the decoded payload. Every failure is "Invalid or expired access token". |
| `TokenService.IssueRefreshToken` | src/services/token.service.ts:26-54 | Without the secret it fails before touching the store. On success the token is signed over `{userId, tokenId}` with a 15-minute default expiry. Exactly one row is added: that user id, the digest of the returned token (never the token), and an expiry of now + 7 days. With the secret set, the result is exactly the INSERT's: a refused INSERT gives the database's error, otherwise the token and the tables with the row. Any failure leaves the tables unchanged. With 64-character digests (`HexDigest`), a fresh row id and an existing user, it succeeds. |
| `TokenService.GenerateRefreshToken` | src/services/token.service.ts:26-54 | The live method signs, hashes and inserts in the source's order. It returns what `IssueRefreshToken` returns and leaves the store as that function's tables. |
| `TokenService.VerifyRefreshToken` | src/services/token.service.ts:67-87 | Returns a user id exactly when the secret is set, the signature verifies, and some row has the token's digest and an expiry later than now. The id is that row's `user_id`. Every failure is the same "Invalid or expired refresh token". |
| `TokenService.AccessTokenRoundTrip` | src/services/token.service.ts:11-64 | An issued access token verifies back to `{userId, email}` until its expiry. |
| `TokenService.IssuedRefreshTokenVerifies` | src/services/token.service.ts:26-87 | A freshly issued refresh token verifies while its signature and its row are both alive. It verifies to its own user unless an older live row has the same digest. |
| `TokenService.VerifyRefreshTokenStable` | src/services/token.service.ts:74-77 | Verification is read-only. A token that verifies keeps verifying to the same user as rows are appended. A failing answer is not covered: appending the row a token lacked can make it verify. |
| `TokenService.DefaultRefreshTokenOutlivedByItsRow` | src/services/token.service.ts:35-46 | Under the default expiry the refresh token is rejected 15 minutes after issue, although its row is still unexpired. |
| `AuthService.LocalUser` | src/services/auth.service.ts:25-30 | The registered row has the given email and name, provider `local`, no provider id, and the bcrypt hash of the password at cost 12. If bcrypt is sound, the password matches that hash. |
| `AuthService.Register` | src/services/auth.service.ts:11-38 | Fails with "User with this email already exists!" exactly when a user has the email, and then changes nothing. On success it inserts exactly one `local` user holding the bcrypt hash (cost 12), as the database stores it. It returns only id, email, name and created_at of the stored row. With an unused email the outcome is exactly the INSERT's: a refused INSERT gives the database's error, otherwise the stored row's id, email and name with the tables that INSERT gives. With an unused email, a fresh id and values that fit, it succeeds and returns the given email and name. Every failure changes nothing. |
| `AuthService.RegisterUser` | src/services/auth.service.ts:11-38 | The live method selects, hashes and inserts in the source's order. Its result and new state are those of `Register`, and the store stays consistent. |
| `AuthService.Login` | src/services/auth.service.ts:45-81 | An unknown email gives "Invalid Credentials". A NULL hash gives bcrypt's error. A failed comparison gives "Invalid Password". After a match, a failure is exactly the access-token error, or else the refresh-token error. Every failure changes nothing. Success returns `{id, email, name}`, the access token `generateAccessToken` gives for `{userId: id, email}`, and the refresh token and tables `IssueRefreshToken` gives for that id. No user rows are ever added. |
| `AuthService.LoginUser` | src/services/auth.service.ts:45-81 | The live method does the lookup, compare, access-token and refresh-token steps in the source's order. Its result and new state are those of `Login`. |
| `AuthService.RegisterThenLogin` | src/services/auth.service.ts:25-63 | If passwords match their own bcrypt hashes, registering and then logging in with the same email and password succeeds. It returns the new user's id, email and stored name. This needs an email and a bcrypt hash that fit their columns. |
| `AuthService.OverlongEmailCannotLogIn` | src/services/auth.service.ts:28-54 | An email over 255 characters that registers is stored truncated, so logging in with it gives "Invalid Credentials". |
| `AuthService.PaddedNameIsTruncated` | src/services/auth.service.ts:28-37 | A 101-character name ending in a space registers, and the returned name is its first 100 characters. |
| `AuthService.LoginTokensVerify` | src/services/auth.service.ts:66-80 | Both tokens of a successful login verify while they are alive. The access token verifies to `{userId, email}`, and the refresh token verifies against the tables login leaves. |
| `AuthService.WrongPasswordIsDistinguished` | src/services/auth.service.ts:53-63 | A known user with a wrong password gets "Invalid Password" and nothing changes. That message differs from the unknown-email one. |
| `Passport.ProfileEmail` | src/config/passport.ts:14-16 | No contract; defines `profile.emails?.[0]?.value` together with the `!email` test: a missing list, an empty list or an empty first entry is no email. `FindOrCreate` states the callback's promise. |
| `Passport.GoogleAccount` | src/config/passport.ts:29-33 | No contract; defines the INSERT's values: the email, the account name, provider `google`, the profile id as `provider_id`, and no password hash. `FindOrCreate` states the callback's promise. |
| `Passport.AccountName` | src/config/passport.ts:33 | The account name is the display name when it is non-empty. Otherwise it is the prefix of the email before its first `@`, or the whole email if there is no `@`. |
| `Passport.FindOrCreate` | src/config/passport.ts:13-43 | No usable first email gives the error and no change. An existing account with the email is returned unchanged. For an unused email the `google` row is inserted as the database stores it and returned, or the database's refusal is passed on with no change. With a fresh id and values that fit, the insert succeeds. The table grows by at most one and stays consistent. |
| `Passport.VerifyCallback` | src/config/passport.ts:12-44 | The live callback selects and then, only if nothing was found, inserts. What it passes to `done` and the new state are those of `FindOrCreate`. |
| `Passport.FindOrCreateIdempotent` | src/config/passport.ts:21-38 | A second callback for the same email, one that fits its column, returns the same account and changes nothing. Over both calls the users table grows by at most one. |
| `Passport.OverlongEmailNotReused` | src/config/passport.ts:21-34 | After an over-long email is stored truncated, a second callback for it misses the account and gets the unique-email refusal. |
| `Passport.ExistingAccountReused` | src/config/passport.ts:36-38 | Any existing account with the profile's email is the one signed in, whatever its provider, and nothing is inserted. |
| `Errors.Message` | src/controllers/auth.controller.ts:33-34 | The duplicate-registration message is the controller's conflict text followed by `!`. No error's message equals the conflict text itself. |
| `Errors.MessageInjective` | src/services/token.service.ts:14-85 | Different errors never share a message, including the database errors, which name the failing width or constraint. |
| `AuthMiddleware.ExtractToken` | src/middleware/auth.middleware.ts:7-10 | An extracted token is non-empty and contains no space. A missing header gives no token. |
| `AuthMiddleware.Authenticate` | src/middleware/auth.middleware.ts:4-29 | No token gives 401 with `{error: "Access token required"}`. A token that fails verification gives 401 with `{message: "Invalid or expired access token"}`. The request passes exactly when the token verifies, and then the user is the decoded `userId` and `email`. |
| `AuthMiddleware.AuthenticateToken` | src/middleware/auth.middleware.ts:4-29 | Returns the gate's decision. `req.user` is set to the decoded user only on the path that calls `next`, and is untouched on every 401. |
| `AuthMiddleware.HeaderWithoutSpaceRejected` | src/middleware/auth.middleware.ts:8-12 | A header with no space gives 401 "Access token required". |
| `AuthMiddleware.TokenAfterAnyScheme` | src/middleware/auth.middleware.ts:8 | For any first word, the token is the piece after the first space. An empty piece, from a trailing space or two spaces in a row, is no token. |
| `AuthMiddleware.ExtractedTokenShape` | src/middleware/auth.middleware.ts:8 | Conversely, every extracted token lies between the first space and the next space or the end of the header. |
| `AuthMiddleware.IssuedAccessTokenPasses` | src/middleware/auth.middleware.ts:8-22 | An access token issued for `{userId, email}`, sent after any scheme word, passes the gate with that user until it expires. |
| `AuthMiddleware.RefreshTokenPassesWhenSecretsShared` | src/middleware/auth.middleware.ts:14-22 | When the access and refresh secrets are equal, an issued refresh token also passes the gate, as a user without an email. |

## Left out

- Rate limiting (`src/middleware/rateLimiter.ts`): the fixed-window counters belong to `express-rate-limit`, which is not part of this model.
- The HTTP layer: `src/app.ts`, `src/server.ts`, the routes, CORS, the health endpoint and the OAuth redirect handshake.
- `src/controllers/auth.controller.ts`: it maps results to HTTP responses and relies on a request schema that is not part of this model. It compares against "User with this email already exists", without the `!` the service throws, so its 409 branch never fires. The model keeps the service's exact message.
- The `pg` pool, `connectDB`, the `query` plumbing and running the DDL: the store is a value, and only the columns and constraints of the DDL are modelled. Connection failures are not modelled; the only database errors are constraint violations.
- Internals of JWT, SHA-256, bcrypt and UUID generation: uninterpreted, with only the stated assumptions. bcrypt's 72-byte truncation and the parsing of expiry strings such as `'15m'` are not modelled; an expiry is a number of seconds.
- `UUID` column syntax and the column type checks beyond VARCHAR widths: ids are arbitrary strings.
- The calendar arithmetic of `setDate(getDate() + 7)` across DST changes and month ends: the row expiry is `now + 7 * 86400` seconds.
- Time zones: `expires_at` is `TIMESTAMP` without time zone (`src/models/createTables.ts:26`). `pg` sends the `Date` as Node's local time with an offset, and PostgreSQL drops the offset. `NOW()` is read in the session's time zone. So the real expiry is now + 7 days + (Node's UTC offset − the session's UTC offset). The model uses one clock for both, so that difference is zero.
- CredentialStore.AddRefreshToken: refuses an over-wide `token_hash` instead of cutting trailing spaces, as PostgreSQL would. Under `HexDigest` a digest has 64 characters, so the difference never arises.
- AuthService.RegisterThenLogin: promised only for an email of at most 255 characters and a bcrypt hash that fits `password_hash` (bcrypt's are 60 characters). A longer email is stored truncated, and `OverlongEmailCannotLogIn` shows the login then fails.
- Passport.FindOrCreateIdempotent: promised only for an email of at most 255 characters. `OverlongEmailNotReused` shows what happens otherwise.
- SQL result order: a SELECT without ORDER BY has no defined order. The model reads the earliest inserted matching row as `rows[0]`.
- Refresh-token rotation, logout and deletion: the code has none. `ON DELETE CASCADE` is not modelled because nothing deletes users.
- Concurrency between requests: each operation runs alone. In particular, the window between the SELECT and the INSERT in registration and in the Google callback is not modelled; a concurrent duplicate would fail the UNIQUE email constraint instead.
