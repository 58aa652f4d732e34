/** `authenticateToken`: the bearer-token gate in front of protected routes. */
module AuthMiddleware {
  import opened Wrappers
  import opened Crypto
  import opened CredentialStore
  import opened TokenService
  import opened Text

  /** `req.user` as the middleware sets it. */
  datatype AuthUser = AuthUser(userId: string, email: Option<string>)

  /** The JSON bodies of the two 401 responses: one uses the key `error`, the other `message`. */
  datatype ResponseBody = ErrorBody(error: string) | MessageBody(message: string)

  /** Either `next()` is called, or a response is sent. */
  datatype GateResult = Next(user: AuthUser) | Respond(status: nat, body: ResponseBody)

  /** `authHeader && authHeader.split(' ')[1]`, with every falsy outcome (undefined, "") read as `None`. */
  function ExtractToken(header: Option<string>): (token: Option<string>)
    ensures token.Some? ==> header.Some? && token.value != [] && ' ' !in token.value
  {
    match header
    case None => None
    case Some(h) =>
      var parts := Split(h, ' ');
      if |parts| >= 2 && parts[1] != [] then Some(parts[1]) else None
  }

  /**
   * The gate's decision: no token is 401 "Access token required"; a token that
   * does not verify is 401 "Invalid or expired access token"; a verified token
   * passes with the decoded `userId` and `email`.
   */
  function Authenticate(header: Option<string>, cfg: Config, c: Primitives, now: Time): (r: GateResult)
    ensures r.Respond? ==> r.status == 401
    ensures ExtractToken(header).None? ==> r == Respond(401, ErrorBody("Access token required"))
    ensures r.Next? <==>
      ExtractToken(header).Some? && VerifyAccessToken(cfg, c, ExtractToken(header).value, now).Success?
    ensures ExtractToken(header).Some? && r.Respond? ==>
      r.body == MessageBody("Invalid or expired access token")
    ensures r.Next? ==>
      var decoded := VerifyAccessToken(cfg, c, ExtractToken(header).value, now).value;
      r.user == AuthUser(decoded.userId, decoded.email)
  {
    match ExtractToken(header)
    case None => Respond(401, ErrorBody("Access token required"))
    case Some(token) =>
      match VerifyAccessToken(cfg, c, token, now)
      case Failure(_) => Respond(401, MessageBody("Invalid or expired access token"))
      case Success(decoded) => Next(AuthUser(decoded.userId, decoded.email))
  }

  /** The request as the middleware sees it. */
  class Request {
    const authorization: Option<string>
    var user: Option<AuthUser>

    constructor (authorization: Option<string>)
      ensures this.authorization == authorization && user == None
    {
      this.authorization := authorization;
      user := None;
    }
  }

  /** `authenticateToken(req, res, next)`: sets `req.user` only on the path that calls `next`. */
  method AuthenticateToken(req: Request, cfg: Config, c: Primitives, now: Time) returns (r: GateResult)
    modifies req
    ensures r == Authenticate(req.authorization, cfg, c, now)
    ensures req.user == if r.Next? then Some(r.user) else old(req.user)
  {
    var token := ExtractToken(req.authorization);
    if token.None? {
      return Respond(401, ErrorBody("Access token required"));
    }
    var decoded := VerifyAccessToken(cfg, c, token.value, now);
    if decoded.Failure? {
      return Respond(401, MessageBody("Invalid or expired access token"));
    }
    req.user := Some(AuthUser(decoded.value.userId, decoded.value.email));
    r := Next(req.user.value);
  }

  /** A header with no space carries no token: the gate answers 401 "Access token required". */
  lemma HeaderWithoutSpaceRejected(h: string, cfg: Config, c: Primitives, now: Time)
    requires ' ' !in h
    ensures Authenticate(Some(h), cfg, c, now) == Respond(401, ErrorBody("Access token required"))
  {
    SplitWithoutSep(h, ' ');
  }

  /** `h` is a scheme word, one space, `token`, then either nothing or a space and anything. */
  predicate TokenLayout(h: string, scheme: string, token: string, rest: string) {
    && ' ' !in scheme
    && (rest == [] || rest[0] == ' ')
    && h == scheme + [' '] + token + rest
  }

  /**
   * The token is the second space-separated piece whatever the first piece
   * is: the scheme word is not checked to be `Bearer`. An empty second piece
   * (a trailing space, or two spaces in a row) is no token.
   */
  lemma TokenAfterAnyScheme(h: string, scheme: string, token: string, rest: string)
    requires TokenLayout(h, scheme, token, rest) && ' ' !in token
    ensures ExtractToken(Some(h)) == if token == [] then None else Some(token)
  {
    SplitAfterPiece(scheme, ' ', token + rest);
    assert h == scheme + [' '] + (token + rest);
    if rest == [] {
      assert token + rest == token;
      SplitWithoutSep(token, ' ');
    } else {
      assert token + rest == token + [' '] + rest[1..];
      SplitAfterPiece(token, ' ', rest[1..]);
    }
  }

  /** Conversely, every extracted token sits between the first space and the next space or the end. */
  lemma ExtractedTokenShape(h: string)
    requires ExtractToken(Some(h)).Some?
    ensures exists scheme, rest :: TokenLayout(h, scheme, ExtractToken(Some(h)).value, rest)
  {
    var parts := Split(h, ' ');
    var token := parts[1];
    var tail := parts[1..];
    JoinSplit(h, ' ');
    assert h == parts[0] + [' '] + Join(tail, ' ');
    var rest: string;
    if |parts| == 2 {
      rest := [];
      assert Join(tail, ' ') == token + rest;
    } else {
      rest := [' '] + Join(parts[2..], ' ');
      assert tail[1..] == parts[2..];
      assert Join(tail, ' ') == token + rest;
    }
    assert TokenLayout(h, parts[0], token, rest);
  }

  /** An access token issued for a user opens the gate, with that user, until it expires. */
  lemma IssuedAccessTokenPasses(cfg: Config, c: Primitives, p: TokenPayload, scheme: string, iat: Time, t: Time)
    requires JwtRoundTrip(c) && JwtCompact(c)
    requires GenerateAccessToken(cfg, c, p, iat).Success?
    requires ' ' !in scheme
    requires iat <= t < iat + AccessExpiry(cfg)
    ensures Authenticate(Some(scheme + [' '] + GenerateAccessToken(cfg, c, p, iat).value), cfg, c, t)
      == Next(AuthUser(p.userId, Some(p.email)))
  {
    var token := GenerateAccessToken(cfg, c, p, iat).value;
    assert TokenLayout(scheme + [' '] + token, scheme, token, []);
    TokenAfterAnyScheme(scheme + [' '] + token, scheme, token, []);
  }

  /**
   * When both secrets are the same string, a refresh token also opens the
   * gate, as a user without an email: the two kinds are told apart only by
   * their secrets.
   */
  lemma RefreshTokenPassesWhenSecretsShared(db: Tables, cfg: Config, c: Primitives, userId: string, tokenId: string, rowId: string,
                                            scheme: string, iat: Time, t: Time)
    requires JwtRoundTrip(c) && JwtCompact(c)
    requires cfg.accessSecret == cfg.refreshSecret
    requires IssueRefreshToken(db, cfg, c, userId, tokenId, rowId, iat).result.Success?
    requires ' ' !in scheme
    requires iat <= t < iat + RefreshExpiry(cfg)
    ensures Authenticate(Some(scheme + [' '] + IssueRefreshToken(db, cfg, c, userId, tokenId, rowId, iat).result.value), cfg, c, t)
      == Next(AuthUser(userId, None))
  {
    var token := IssueRefreshToken(db, cfg, c, userId, tokenId, rowId, iat).result.value;
    assert TokenLayout(scheme + [' '] + token, scheme, token, []);
    TokenAfterAnyScheme(scheme + [' '] + token, scheme, token, []);
  }
}
