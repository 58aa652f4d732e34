/**
 * The foreign cryptography the services call: `jsonwebtoken` (sign, verify),
 * Node's SHA-256 hex digest and `bcrypt` (hash, compare). They are not
 * modelled internally; a `Primitives` value is an arbitrary choice of the four
 * functions, and the predicates below are the only facts assumed about them,
 * each one required explicitly by the lemmas that need it.
 */
module Crypto {
  import opened Wrappers

  /** The claims a token carries: access tokens `{userId, email}`, refresh tokens `{userId, tokenId}`. */
  datatype Payload = Payload(userId: string, email: Option<string>, tokenId: Option<string>)

  datatype Primitives = Primitives(
    /** `jwt.sign(payload, secret, {expiresIn})` at clock time `iat`. */
    sign: (Payload, string, nat, int) -> string,
    /** `jwt.verify(token, secret)` at clock time `now`; `None` where the library throws. */
    verify: (string, string, int) -> Option<Payload>,
    /** `createHash('sha256').update(s).digest('hex')`. */
    sha256Hex: string -> string,
    /** `bcrypt.hash(password, rounds)` with the salt it draws made explicit. */
    bcryptHash: (string, nat, string) -> string,
    /** `bcrypt.compare(password, hash)`. */
    bcryptCompare: (string, string) -> bool)

  /** A token signed with a non-empty secret verifies, with the same secret, to its payload until it expires. */
  ghost predicate JwtRoundTrip(c: Primitives) {
    forall p, key, ttl: nat, iat, t | key != [] && iat <= t < iat + ttl ::
      c.verify(c.sign(p, key, ttl, iat), key, t) == Some(p)
  }

  /** A signed token no longer verifies once its lifetime has passed. */
  ghost predicate JwtExpires(c: Primitives) {
    forall p, key, ttl: nat, iat, t | t >= iat + ttl :: c.verify(c.sign(p, key, ttl, iat), key, t).None?
  }

  /** A signed token is a non-empty compact serialisation, which contains no space. */
  ghost predicate JwtCompact(c: Primitives) {
    forall p, key, ttl, iat :: c.sign(p, key, ttl, iat) != [] && ' ' !in c.sign(p, key, ttl, iat)
  }

  /** A SHA-256 hex digest has 64 characters. */
  ghost predicate HexDigest(c: Primitives) {
    forall s :: |c.sha256Hex(s)| == 64
  }

  /** A password matches its own hash, whatever the cost and salt. */
  ghost predicate BcryptSound(c: Primitives) {
    forall pw, rounds, salt :: c.bcryptCompare(pw, c.bcryptHash(pw, rounds, salt))
  }
}
