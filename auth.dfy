/** Session tokens and the session cookie (src/lib/auth.ts).

    HS256 signing is symbolic: a tag `Hmac(key, alg, claims)` stands for the
    MAC of the header and claims under `key`; two tags are equal exactly when
    they were made with the same key over the same data, which is the
    unforgeability the real HMAC is trusted to give. */
module Auth {
  import opened Common

  /** `60 * 60 * 24 * 30`: the cookie lifetime in seconds (30 days). */
  const MaxAge: int := 60 * 60 * 24 * 30
  /** `setExpirationTime("7d")`: seven days in seconds, as jose reads "7d". */
  const SignedLifetime: int := 7 * 24 * 60 * 60
  const IssuerPrefix: string := "fidena-next-backend_"
  /** The protected header's algorithm. */
  const Hs256: string := "HS256"
  /** The algorithms jwtVerify accepts for a symmetric secret. */
  const HmacAlgs: set<string> := {"HS256", "HS384", "HS512"}

  /** The registered claims the app reads or writes (section 4.1 of RFC 7519). */
  datatype Claims = Claims(iat: Option<int>, iss: Option<string>, sub: Option<string>, exp: Option<int>)

  datatype Mac = Hmac(key: seq<Byte>, alg: string, claims: Claims)
  datatype Jws = Jws(alg: string, claims: Claims, tag: Mac)

  /** A cookie value as jwtVerify sees it: text that does not parse as a
      compact JWS, or a parsed one. */
  datatype TokenText = Garbled(raw: string) | Compact(jws: Jws)

  datatype JoseError = Malformed | UnsupportedAlg | BadSignature | Expired
  datatype Verification = Verified(claims: Claims) | Rejected(reason: JoseError)

  datatype SameSite = Lax | Strict | NoSameSite
  datatype CookieOptions = CookieOptions(httpOnly: bool, maxAge: int, path: string, secure: bool, sameSite: SameSite)
  datatype SessionCookie = SessionCookie(value: Jws, cookie: CookieOptions)

  /** Process configuration: JWT_SECRET, the package version, NODE_ENV. */
  datatype Env = Env(secret: seq<Byte>, version: string, nodeEnv: string)

  /** `generateJWT`: sign `payload` with an HS256 header. jose's
      `setExpirationTime("7d")` runs after the payload is copied in, so it
      REPLACES any `exp` of the payload by the signing time plus seven days. */
  function GenerateJwt(payload: Claims, secret: seq<Byte>, nowSec: int): (t: Jws)
    ensures t.alg == Hs256
    ensures t.claims.iat == payload.iat && t.claims.iss == payload.iss && t.claims.sub == payload.sub
    ensures t.claims.exp == Some(nowSec + SignedLifetime)
  {
    var claims := payload.(exp := Some(nowSec + SignedLifetime));
    Jws(Hs256, claims, Hmac(secret, Hs256, claims))
  }

  /** jose's `jwtVerify(token, secret)`: the JWS must parse, carry an HMAC
      algorithm, carry the tag of its own header and claims under `secret`,
      and, when it has an `exp`, that `exp` must lie after `nowSec`. */
  function JwtVerify(token: TokenText, secret: seq<Byte>, nowSec: int): (v: Verification)
    ensures v.Verified? ==> token.Compact? && v.claims == token.jws.claims
    ensures v.Verified? ==> token.jws.tag == Hmac(secret, token.jws.alg, token.jws.claims)
    ensures v.Verified? ==> token.jws.claims.exp.None? || nowSec < token.jws.claims.exp.value
  {
    match token
    case Garbled(_) => Rejected(Malformed)
    case Compact(j) =>
      if j.alg !in HmacAlgs then Rejected(UnsupportedAlg)
      else if j.tag != Hmac(secret, j.alg, j.claims) then Rejected(BadSignature)
      else if j.claims.exp.Some? && j.claims.exp.value <= nowSec then Rejected(Expired)
      else Verified(j.claims)
  }

  /** `verifyJWT`: never fails; every rejection becomes `None`. */
  function VerifyJwt(token: TokenText, secret: seq<Byte>, nowSec: int): (p: Option<Claims>)
    ensures p.None? <==> JwtVerify(token, secret, nowSec).Rejected?
    ensures p.Some? ==> token.Compact? && p.value == token.jws.claims
  {
    match JwtVerify(token, secret, nowSec)
    case Verified(c) => Some(c)
    case Rejected(_) => None
  }

  /** The claims `getSessionCookie` hands to `generateJWT`. */
  function SessionPayload(userId: string, nowSec: int, version: string): (c: Claims)
    ensures c.iat == Some(nowSec) && c.sub == Some(userId)
    ensures c.iss == Some(IssuerPrefix + version)
    ensures c.exp == Some(nowSec + MaxAge) && MaxAge == 2592000
  {
    Claims(Some(nowSec), Some(IssuerPrefix + version), Some(userId), Some(nowSec + MaxAge))
  }

  /** `getSessionCookie(userId)` at wall-clock time `nowMs` (milliseconds). */
  function GetSessionCookie(userId: string, nowMs: int, env: Env): (c: SessionCookie)
    ensures c.value.claims.iat.Some?
    ensures var iat := c.value.claims.iat.value; iat * 1000 <= nowMs < iat * 1000 + 1000
    ensures c.value.claims.sub == Some(userId)
    ensures c.value.claims.iss == Some(IssuerPrefix + env.version)
    ensures c.value.claims.exp == Some(c.value.claims.iat.value + SignedLifetime)
    ensures c.value.alg == Hs256
    ensures c.cookie.httpOnly && c.cookie.path == "/" && c.cookie.sameSite == Lax
    ensures c.cookie.maxAge == MaxAge == 2592000
    ensures c.cookie.secure <==> env.nodeEnv == "production"
  {
    // Math.floor(ms / 1000); Dafny's division by a positive number floors too.
    var nowSec := nowMs / 1000;
    SessionCookie(
      GenerateJwt(SessionPayload(userId, nowSec, env.version), env.secret, nowSec),
      CookieOptions(true, MaxAge, "/", env.nodeEnv == "production", Lax))
  }

  /** A freshly signed token verifies under the same secret exactly until
      seven days after signing, and then yields the signed claims. */
  lemma GeneratedTokenVerifies(payload: Claims, secret: seq<Byte>, signedAt: int, nowSec: int)
    ensures var t := GenerateJwt(payload, secret, signedAt);
      && (VerifyJwt(Compact(t), secret, nowSec).Some? <==> nowSec < signedAt + SignedLifetime)
      && (nowSec < signedAt + SignedLifetime ==> VerifyJwt(Compact(t), secret, nowSec) == Some(t.claims))
  {
    var t := GenerateJwt(payload, secret, signedAt);
    assert Hs256 in HmacAlgs;
  }

  /** A token whose claims were changed after signing, or that was signed
      under another key, never verifies. */
  lemma TamperedTokenFails(t: Jws, claims: Claims, secret: seq<Byte>, nowSec: int)
    requires t.tag.key != secret || claims != t.tag.claims
    ensures VerifyJwt(Compact(t.(claims := claims)), secret, nowSec) == None
  {
  }

  /** The cookie is kept by the browser for 30 days but the token inside it
      stops verifying after 7: from then on until the cookie lapses, every
      request carries a session cookie whose verification yields `None`. */
  lemma CookieOutlivesToken(userId: string, nowMs: int, env: Env, laterSec: int)
    requires var iat := nowMs / 1000; iat + SignedLifetime <= laterSec < iat + MaxAge
    ensures var c := GetSessionCookie(userId, nowMs, env);
      && laterSec < c.value.claims.iat.value + c.cookie.maxAge
      && VerifyJwt(Compact(c.value), env.secret, laterSec) == None
  {
    var c := GetSessionCookie(userId, nowMs, env);
    GeneratedTokenVerifies(SessionPayload(userId, nowMs / 1000, env.version), env.secret, nowMs / 1000, laterSec);
  }

  /** `getSessionCookie` with the token carrying the payload's own
      `exp: now + maxAge`, as the payload it builds evidently intends:
      `generateJWT` without the `setExpirationTime` override. */
  function GetSessionCookieIntended(userId: string, nowMs: int, env: Env): (c: SessionCookie)
    ensures c.value.alg == Hs256
    ensures c.value.claims == SessionPayload(userId, nowMs / 1000, env.version)
    ensures c.cookie == GetSessionCookie(userId, nowMs, env).cookie
  {
    var claims := SessionPayload(userId, nowMs / 1000, env.version);
    SessionCookie(Jws(Hs256, claims, Hmac(env.secret, Hs256, claims)), GetSessionCookie(userId, nowMs, env).cookie)
  }

  /** With the intended expiry, the token verifies for exactly as long as
      the browser keeps the cookie. */
  lemma IntendedTokenLastsAsCookie(userId: string, nowMs: int, env: Env, laterSec: int)
    ensures var c := GetSessionCookieIntended(userId, nowMs, env);
      VerifyJwt(Compact(c.value), env.secret, laterSec).Some? <==>
        laterSec < c.value.claims.iat.value + c.cookie.maxAge
  {
    var c := GetSessionCookieIntended(userId, nowMs, env);
    assert Hs256 in HmacAlgs;
    assert c.value.tag == Hmac(env.secret, Hs256, c.value.claims);
  }
}
