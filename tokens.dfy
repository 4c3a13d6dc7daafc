/** Signed, expiring bearer tokens. Signing and encoding are not modelled: a
    token is its claim set together with the key and algorithm it was signed
    with, or an unreadable string. */
module Tokens {
  import opened Http

  /** The token settings of the service configuration. */
  datatype Settings = Settings(
    secretKey: string,
    algorithm: string,
    accessTokenExpireMinutes: int,
    refreshTokenExpireMinutes: int)

  /** The configured defaults: HS256, 30 minutes for access tokens, 7 days for refresh tokens. */
  const DefaultSettings: Settings := Settings("Khuzaima_secret_key", "HS256", 30, 60 * 24 * 7)

  const AccessType: string := "access"
  const RefreshType: string := "refresh"

  /** The claims the service reads or writes; `None` is an absent claim.
      `exp` is in seconds. */
  datatype Claims = Claims(sub: Option<string>, role: Option<string>, tokenType: Option<string>, exp: Option<int>)

  datatype Jwt =
    | Signed(claims: Claims, key: string, algorithm: string)
    | Malformed(text: string)

  /** A claim set with only a subject and possibly a role, as the handlers pass it in. */
  function Data(sub: string, role: Option<string>): Claims {
    Claims(Some(sub), role, None, None)
  }

  function Seconds(minutes: int): int {
    minutes * 60
  }

  /** `_create_token`: copy the input claims, set `exp` to `now + expiresDelta`
      and `type` (replacing any type already there), and sign. */
  function CreateToken(data: Claims, expiresDelta: int, tokenType: string, settings: Settings, now: int): (t: Jwt)
    ensures t.Signed? && t.key == settings.secretKey && t.algorithm == settings.algorithm
    ensures t.claims.sub == data.sub && t.claims.role == data.role
    ensures t.claims.tokenType == Some(tokenType) && t.claims.exp == Some(now + expiresDelta)
  {
    Signed(data.(exp := Some(now + expiresDelta), tokenType := Some(tokenType)), settings.secretKey, settings.algorithm)
  }

  /** `create_access_token`: type "access", lifetime of the access setting. */
  function CreateAccessToken(data: Claims, settings: Settings, now: int): (t: Jwt)
    ensures t.Signed? && t.claims.tokenType == Some(AccessType)
    ensures t.claims.exp == Some(now + Seconds(settings.accessTokenExpireMinutes))
    ensures t.claims.sub == data.sub && t.claims.role == data.role
  {
    CreateToken(data, Seconds(settings.accessTokenExpireMinutes), AccessType, settings, now)
  }

  /** `create_refresh_token`: type "refresh", lifetime of the refresh setting. */
  function CreateRefreshToken(data: Claims, settings: Settings, now: int): (t: Jwt)
    ensures t.Signed? && t.claims.tokenType == Some(RefreshType)
    ensures t.claims.exp == Some(now + Seconds(settings.refreshTokenExpireMinutes))
    ensures t.claims.sub == data.sub && t.claims.role == data.role
  {
    CreateToken(data, Seconds(settings.refreshTokenExpireMinutes), RefreshType, settings, now)
  }

  /** The library's `decode`, stated as the assumption the handlers make of it:
      the claims come back exactly when the token was signed with the configured
      key and algorithm and, if it carries an expiry, `now` is before it. Every
      failure is the same `None`. */
  function Decode(token: Jwt, settings: Settings, now: int): (r: Option<Claims>)
    ensures r.Some? <==> token.Signed? && token.key == settings.secretKey && token.algorithm == settings.algorithm
                         && (token.claims.exp.Some? ==> now < token.claims.exp.value)
    ensures r.Some? ==> r.value == token.claims
  {
    match token
    case Malformed(_) => None
    case Signed(claims, key, algorithm) =>
      if key != settings.secretKey || algorithm != settings.algorithm then None
      else if claims.exp.Some? && now >= claims.exp.value then None
      else Some(claims)
  }

  /** Under the configured defaults an access token lives half an hour and a
      refresh token a week, both signed with HS256. */
  lemma DefaultLifetimes()
    ensures DefaultSettings.algorithm == "HS256"
    ensures Seconds(DefaultSettings.accessTokenExpireMinutes) == 1800
    ensures Seconds(DefaultSettings.refreshTokenExpireMinutes) == 604_800
  {
  }

  /** A token made by `_create_token` decodes to its claims until it expires, and not after. */
  lemma DecodeCreated(data: Claims, expiresDelta: int, tokenType: string, settings: Settings, issued: int, now: int)
    ensures var t := CreateToken(data, expiresDelta, tokenType, settings, issued);
            Decode(t, settings, now) == if now < issued + expiresDelta then Some(t.claims) else None
  {
  }

  /** A token signed under another key or algorithm never decodes. */
  lemma ForeignTokenRejected(data: Claims, expiresDelta: int, tokenType: string, issuer: Settings, verifier: Settings, now: int)
    requires issuer.secretKey != verifier.secretKey || issuer.algorithm != verifier.algorithm
    ensures Decode(CreateToken(data, expiresDelta, tokenType, issuer, now), verifier, now) == None
  {
  }

  /** Access and refresh tokens carry different `type` claims, whatever claims they were made from. */
  lemma TokenTypesDiffer(a: Claims, b: Claims, settings: Settings, now: int, later: int)
    ensures CreateAccessToken(a, settings, now).claims.tokenType != CreateRefreshToken(b, settings, later).claims.tokenType
  {
  }
}
