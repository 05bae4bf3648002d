/** internal/service/auth/service.go: the two token kinds. An access token is
    signed with the access secret and lives 24 hours, a refresh token with the
    refresh secret and lives 30 days; each kind is verified with its own secret
    only. The secrets are the read-only JWT configuration. */
module ServiceAuth {
  import opened Wrappers
  import opened Errors
  import opened Model
  import opened Token

  const JwtAccessExpireTime: int := 24 * Hour
  const JwtRefreshExpireTime: int := 30 * 24 * Hour

  datatype JwtConfig = JwtConfig(accessSecret: string, refreshSecret: string)

  datatype AuthService = AuthService(jwtConfig: JwtConfig, codec: Codec)

  function GetAccessToken(s: AuthService, now: int, claims: UserJwt): (r: Ret<string>)
    ensures r == GenerateToken(claims, s.jwtConfig.accessSecret, JwtAccessExpireTime, now, s.codec)
    ensures !r.Ok() ==> r.value == ""
  {
    var token := GenerateToken(claims, s.jwtConfig.accessSecret, JwtAccessExpireTime, now, s.codec);
    if !token.Ok() then Ret("", token.err) else Ret(token.value, None)
  }

  function GetRefreshToken(s: AuthService, now: int, claims: UserJwt): (r: Ret<string>)
    ensures r == GenerateToken(claims, s.jwtConfig.refreshSecret, JwtRefreshExpireTime, now, s.codec)
    ensures !r.Ok() ==> r.value == ""
  {
    var token := GenerateToken(claims, s.jwtConfig.refreshSecret, JwtRefreshExpireTime, now, s.codec);
    if !token.Ok() then Ret("", token.err) else Ret(token.value, None)
  }

  /** Go's `(model.UserClaims, error)` from a codec result: the zero claims on error. */
  function Claims(verified: Result<UserClaims, Error>): (r: Ret<UserClaims>)
    ensures r.Ok() <==> verified.Success?
    ensures r.Ok() ==> r.value == verified.value
    ensures !r.Ok() ==> r.value == ZeroClaims && r.err == Some(verified.error)
  {
    match verified
    case Success(c) => Ret(c, None)
    case Failure(e) => Ret(ZeroClaims, Some(e))
  }

  function VerifyRefreshToken(s: AuthService, now: int, token: string): (r: Ret<UserClaims>)
    ensures r == Claims(VerifyToken(token, s.jwtConfig.refreshSecret, now, s.codec))
  {
    Claims(VerifyToken(token, s.jwtConfig.refreshSecret, now, s.codec))
  }

  function VerifyAccessToken(s: AuthService, now: int, token: string): (r: Ret<UserClaims>)
    ensures r == Claims(VerifyToken(token, s.jwtConfig.accessSecret, now, s.codec))
  {
    Claims(VerifyToken(token, s.jwtConfig.accessSecret, now, s.codec))
  }

  /** Access tokens are the short-lived kind: issued at the same instant, an
      access token expires a whole 29 days before a refresh token. */
  lemma AccessExpiresBeforeRefresh(now: int, info: UserJwt)
    ensures JwtAccessExpireTime < JwtRefreshExpireTime
    ensures IssuedClaims(info, now, JwtAccessExpireTime).standard.expiresAt + 29 * 24 * 3600
         == IssuedClaims(info, now, JwtRefreshExpireTime).standard.expiresAt
  {
    UnixSecondsShift(now + JwtAccessExpireTime, 29 * 24 * 3600);
  }

  /** An access token verifies as an access token within its 24 hours and
      carries the user id and role it was issued for. */
  lemma AccessRoundTrip(s: AuthService, now: int, later: int, info: UserJwt)
    requires Faithful(s.codec)
    requires GetAccessToken(s, now, info).Ok()
    requires later <= now + JwtAccessExpireTime
    ensures VerifyAccessToken(s, later, GetAccessToken(s, now, info).value).Ok()
    ensures VerifyAccessToken(s, later, GetAccessToken(s, now, info).value).value.userId == info.userId
    ensures VerifyAccessToken(s, later, GetAccessToken(s, now, info).value).value.role == info.role
  {
    RoundTrip(info, s.jwtConfig.accessSecret, JwtAccessExpireTime, now, later, s.codec);
  }

  /** A refresh token verifies as a refresh token within its 30 days and
      carries the user id and role it was issued for. */
  lemma RefreshRoundTrip(s: AuthService, now: int, later: int, info: UserJwt)
    requires Faithful(s.codec)
    requires GetRefreshToken(s, now, info).Ok()
    requires later <= now + JwtRefreshExpireTime
    ensures VerifyRefreshToken(s, later, GetRefreshToken(s, now, info).value).Ok()
    ensures VerifyRefreshToken(s, later, GetRefreshToken(s, now, info).value).value.userId == info.userId
    ensures VerifyRefreshToken(s, later, GetRefreshToken(s, now, info).value).value.role == info.role
  {
    RoundTrip(info, s.jwtConfig.refreshSecret, JwtRefreshExpireTime, now, later, s.codec);
  }

  /** With distinct secrets the kinds are not cross-valid, in either direction,
      and the verifier returns the zero claims. */
  lemma KindsNotCrossValid(s: AuthService, now: int, later: int, info: UserJwt)
    requires Faithful(s.codec)
    requires s.jwtConfig.accessSecret != s.jwtConfig.refreshSecret
    ensures GetAccessToken(s, now, info).Ok() ==>
              VerifyRefreshToken(s, later, GetAccessToken(s, now, info).value)
              == Ret(ZeroClaims, Some(InvalidToken(SignatureInvalid)))
    ensures GetRefreshToken(s, now, info).Ok() ==>
              VerifyAccessToken(s, later, GetRefreshToken(s, now, info).value)
              == Ret(ZeroClaims, Some(InvalidToken(SignatureInvalid)))
  {
    if GetAccessToken(s, now, info).Ok() {
      OtherSecretRejected(info, s.jwtConfig.accessSecret, s.jwtConfig.refreshSecret, JwtAccessExpireTime, now, later, s.codec);
    }
    if GetRefreshToken(s, now, info).Ok() {
      OtherSecretRejected(info, s.jwtConfig.refreshSecret, s.jwtConfig.accessSecret, JwtRefreshExpireTime, now, later, s.codec);
    }
  }
}
