/** internal/api/auth/api.go: the login and token-renewal RPCs. They look the
    user up, check the password, and ask the auth service to verify and issue
    tokens; every call takes the clock reading `now`. */
module ApiAuth {
  import opened Wrappers
  import opened Errors
  import opened Model
  import opened Repository
  import opened Token
  import opened ServiceAuth
  import ServiceUser
  import ServiceAccess
  import ApiAccess

  datatype LoginRequest = LoginRequest(email: string, password: string)
  datatype LoginResponse = LoginResponse(refreshToken: string, accessToken: string)
  datatype GetRefreshTokenResponse = GetRefreshTokenResponse(refreshToken: string)
  datatype GetAccessTokenResponse = GetAccessTokenResponse(accessToken: string)

  /** The auth server's collaborators; `verifyPassword` is the bcrypt
      comparison of a stored hash with a plaintext. */
  datatype ServerAuth = ServerAuth(authService: AuthService, userRepo: UserRepository,
                                   verifyPassword: (string, string) -> bool)

  /** The principal a user's tokens are issued for. */
  function Principal(user: User): (mu: UserJwt)
    ensures mu.userId == user.id && mu.role == user.role && mu.userLogin == ""
  {
    UserJwt(user.id, "", user.role)
  }

  /** The principal carried over from verified claims. */
  function Carried(claims: UserClaims): (mu: UserJwt)
    ensures mu.userId == claims.userId && mu.role == claims.role && mu.userLogin == ""
  {
    UserJwt(claims.userId, "", claims.role)
  }

  function Login(s: ServerAuth, now: int, req: LoginRequest): (r: Result<LoginResponse, Error>)
    ensures ServiceUser.GetByEmail(s.userRepo, req.email).Failure? ==>
              r == Failure(ServiceUser.GetByEmail(s.userRepo, req.email).error)
    ensures ServiceUser.GetByEmail(s.userRepo, req.email).Success?
            && !s.verifyPassword(ServiceUser.GetByEmail(s.userRepo, req.email).value.password, req.password) ==>
              r == Failure(WrongCredentials)
    ensures ServiceUser.GetByEmail(s.userRepo, req.email).Success?
            && s.verifyPassword(ServiceUser.GetByEmail(s.userRepo, req.email).value.password, req.password) ==>
              var mu := Principal(ServiceUser.GetByEmail(s.userRepo, req.email).value);
              && (!ServiceAuth.GetAccessToken(s.authService, now, mu).Ok() ==> r == Failure(AccessTokenNotGenerated))
              && (ServiceAuth.GetAccessToken(s.authService, now, mu).Ok() && !ServiceAuth.GetRefreshToken(s.authService, now, mu).Ok() ==>
                    r == Failure(RefreshTokenNotGenerated))
              && (ServiceAuth.GetAccessToken(s.authService, now, mu).Ok() && ServiceAuth.GetRefreshToken(s.authService, now, mu).Ok() ==>
                    r == Success(LoginResponse(ServiceAuth.GetRefreshToken(s.authService, now, mu).value,
                                               ServiceAuth.GetAccessToken(s.authService, now, mu).value)))
  {
    match ServiceUser.GetByEmail(s.userRepo, req.email)
    case Failure(e) => Failure(e)
    case Success(user) =>
      if !s.verifyPassword(user.password, req.password) then Failure(WrongCredentials)
      else
        var mu := UserJwt(user.id, "", user.role);
        var accessToken := ServiceAuth.GetAccessToken(s.authService, now, mu);
        if !accessToken.Ok() then Failure(AccessTokenNotGenerated)
        else
          var refreshToken := ServiceAuth.GetRefreshToken(s.authService, now, mu);
          if !refreshToken.Ok() then Failure(RefreshTokenNotGenerated)
          else Success(LoginResponse(refreshToken.value, accessToken.value))
  }

  function GetRefreshToken(s: ServerAuth, now: int, refreshToken: string): (r: Result<GetRefreshTokenResponse, Error>)
    ensures !VerifyRefreshToken(s.authService, now, refreshToken).Ok() ==> r == Failure(Aborted("invalid refresh token"))
    ensures VerifyRefreshToken(s.authService, now, refreshToken).Ok() ==>
              var reissued := ServiceAuth.GetRefreshToken(s.authService, now,
                                                          Carried(VerifyRefreshToken(s.authService, now, refreshToken).value));
              r == if reissued.Ok() then Success(GetRefreshTokenResponse(reissued.value)) else Failure(reissued.err.value)
  {
    var claims := VerifyRefreshToken(s.authService, now, refreshToken);
    if !claims.Ok() then Failure(Aborted("invalid refresh token"))
    else
      var mu := UserJwt(claims.value.userId, "", claims.value.role);
      var token := ServiceAuth.GetRefreshToken(s.authService, now, mu);
      if !token.Ok() then Failure(token.err.value)
      else Success(GetRefreshTokenResponse(token.value))
  }

  /** As written: verifies a refresh token and answers with a token issued
      by GetRefreshToken, i.e. another refresh token. */
  function GetAccessToken(s: ServerAuth, now: int, refreshToken: string): (r: Result<GetAccessTokenResponse, Error>)
    ensures !VerifyRefreshToken(s.authService, now, refreshToken).Ok() ==> r == Failure(Aborted("invalid access token"))
    ensures VerifyRefreshToken(s.authService, now, refreshToken).Ok() ==>
              var issued := ServiceAuth.GetRefreshToken(s.authService, now,
                                                        Carried(VerifyRefreshToken(s.authService, now, refreshToken).value));
              r == if issued.Ok() then Success(GetAccessTokenResponse(issued.value)) else Failure(issued.err.value)
  {
    var claims := VerifyRefreshToken(s.authService, now, refreshToken);
    if !claims.Ok() then Failure(Aborted("invalid access token"))
    else
      var mu := UserJwt(claims.value.userId, "", claims.value.role);
      var token := ServiceAuth.GetRefreshToken(s.authService, now, mu);
      if !token.Ok() then Failure(token.err.value)
      else Success(GetAccessTokenResponse(token.value))
  }

  /** The RPC as evidently intended: the answer is issued as an access token. */
  function GetAccessTokenIntended(s: ServerAuth, now: int, refreshToken: string): (r: Result<GetAccessTokenResponse, Error>)
    ensures !VerifyRefreshToken(s.authService, now, refreshToken).Ok() ==> r == Failure(Aborted("invalid access token"))
    ensures VerifyRefreshToken(s.authService, now, refreshToken).Ok() ==>
              var issued := ServiceAuth.GetAccessToken(s.authService, now,
                                                       Carried(VerifyRefreshToken(s.authService, now, refreshToken).value));
              r == if issued.Ok() then Success(GetAccessTokenResponse(issued.value)) else Failure(issued.err.value)
  {
    var claims := VerifyRefreshToken(s.authService, now, refreshToken);
    if !claims.Ok() then Failure(Aborted("invalid access token"))
    else
      var mu := UserJwt(claims.value.userId, "", claims.value.role);
      var token := ServiceAuth.GetAccessToken(s.authService, now, mu);
      if !token.Ok() then Failure(token.err.value)
      else Success(GetAccessTokenResponse(token.value))
  }

  /** Both login tokens carry the user's id and role: each verifies with its
      own kind's secret, within its lifetime, to that principal. */
  lemma LoginTokensCarryUser(s: ServerAuth, now: int, later: int, req: LoginRequest)
    requires Faithful(s.authService.codec)
    requires Login(s, now, req).Success?
    requires later <= now + JwtAccessExpireTime
    ensures var user := s.userRepo.getByEmail(req.email).value;
            var tokens := Login(s, now, req).value;
            && VerifyAccessToken(s.authService, later, tokens.accessToken).Ok()
            && VerifyAccessToken(s.authService, later, tokens.accessToken).value.userId == user.id
            && VerifyAccessToken(s.authService, later, tokens.accessToken).value.role == user.role
            && VerifyRefreshToken(s.authService, later, tokens.refreshToken).Ok()
            && VerifyRefreshToken(s.authService, later, tokens.refreshToken).value.userId == user.id
            && VerifyRefreshToken(s.authService, later, tokens.refreshToken).value.role == user.role
  {
    var mu := Principal(s.userRepo.getByEmail(req.email).value);
    AccessRoundTrip(s.authService, now, later, mu);
    RefreshRoundTrip(s.authService, now, later, mu);
  }

  /** Renewal keeps the principal: the new refresh token verifies to the
      same user id and role as the one presented. */
  lemma RefreshKeepsPrincipal(s: ServerAuth, now: int, later: int, refreshToken: string)
    requires Faithful(s.authService.codec)
    requires GetRefreshToken(s, now, refreshToken).Success?
    requires later <= now + JwtRefreshExpireTime
    ensures var presented := VerifyRefreshToken(s.authService, now, refreshToken).value;
            var renewed := VerifyRefreshToken(s.authService, later, GetRefreshToken(s, now, refreshToken).value.refreshToken);
            && renewed.Ok() && renewed.value.userId == presented.userId && renewed.value.role == presented.role
  {
    RefreshRoundTrip(s.authService, now, later, Carried(VerifyRefreshToken(s.authService, now, refreshToken).value));
  }

  /** The discrepancy: with distinct secrets, the "access token" that
      GetAccessToken answers with is refused by access-token verification. */
  lemma AccessRpcAnswersRefreshKind(s: ServerAuth, now: int, later: int, refreshToken: string)
    requires Faithful(s.authService.codec)
    requires s.authService.jwtConfig.accessSecret != s.authService.jwtConfig.refreshSecret
    requires GetAccessToken(s, now, refreshToken).Success?
    ensures !VerifyAccessToken(s.authService, later, GetAccessToken(s, now, refreshToken).value.accessToken).Ok()
  {
    KindsNotCrossValid(s.authService, now, later, Carried(VerifyRefreshToken(s.authService, now, refreshToken).value));
  }

  /** The intended RPC answers with a token that access-token verification
      accepts for 24 hours, for the principal of the refresh token. */
  lemma IntendedAccessRpcAnswersAccessKind(s: ServerAuth, now: int, later: int, refreshToken: string)
    requires Faithful(s.authService.codec)
    requires GetAccessTokenIntended(s, now, refreshToken).Success?
    requires later <= now + JwtAccessExpireTime
    ensures var presented := VerifyRefreshToken(s.authService, now, refreshToken).value;
            var granted := VerifyAccessToken(s.authService, later, GetAccessTokenIntended(s, now, refreshToken).value.accessToken);
            && granted.Ok() && granted.value.userId == presented.userId && granted.value.role == presented.role
  {
    AccessRoundTrip(s.authService, now, later, Carried(VerifyRefreshToken(s.authService, now, refreshToken).value));
  }

  /** Login and the gate fit together: within a day of logging in, the
      access token Login answers, sent as a bearer header, opens every
      endpoint that the user's role is allowed on. */
  lemma LoginOpensGate(s: ServerAuth, gate: ApiAccess.ServerAccess, now: int, later: int,
                       req: LoginRequest, check: ApiAccess.CheckRequest)
    requires gate.authService == s.authService
    requires Faithful(s.authService.codec)
    requires Login(s, now, req).Success?
    requires later <= now + JwtAccessExpireTime
    requires ServiceAccess.HasAccessRight(gate.accessRepo, check.endpointAddress,
                                          s.userRepo.getByEmail(req.email).value.role) == Ret(true, None)
    ensures var header := ApiAccess.AuthPrefix + Login(s, now, req).value.accessToken;
            ApiAccess.HasAccess(gate, later, Some(map["authorization" := [header]]), check) == Success(())
  {
    ApiAccess.IssuedAccessTokenAdmitted(gate, now, later, Principal(s.userRepo.getByEmail(req.email).value), check, []);
  }
}
