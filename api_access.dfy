/** internal/api/access/api.go: the per-call authorization gate. It reads the
    `authorization` metadata entry, demands the bearer scheme of section 2.1 of
    RFC 6750 with the exact, case-sensitive prefix "Bearer ", verifies the rest
    as an access token and asks the access decision about the requested
    endpoint for the token's role. It keeps no state and writes nothing. */
module ApiAccess {
  import opened Wrappers
  import opened Errors
  import opened Model
  import opened Repository
  import opened Token
  import opened ServiceAuth
  import opened ServiceAccess

  const AuthPrefix: string := "Bearer "

  /** gRPC incoming metadata: lower-cased keys, each with a list of values. */
  type Metadata = map<string, seq<string>>

  datatype CheckRequest = CheckRequest(endpointAddress: string)

  /** The gate's collaborators: the auth service and the repository the access
      service (ServiceAccess.HasAccessRight) decides over. */
  datatype ServerAccess = ServerAccess(authService: AuthService, accessRepo: AccessRepository)

  /** strings.HasPrefix: `s` starts with `prefix`, character by character. */
  predicate HasPrefix(s: string, prefix: string)
    ensures HasPrefix(s, prefix) <==> |prefix| <= |s| && forall i :: 0 <= i < |prefix| ==> s[i] == prefix[i]
  {
    |prefix| <= |s| && s[..|prefix|] == prefix
  }

  /** strings.TrimPrefix */
  function TrimPrefix(s: string, prefix: string): (r: string)
    ensures HasPrefix(s, prefix) ==> prefix + r == s
    ensures !HasPrefix(s, prefix) ==> r == s
  {
    if HasPrefix(s, prefix) then s[|prefix|..] else s
  }

  /** The raw token of a well-formed bearer header: only the first value of
      the entry is looked at. */
  function BearerToken(incoming: Option<Metadata>): (t: Option<string>)
    ensures t.Some? <==> && incoming.Some?
                         && "authorization" in incoming.value
                         && |incoming.value["authorization"]| > 0
                         && HasPrefix(incoming.value["authorization"][0], AuthPrefix)
    ensures t.Some? ==> AuthPrefix + t.value == incoming.value["authorization"][0]
  {
    if incoming.Some? && "authorization" in incoming.value && |incoming.value["authorization"]| > 0
       && HasPrefix(incoming.value["authorization"][0], AuthPrefix)
    then Some(TrimPrefix(incoming.value["authorization"][0], AuthPrefix))
    else None
  }

  function HasAccess(s: ServerAccess, now: int, incoming: Option<Metadata>, req: CheckRequest): (r: Result<(), Error>)
    ensures incoming.None? ==> r == Failure(MetadataNotProvided)
    ensures incoming.Some? && ("authorization" !in incoming.value || |incoming.value["authorization"]| == 0) ==>
              r == Failure(AuthHeaderNotProvided)
    ensures incoming.Some? && "authorization" in incoming.value && |incoming.value["authorization"]| > 0
            && !HasPrefix(incoming.value["authorization"][0], AuthPrefix) ==>
              r == Failure(InvalidAuthHeaderFormat)
    ensures BearerToken(incoming).Some? && !VerifyAccessToken(s.authService, now, BearerToken(incoming).value).Ok() ==>
              r == Failure(AccessTokenInvalid)
    ensures BearerToken(incoming).Some? && VerifyAccessToken(s.authService, now, BearerToken(incoming).value).Ok() ==>
              var decision := HasAccessRight(s.accessRepo, req.endpointAddress,
                                             VerifyAccessToken(s.authService, now, BearerToken(incoming).value).value.role);
              && (!decision.Ok() ==> r == Failure(AccessRolesUnavailable))
              && (decision.Ok() ==> r == if decision.value then Success(()) else Failure(AccessDenied))
    ensures r.Success? <==> && BearerToken(incoming).Some?
                            && VerifyAccessToken(s.authService, now, BearerToken(incoming).value).Ok()
                            && HasAccessRight(s.accessRepo, req.endpointAddress,
                                              VerifyAccessToken(s.authService, now, BearerToken(incoming).value).value.role)
                               == Ret(true, None)
  {
    if incoming.None? then Failure(MetadataNotProvided)
    else if "authorization" !in incoming.value || |incoming.value["authorization"]| == 0 then Failure(AuthHeaderNotProvided)
    else if !HasPrefix(incoming.value["authorization"][0], AuthPrefix) then Failure(InvalidAuthHeaderFormat)
    else
      var accessToken := TrimPrefix(incoming.value["authorization"][0], AuthPrefix);
      var claims := VerifyAccessToken(s.authService, now, accessToken);
      if !claims.Ok() then Failure(AccessTokenInvalid)
      else
        var hasEndpointAccess := HasAccessRight(s.accessRepo, req.endpointAddress, claims.value.role);
        if !hasEndpointAccess.Ok() then Failure(AccessRolesUnavailable)
        else if hasEndpointAccess.value then Success(())
        else Failure(AccessDenied)
  }

  /** Removing the prefix from "Bearer " + t leaves exactly t. */
  lemma {:induction false} TrimBearer(t: string)
    ensures HasPrefix(AuthPrefix + t, AuthPrefix)
    ensures TrimPrefix(AuthPrefix + t, AuthPrefix) == t
  {
    assert (AuthPrefix + t)[..|AuthPrefix|] == AuthPrefix;
    assert (AuthPrefix + t)[|AuthPrefix|..] == t;
  }

  /** The token handed to the verifier is what follows "Bearer " in the first
      value; later values of the entry are ignored. */
  lemma BearerHeaderGivesToken(md: Metadata, t: string, rest: seq<string>)
    requires "authorization" in md && md["authorization"] == [AuthPrefix + t] + rest
    ensures BearerToken(Some(md)) == Some(t)
  {
    TrimBearer(t);
  }

  /** Only the first value of the entry matters. */
  lemma OnlyFirstValueExamined(s: ServerAccess, now: int, md1: Metadata, md2: Metadata, req: CheckRequest)
    requires "authorization" in md1 && "authorization" in md2
    requires |md1["authorization"]| > 0 && |md2["authorization"]| > 0
    requires md1["authorization"][0] == md2["authorization"][0]
    ensures HasAccess(s, now, Some(md1), req) == HasAccess(s, now, Some(md2), req)
  {
  }

  /** The scheme is case-sensitive: a lower-case "bearer " is refused before
      any token is verified. */
  lemma LowerCaseSchemeRejected(s: ServerAccess, now: int, md: Metadata, t: string, req: CheckRequest)
    requires "authorization" in md && |md["authorization"]| > 0
    requires md["authorization"][0] == "bearer " + t
    ensures HasAccess(s, now, Some(md), req) == Failure(InvalidAuthHeaderFormat)
  {
    assert md["authorization"][0][0] == 'b';
  }

  /** Without metadata or a well-formed bearer header neither the verifier
      nor the decision is consulted: any other auth service and access
      repository give the same error. */
  lemma NoBearerNoCalls(s: ServerAccess, other: ServerAccess, now: int, incoming: Option<Metadata>, req: CheckRequest)
    requires BearerToken(incoming).None?
    ensures HasAccess(s, now, incoming, req) == HasAccess(other, now, incoming, req)
    ensures HasAccess(s, now, incoming, req).Failure?
  {
  }

  /** Before a token has been verified the access decision is not consulted:
      without metadata, without a bearer header or with a token that fails
      verification, every access repository gives the same error. */
  lemma DecisionNotConsultedUnlessVerified(s: ServerAccess, other: AccessRepository, now: int, incoming: Option<Metadata>, req: CheckRequest)
    requires BearerToken(incoming).None? || !VerifyAccessToken(s.authService, now, BearerToken(incoming).value).Ok()
    ensures HasAccess(s, now, incoming, req) == HasAccess(ServerAccess(s.authService, other), now, incoming, req)
    ensures HasAccess(s, now, incoming, req).Failure?
  {
  }

  /** A fresh access token for a role the decision admits opens the endpoint. */
  lemma IssuedAccessTokenAdmitted(s: ServerAccess, now: int, later: int, info: UserJwt, req: CheckRequest, rest: seq<string>)
    requires Faithful(s.authService.codec)
    requires GetAccessToken(s.authService, now, info).Ok()
    requires later <= now + JwtAccessExpireTime
    requires HasAccessRight(s.accessRepo, req.endpointAddress, info.role) == Ret(true, None)
    ensures HasAccess(s, later, Some(map["authorization" := [AuthPrefix + GetAccessToken(s.authService, now, info).value] + rest]), req)
         == Success(())
  {
    var token := GetAccessToken(s.authService, now, info).value;
    BearerHeaderGivesToken(map["authorization" := [AuthPrefix + token] + rest], token, rest);
    AccessRoundTrip(s.authService, now, later, info);
  }

  /** A refresh token does not pass the gate when the secrets differ. */
  lemma RefreshTokenRefused(s: ServerAccess, now: int, later: int, info: UserJwt, req: CheckRequest)
    requires Faithful(s.authService.codec)
    requires s.authService.jwtConfig.accessSecret != s.authService.jwtConfig.refreshSecret
    requires GetRefreshToken(s.authService, now, info).Ok()
    ensures HasAccess(s, later, Some(map["authorization" := [AuthPrefix + GetRefreshToken(s.authService, now, info).value]]), req)
         == Failure(AccessTokenInvalid)
  {
    var token := GetRefreshToken(s.authService, now, info).value;
    BearerHeaderGivesToken(map["authorization" := [AuthPrefix + token]], token, []);
    KindsNotCrossValid(s.authService, now, later, info);
  }
}
