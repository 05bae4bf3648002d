# Authentication and authorization core of laiker/auth, in Dafny

This project models the Go service `laiker/auth`: its authorization path, the
token bookkeeping around it, and the audited user creation. Everything else in
the service is gRPC, HTTP, SQL and environment plumbing.

- **Access decision** (`ServiceAccess`). An endpoint is open to a role when the
  endpoint's minimum priority is at most the role's priority. A lookup error
  denies, and returns that error.
- **Access repository** (`RepoAccess`). The `permission` and `user_role`
  tables are maps keyed by their lookup column. A miss is not an error: the
  repository returns the zero row, so an unknown endpoint or role has
  priority 0.
- **Authorization gate** (`ApiAccess`). It reads the `authorization` metadata
  entry and demands the exact prefix `"Bearer "` (the bearer scheme of section
  2.1 of RFC 6750). It verifies the rest as an access token, then asks the
  access decision.
- **Token codec** (`Token`). HS256 JSON Web Tokens (RFC 7519, signed as in
  section 3.2 of RFC 7518), verified as jwt-go v3 does. A token is its
  algorithm, claims and tag. The tag is a symbolic MAC: it records the
  algorithm, key and claims it was computed from. The wire encoding is a
  parameter `Codec` whose decoder inverts its encoder (`Faithful`).
- **Token kinds** (`ServiceAuth`). Access tokens use the access secret and a
  24 h lifetime. Refresh tokens use the refresh secret and 30 days.
- **Login and renewal RPCs** (`ApiAuth`).
- **Audited user creation** (`Database`, `DbLogger`, `ServiceUser`). A `Store`
  class holds the user table, the audit table and the id counter.
  `ReadCommitted` is modelled as a snapshot taken on entry and restored on
  error. A ghost trace `issued` lists the write statements sent, in order.

Time is a parameter. An instant is Unix time in nanoseconds, like Go's
`time.Time`. A duration is in nanoseconds, like `time.Duration`. `Unix()` is
floor division by a second. bcrypt (`hash`, `verifyPassword`), the wire codec
and the outcome of each store statement are parameters too.

A Go `(value, error)` pair is `Errors.Ret`: "zero value together with the
error" is stated about its `value`. A Go `(*T, error)` pair whose pointer is
nil on error is a `Result`.

## Behaviour worth noting

- An unknown endpoint or role is not refused. The repository returns a zero
  row with no error (`internal/repository/access/repository.go:53-57`,
  `:82-86`), and the decision reads that row as priority 0. So an unknown
  role reaches every endpoint whose minimum is at most 0, and an
  unregistered endpoint is open to every role whose priority is at least 0.
  See `ServiceAccess.UnknownEntitiesHavePriorityZero`.
- The gate answers every refusal with a plain error carrying its own
  message (`internal/api/access/api.go:36`, `:41`, `:45`, `:53`, `:59`,
  `:66`), not a gRPC status code. The model keeps the six cases apart as
  distinct `Error` values.
- The gate looks up the exact metadata key `"authorization"`
  (`internal/api/access/api.go:39`). gRPC lower-cases incoming header keys,
  so the model's metadata map is taken to be keyed after that lower-casing.
- `internal/service/user/service.go:81` calls `FindByName` on the user
  repository, but the interface at `internal/repository/repository.go:9-15`
  does not declare it. The model's `UserRepository` includes it.

## Model

| member | source | states |
|---|---|---|
| `RepoAccess.GetEndpointPermission` | internal/repository/access/repository.go:31-58 | never an error; the stored row when the endpoint is registered, otherwise the zero row with `MinPriority` 0 |
| `RepoAccess.GetRole` | internal/repository/access/repository.go:60-87 | never an error; the stored role when registered, otherwise the zero role with `Priority` 0 |
| `RepoAccess.NewRepository` | internal/repository/access/repository.go:26-29 | the repository answers every lookup with the two table lookups above |
| `RepoAccess.NeverFails` | internal/repository/access/repository.go:38-57 | whatever is asked, neither lookup reports an error |
| `RepoAccess.FoundRowMatches` | internal/repository/access/repository.go:33-65 | in well-formed tables, a found permission has `Endpoint == endpoint` and a found role has `Name == role` |
| `ServiceAccess.HasAccessRight` | internal/service/access/service.go:21-38 | ok iff both lookups succeed, and then the result is `MinPriority <= Priority`; a permission error is returned first, then a role error; any error comes with `false` |
| `ServiceAccess.DependsOnlyOnLookups` | internal/service/access/service.go:21-38 | two repositories that answer the two lookups alike give the same decision |
| `ServiceAccess.RoleLookupSkippedOnPermissionError` | internal/service/access/service.go:24-28 | after a permission error the role lookup is irrelevant: any role table gives `(false, that error)` |
| `ServiceAccess.BoundaryIsInclusive` | internal/service/access/service.go:37 | `MinPriority == Priority` is allowed |
| `ServiceAccess.MonotoneInPriority` | internal/service/access/service.go:37 | if a role is allowed, every role of at least its priority is allowed on that endpoint |
| `ServiceAccess.UnknownEntitiesHavePriorityZero` | internal/repository/access/repository.go:49-86 | over the SQL repository the decision never fails; an unregistered endpoint or role counts as priority 0; an unregistered role is allowed on an unregistered endpoint |
| `ServiceAccess.DecisionIsThreshold` | internal/service/access/service.go:21-38 | over the SQL repository every endpoint has a priority threshold that admits a role exactly when the role's priority reaches it; an unregistered endpoint's threshold is 0 |
| `Token.Mac` | internal/utils/token.go:23-25 | a tag records the algorithm, key and claims it was computed over, so equal tags come only from equal inputs (an ideal MAC) |
| `Token.ClaimsFault` | internal/utils/token.go:29-40 | no fault iff exp, iat and nbf all hold at `now`; Expired exactly when exp is set and passed and iat and nbf hold |
| `Token.IssuedClaims` | internal/utils/token.go:15-21 | issued claims hold the user id and role, an empty login name, no iat or nbf, and `exp` = `now + duration` in Unix seconds |
| `Token.Signed` | internal/utils/token.go:23 | the signed token is HS256, authentic under the secret, over the issued claims |
| `Token.GenerateToken` | internal/utils/token.go:13-26 | ok iff the encoder succeeds; on failure returns `""` with an error; a faithful codec decodes the result to the HS256 token over the issued claims |
| `Token.VerifyToken` | internal/utils/token.go:28-51 | success iff the token decodes, is HMAC, has the tag for its claims under this key, and its times are valid; the result is the decoded claims; each failure is an `InvalidToken` error with no claims; malformed, unregistered method (`MethodUnavailable`), registered non-HMAC method (`SigningMethodRejected`) and bad-signature cases named |
| `Token.ExpiryIsNowPlusDuration` | internal/utils/token.go:17 | for a duration of whole seconds, `exp` is the issue time's Unix seconds plus the duration's |
| `Token.RoundTrip` | internal/utils/token.go:13-50 | verifying with the same secret up to `now + duration` returns the issued claims: same user id and role, empty login name |
| `Token.ExpiredRejected` | internal/utils/token.go:28-43 | a second or more past `now + duration` the token is refused as Expired |
| `Token.OtherSecretRejected` | internal/utils/token.go:32-43 | under any other secret the token is refused with SignatureInvalid, whatever the time |
| `Token.TamperedRejected` | internal/utils/token.go:28-43 | a token whose claims or algorithm differ from what its tag covers is refused under every key |
| `Token.AcceptedIsSignedWithKey` | internal/utils/token.go:28-50 | an accepted token's tag was computed with exactly the verifier's key over exactly the returned claims |
| `Token.ThirtySecondToken` | internal/utils/token.go:13-50 | a token for user 7, role USER, lifetime 30 s verifies at once to those claims and is Expired 31 s later |
| `ServiceAuth.GetAccessToken` | internal/service/auth/service.go:26-34 | issues with the access secret and the 24 h lifetime; `""` on error |
| `ServiceAuth.GetRefreshToken` | internal/service/auth/service.go:36-44 | issues with the refresh secret and the 30-day lifetime; `""` on error |
| `ServiceAuth.Claims` | internal/service/auth/service.go:49-53 | the verified claims, or the zero claims together with the codec's error |
| `ServiceAuth.VerifyRefreshToken` | internal/service/auth/service.go:46-54 | verifies with the refresh secret only |
| `ServiceAuth.VerifyAccessToken` | internal/service/auth/service.go:56-64 | verifies with the access secret only |
| `ServiceAuth.AccessExpiresBeforeRefresh` | internal/service/auth/service.go:13-14 | access lifetime < refresh lifetime; issued together, the access token expires exactly 29 days earlier |
| `ServiceAuth.AccessRoundTrip` | internal/service/auth/service.go:26-64 | an access token verifies as access within 24 h, to its user id and role |
| `ServiceAuth.RefreshRoundTrip` | internal/service/auth/service.go:36-54 | a refresh token verifies as refresh within 30 days, to its user id and role |
| `ServiceAuth.KindsNotCrossValid` | internal/service/auth/service.go:46-64 | with distinct secrets, an access token fails refresh verification and a refresh token fails access verification, each with the zero claims |
| `ApiAccess.HasPrefix` | internal/api/access/api.go:44 | holds exactly when the prefix is no longer than the string and agrees with it position by position |
| `ApiAccess.TrimPrefix` | internal/api/access/api.go:48 | with the prefix present, prefix + result is the input; otherwise the input unchanged |
| `ApiAccess.BearerToken` | internal/api/access/api.go:34-48 | a token exists iff metadata is present, the entry is present and non-empty, and its first value starts with `"Bearer "`; then `"Bearer "` + token is that value |
| `ApiAccess.HasAccess` | internal/api/access/api.go:33-67 | the error of each step of the cascade (metadata, header, prefix, verification, decision error, denial); success iff a bearer token verifies as access and the decision for the endpoint and its role is `(true, nil)` |
| `ApiAccess.TrimBearer` | internal/api/access/api.go:44-48 | `"Bearer " + t` has the prefix, and stripping it gives exactly `t` |
| `ApiAccess.BearerHeaderGivesToken` | internal/api/access/api.go:39-48 | a first value `"Bearer " + t` hands `t` to the verifier, whatever follows it |
| `ApiAccess.OnlyFirstValueExamined` | internal/api/access/api.go:44-48 | two metadata whose entries share the first value give the same result |
| `ApiAccess.LowerCaseSchemeRejected` | internal/api/access/api.go:15-46 | `"bearer "` is refused as a bad header format |
| `ApiAccess.NoBearerNoCalls` | internal/api/access/api.go:34-46 | without metadata or a well-formed bearer header the result fails and does not depend on the auth service or the access repository |
| `ApiAccess.DecisionNotConsultedUnlessVerified` | internal/api/access/api.go:50-56 | when verification fails (or there is no token), the access repository does not affect the result |
| `ApiAccess.IssuedAccessTokenAdmitted` | internal/api/access/api.go:33-67 | a fresh access token for an allowed role opens the endpoint within 24 h |
| `ApiAccess.RefreshTokenRefused` | internal/api/access/api.go:50-54 | with distinct secrets a refresh token is refused as an invalid access token |
| `ApiAuth.Principal` | internal/api/auth/api.go:45-48 | a user's tokens carry the user's id and role and no login name |
| `ApiAuth.Carried` | internal/api/auth/api.go:71-74 | a renewed token carries the verified claims' id and role and no login name |
| `ApiAuth.Login` | internal/api/auth/api.go:32-63 | a lookup error is returned unchanged; a wrong password is refused; otherwise both issues must succeed, and then both tokens are returned |
| `ApiAuth.GetRefreshToken` | internal/api/auth/api.go:65-83 | a refresh-verification failure is Aborted; otherwise a refresh token for the same principal, or the issue error |
| `ApiAuth.GetAccessToken` | internal/api/auth/api.go:85-103 | verifies a refresh token (Aborted on failure) and answers with a token issued by the refresh issuer |
| `ApiAuth.GetAccessTokenIntended` | internal/api/auth/api.go:85-103 | the same RPC, issuing its answer with the access issuer |
| `ApiAuth.LoginTokensCarryUser` | internal/api/auth/api.go:45-62 | after a successful login, the access token verifies as access and the refresh token as refresh, both to the user's id and role |
| `ApiAuth.RefreshKeepsPrincipal` | internal/api/auth/api.go:65-83 | the renewed refresh token verifies to the user id and role of the one presented |
| `ApiAuth.AccessRpcAnswersRefreshKind` | internal/api/auth/api.go:96 | with distinct secrets, the token GetAccessToken returns fails access verification |
| `ApiAuth.IntendedAccessRpcAnswersAccessKind` | internal/api/auth/api.go:85-103 | the intended RPC's token verifies as access within 24 h, to the refresh token's principal |
| `ApiAuth.LoginOpensGate` | internal/api/auth/api.go:32-63 | within 24 h of a successful login, the bearer header carrying the access token Login answered opens each endpoint that the user's role is allowed on |
| `Database.Store.Begin` | internal/service/user/service.go:27 | the scope's snapshot is the current state |
| `Database.Store.Rollback` | internal/service/user/service.go:27 | the state is the snapshot again; the statement trace is kept |
| `Database.Store.InsertUser` | internal/service/user/service.go:37 | one insert statement is sent; on success the row is stored under a fresh id, which is returned; on failure no row changes |
| `Database.Store.AppendLog` | internal/logger/logger/db.go:44 | one statement is sent; on success exactly that record is appended; nothing else changes |
| `DbLogger.Log` | internal/logger/logger/db.go:23-52 | a build failure returns its error before any statement; otherwise one insert, and its error is returned; on success exactly `(name, entity_id)` is appended; users untouched |
| `ServiceUser.Create` | internal/service/user/service.go:24-62 | ok iff hash, insert and audit write all succeed, and then returns the insert's id, with the user row and `("create user", id)` added; on any error `(0, err)` and the tables as before; hashing overwrites the caller's password first; the statement order is insert then audit, each only after the previous step succeeded |
| `ServiceUser.Get` | internal/service/user/service.go:64-66 | exactly the repository's answer |
| `ServiceUser.GetByEmail` | internal/service/user/service.go:68-70 | exactly the repository's answer |
| `ServiceUser.Delete` | internal/service/user/service.go:72-74 | exactly the repository's answer |
| `ServiceUser.Update` | internal/service/user/service.go:76-78 | exactly the repository's answer |
| `ServiceUser.FindByName` | internal/service/user/service.go:80-82 | exactly the repository's answer |

## Findings

| source | as written | input that shows it | evidently intended | confidence | as-written member | corrected member |
|---|---|---|---|---|---|---|
| internal/api/auth/api.go:96 | the `GetAccessToken` RPC issues its answer with `AuthService.GetRefreshToken` | any valid refresh token, with distinct access and refresh secrets: the returned "access token" is signed with the refresh secret, so access verification and the access gate refuse it | issue with `AuthService.GetAccessToken` | high; not executed | `ApiAuth.AccessRpcAnswersRefreshKind` | `ApiAuth.IntendedAccessRpcAnswersAccessKind` |

## Left out

- Cryptography: HMAC-SHA256 is a symbolic tag, which is an ideal MAC with no collisions and no forgery without the key. bcrypt hashing and `VerifyPassword` are function parameters.
- The JWT wire format (base64url, JSON) is the `Codec` parameter. The tag covers the decoded claims, not their exact bytes. Secrets are strings; Go's `[]byte` conversion is injective, so nothing is lost.
- jwt-go is not part of this model. Its behaviour is that of v3: `ParseWithClaims` and `StandardClaims.Valid`. `aud`, `iss`, `jti` and `sub` are not validated there and are not modelled.
- `Token.VerifyToken`: a header with no `alg`, or a non-string one (jwt-go's "signing method (alg) is unspecified."), cannot be written as a `Jws`; such a token is one the codec does not decode, so it is reported as `Malformed`.
- `token.Claims.(*model.UserClaims)` (internal/utils/token.go:45-48) always succeeds, so its error branch is not modelled. The `claims == nil` test of the auth service is subsumed by `Result`.
- `Token.IssuedClaims`: does not model int64 overflow of `now + duration` or of `Unix()`; integers are unbounded.
- The clock: each RPC takes one reading `now`. In Go, each `time.Now()` call may differ slightly.
- Logging (`fmt.Printf`, `log.Printf`, `slog`) has no effect on results and is omitted.
- Access repository: SQL building and scanning are omitted. A build or scan failure gives the same zero row as a miss. Each table is a map keyed by its lookup column, so duplicate rows are not modelled.
- User repository: the SQL implementation (internal/repository/user/repository.go) is not part of this model. The service's delegations take its answers as given; the effects of `Delete` and `Update` on the table are not modelled. The model's insert writes inside the transaction. The SQL `Create` in that file calls the pool directly (line 56) and always returns `(1, nil)` (line 62).
- `Database.Store.InsertUser`: assigns the next id from a counter that rollback restores; a PostgreSQL sequence is not rolled back.
- `ReadCommitted` (client/db/transaction) is not part of this model. Only its all-or-nothing effect on one scope is modelled. Isolation between concurrent calls, cancellation, failures of begin or commit, and error wrapping are not.
- `ApiAuth.Login`: a repository that returns a nil user without an error would make the Go code panic; the model's repository always returns a user on success.
- User timestamps (`CreatedAt`, `UpdatedAt`) are not modelled.
- Servers, wiring, configuration loading, the validation interceptor, proto conversion and the user API are outside the core.
