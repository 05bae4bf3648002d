/** internal/utils/token.go: issuing and verifying HS256 JSON Web Tokens
    (RFC 7519, signed as in section 3.2 of RFC 7518) with jwt-go.

    A token is modelled by its three parts: the header's algorithm, the claims
    and the signature. The MAC is symbolic: a tag records the algorithm, key and
    claims it was computed from, so equal tags come only from equal inputs (an
    ideal MAC: no collisions, no forgery without the key). The wire format
    (base64url of JSON, dot-separated) is a parameter: a Codec whose decoder
    inverts its encoder whenever the encoder succeeds.

    Time is a parameter too: an instant is Unix time in nanoseconds, as Go's
    time.Time, and a duration is in nanoseconds, as time.Duration. */
module Token {
  import opened Wrappers
  import opened Errors
  import opened Model

  const Second: int := 1_000_000_000
  const Hour: int := 3600 * Second

  /** `Unix()` of an instant: whole seconds, rounded down (Dafny's `/` by a
      positive divisor is floor division). */
  function UnixSeconds(instant: int): int {
    instant / Second
  }

  /** The names jwt-go v3 registers for its methods other than HMAC: RSA,
      RSA-PSS, ECDSA and the unsigned "none". */
  const OtherRegisteredMethods: set<string> :=
    {"RS256", "RS384", "RS512", "PS256", "PS384", "PS512", "ES256", "ES384", "ES512", "none"}

  /** The `alg` named in the token header. jwt-go's HMAC family is HS256,
      HS384 and HS512; a decoder reads those three names as the three HMAC
      constructors and any other name as `NonHmac`. */
  datatype Alg = HS256 | HS384 | HS512 | NonHmac(name: string) {
    predicate IsHmac() { !NonHmac? }

    /** jwt-go has a method registered under this name. */
    predicate IsRegistered() { !NonHmac? || name in OtherRegisteredMethods }
  }

  datatype Tag = Hmac(alg: Alg, key: string, claims: UserClaims)

  /** A signed token: header algorithm, payload, signature. */
  datatype Jws = Jws(alg: Alg, claims: UserClaims, tag: Tag)

  /** The MAC of the header and payload under a key. The tag records exactly
      its algorithm, key and claims, so equal tags come only from equal inputs:
      the ideal-MAC assumption. */
  function Mac(alg: Alg, key: string, claims: UserClaims): (t: Tag)
    ensures t.key == key && t.claims == claims && t.alg == alg
  {
    Hmac(alg, key, claims)
  }

  /** The compact serialisation: `encode` fails only where SignedString does. */
  datatype Codec = Codec(encode: Jws -> Option<string>, decode: string -> Option<Jws>)

  ghost predicate Faithful(codec: Codec) {
    forall t :: codec.encode(t).Some? ==> codec.decode(codec.encode(t).value) == Some(t)
  }

  /** A token whose tag is right for its algorithm, claims and the given key. */
  predicate Authentic(t: Jws, key: string) {
    t.alg.IsHmac() && t.tag == Mac(t.alg, key, t.claims)
  }

  /** StandardClaims.Valid of jwt-go v3 at `now` Unix seconds; 0 means absent. */
  predicate TimeValid(c: StandardClaims, now: int) {
    && (c.expiresAt == 0 || now <= c.expiresAt)
    && (c.issuedAt == 0 || now >= c.issuedAt)
    && (c.notBefore == 0 || now >= c.notBefore)
  }

  /** The fault StandardClaims.Valid reports: each failing check overwrites the
      previous one, so `nbf` beats `iat` beats `exp`. */
  function ClaimsFault(c: StandardClaims, now: int): (f: Option<TokenFault>)
    ensures f.None? <==> TimeValid(c, now)
    ensures f == Some(Expired) <==> (c.expiresAt != 0 && now > c.expiresAt
                                     && (c.issuedAt == 0 || now >= c.issuedAt)
                                     && (c.notBefore == 0 || now >= c.notBefore))
  {
    if c.notBefore != 0 && now < c.notBefore then Some(NotValidYet)
    else if c.issuedAt != 0 && now < c.issuedAt then Some(UsedBeforeIssued)
    else if c.expiresAt != 0 && now > c.expiresAt then Some(Expired)
    else None
  }

  /** The claims GenerateToken signs: expiry `now + duration` in Unix seconds,
      the user id and the role. The login name is not copied. */
  function IssuedClaims(info: UserJwt, now: int, duration: int): (c: UserClaims)
    ensures c.userId == info.userId && c.role == info.role && c.userLogin == ""
    ensures c.standard.issuedAt == 0 && c.standard.notBefore == 0
    ensures c.standard.expiresAt == UnixSeconds(now + duration)
  {
    UserClaims(StandardClaims(UnixSeconds(now + duration), 0, 0), info.userId, "", info.role)
  }

  /** The token `info` receives: HS256 over the issued claims, under `secretKey`. */
  function Signed(info: UserJwt, secretKey: string, duration: int, now: int): (t: Jws)
    ensures Authentic(t, secretKey) && t.alg == HS256
    ensures t.claims == IssuedClaims(info, now, duration)
  {
    var claims := IssuedClaims(info, now, duration);
    Jws(HS256, claims, Mac(HS256, secretKey, claims))
  }

  function GenerateToken(info: UserJwt, secretKey: string, duration: int, now: int, codec: Codec): (r: Ret<string>)
    ensures r.Ok() <==> codec.encode(Signed(info, secretKey, duration, now)).Some?
    ensures !r.Ok() ==> r.value == "" && r.err == Some(SigningFailed)
    ensures r.Ok() && Faithful(codec) ==> codec.decode(r.value) == Some(Signed(info, secretKey, duration, now))
  {
    match codec.encode(Signed(info, secretKey, duration, now))
    case None => Ret("", Some(SigningFailed))
    case Some(s) => Ret(s, None)
  }

  /** jwt.ParseWithClaims with a key function that admits only HMAC methods
      and always supplies `secretKey`. jwt-go first looks the header's method
      up in its registry (an unregistered name fails there, before the key
      function runs), then calls the key function, then checks the claims with
      StandardClaims.Valid and then the signature; a bad signature is the
      error it reports. */
  function VerifyToken(tokenStr: string, secretKey: string, now: int, codec: Codec): (r: Result<UserClaims, Error>)
    ensures r.Success? <==> codec.decode(tokenStr).Some?
                            && Authentic(codec.decode(tokenStr).value, secretKey)
                            && TimeValid(codec.decode(tokenStr).value.claims.standard, UnixSeconds(now))
    ensures r.Success? ==> r.value == codec.decode(tokenStr).value.claims
    ensures r.Failure? ==> r.error.InvalidToken?
    ensures codec.decode(tokenStr).None? ==> r == Failure(InvalidToken(Malformed))
    ensures codec.decode(tokenStr).Some? && !codec.decode(tokenStr).value.alg.IsRegistered() ==>
              r == Failure(InvalidToken(MethodUnavailable))
    ensures codec.decode(tokenStr).Some? && codec.decode(tokenStr).value.alg.IsRegistered()
            && !codec.decode(tokenStr).value.alg.IsHmac() ==>
              r == Failure(InvalidToken(SigningMethodRejected))
    ensures codec.decode(tokenStr).Some? && codec.decode(tokenStr).value.alg.IsHmac()
            && !Authentic(codec.decode(tokenStr).value, secretKey) ==>
              r == Failure(InvalidToken(SignatureInvalid))
  {
    match codec.decode(tokenStr)
    case None => Failure(InvalidToken(Malformed))
    case Some(t) =>
      if !t.alg.IsRegistered() then Failure(InvalidToken(MethodUnavailable))
      else if !t.alg.IsHmac() then Failure(InvalidToken(SigningMethodRejected))
      else if t.tag != Mac(t.alg, secretKey, t.claims) then Failure(InvalidToken(SignatureInvalid))
      else match ClaimsFault(t.claims.standard, UnixSeconds(now))
        case Some(f) => Failure(InvalidToken(f))
        case None => Success(t.claims)
  }

  /** Floor division by a second is monotone. */
  lemma UnixSecondsMonotone(a: int, b: int)
    requires a <= b
    ensures UnixSeconds(a) <= UnixSeconds(b)
  {
  }

  /** Adding whole seconds adds them to the Unix time. */
  lemma UnixSecondsShift(instant: int, seconds: int)
    ensures UnixSeconds(instant + seconds * Second) == UnixSeconds(instant) + seconds
  {
  }

  /** exp is `now + duration` in Unix seconds; for a duration of whole seconds
      it is the issue time's Unix seconds plus the duration's. */
  lemma ExpiryIsNowPlusDuration(info: UserJwt, now: int, duration: int)
    requires duration % Second == 0
    ensures IssuedClaims(info, now, duration).standard.expiresAt == UnixSeconds(now) + duration / Second
  {
    UnixSecondsShift(now, duration / Second);
  }

  /** Round trip: with the same secret, up to the expiry second, verification
      gives back the issued claims: the user id and role of `info`, an empty
      login name. */
  lemma RoundTrip(info: UserJwt, secretKey: string, duration: int, now: int, later: int, codec: Codec)
    requires Faithful(codec)
    requires GenerateToken(info, secretKey, duration, now, codec).Ok()
    requires later <= now + duration
    ensures VerifyToken(GenerateToken(info, secretKey, duration, now, codec).value, secretKey, later, codec)
         == Success(IssuedClaims(info, now, duration))
    ensures IssuedClaims(info, now, duration).userId == info.userId
    ensures IssuedClaims(info, now, duration).role == info.role
    ensures IssuedClaims(info, now, duration).userLogin == ""
  {
    UnixSecondsMonotone(later, now + duration);
  }

  /** Past the expiry second, verification fails with Expired (unless the
      expiry happened to be the 0 that jwt-go reads as "never"). */
  lemma ExpiredRejected(info: UserJwt, secretKey: string, duration: int, now: int, later: int, codec: Codec)
    requires Faithful(codec)
    requires GenerateToken(info, secretKey, duration, now, codec).Ok()
    requires UnixSeconds(now + duration) != 0
    requires later >= now + duration + Second
    ensures VerifyToken(GenerateToken(info, secretKey, duration, now, codec).value, secretKey, later, codec)
         == Failure(InvalidToken(Expired))
  {
    UnixSecondsMonotone(now + duration + Second, later);
    UnixSecondsShift(now + duration, 1);
  }

  /** A token signed under one secret is refused under any other. */
  lemma OtherSecretRejected(info: UserJwt, secretKey: string, otherKey: string, duration: int, now: int, later: int, codec: Codec)
    requires Faithful(codec)
    requires GenerateToken(info, secretKey, duration, now, codec).Ok()
    requires otherKey != secretKey
    ensures VerifyToken(GenerateToken(info, secretKey, duration, now, codec).value, otherKey, later, codec)
         == Failure(InvalidToken(SignatureInvalid))
  {
  }

  /** Tampering: if the payload or header algorithm of a token is not the one
      its tag was computed over, no key makes it valid. */
  lemma TamperedRejected(tokenStr: string, key: string, now: int, codec: Codec)
    requires codec.decode(tokenStr).Some?
    requires var t := codec.decode(tokenStr).value;
             t.alg.IsHmac() && (t.tag.claims != t.claims || t.tag.alg != t.alg)
    ensures VerifyToken(tokenStr, key, now, codec) == Failure(InvalidToken(SignatureInvalid))
  {
  }

  /** An accepted token was signed with exactly the verifier's key over
      exactly the claims returned. */
  lemma AcceptedIsSignedWithKey(tokenStr: string, key: string, now: int, codec: Codec)
    requires VerifyToken(tokenStr, key, now, codec).Success?
    ensures codec.decode(tokenStr).value.tag.key == key
    ensures codec.decode(tokenStr).value.tag.claims == VerifyToken(tokenStr, key, now, codec).value
  {
  }

  /** A token issued for user 7 with role USER and a 30-second lifetime is
      valid at once and refused, as expired, 31 seconds later. */
  lemma ThirtySecondToken(secretKey: string, now: int, codec: Codec)
    requires Faithful(codec)
    requires 0 <= now
    requires GenerateToken(UserJwt(7, "", "USER"), secretKey, 30 * Second, now, codec).Ok()
    ensures var token := GenerateToken(UserJwt(7, "", "USER"), secretKey, 30 * Second, now, codec).value;
            && VerifyToken(token, secretKey, now, codec).Success?
            && VerifyToken(token, secretKey, now, codec).value.userId == 7
            && VerifyToken(token, secretKey, now, codec).value.role == "USER"
            && VerifyToken(token, secretKey, now + 31 * Second, codec) == Failure(InvalidToken(Expired))
  {
    RoundTrip(UserJwt(7, "", "USER"), secretKey, 30 * Second, now, now, codec);
    UnixSecondsMonotone(30 * Second, now + 30 * Second);
    ExpiredRejected(UserJwt(7, "", "USER"), secretKey, 30 * Second, now, now + 31 * Second, codec);
  }
}
