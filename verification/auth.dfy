/**
 * Token issuance and the authentication gate (utils/auth.py). Signing with the process-wide
 * secret is abstracted as a `Codec`; the clock is the explicit parameter `now` (seconds).
 */
module Auth {
  import opened Outcomes
  import opened Query
  import opened Models

  /** A token payload: claim name to integer value. */
  type Claims = map<string, int>

  const UserIdClaim: string := "user_id"
  const ExpClaim: string := "exp"
  /** Lifetime of an access token when the environment does not set one: one day. */
  const DefaultExpireMinutes: int := 60 * 24

  const CouldNotValidate: string := "Could not validate credentials"
  const TokenRevokedDetail: string := "Token has been revoked"

  /**
   * HS256 under the configured secret: `sign` encodes a payload, `verify` checks the signature
   * and recovers the payload, failing on a forged or malformed token.
   */
  datatype Codec = Codec(sign: Claims -> string, verify: string -> Option<Claims>)

  /** What the signature scheme guarantees: a signed payload verifies to itself. */
  ghost predicate Sound(codec: Codec)
  {
    forall c: Claims :: codec.verify(codec.sign(c)) == Some(c)
  }

  /** Process configuration: the signer and ACCESS_TOKEN_EXPIRE_MINUTES. */
  datatype Settings = Settings(codec: Codec, expireMinutes: int)

  /** ACCESS_TOKEN_EXPIRE_MINUTES as read from the environment, defaulting to one day. */
  function ExpireMinutes(env: Option<int>): (m: int)
    ensures env.None? ==> m == 60 * 24
    ensures env.Some? ==> m == env.value
  {
    env.GetOr(DefaultExpireMinutes)
  }

  /**
   * create_access_token: signs a copy of `data` extended with `exp`, the issue time plus the
   * configured lifetime. The payload it carries is exactly that.
   */
  function CreateAccessToken(settings: Settings, data: Claims, now: int): (token: string)
    ensures Sound(settings.codec) ==>
      settings.codec.verify(token) == Some(data[ExpClaim := now + 60 * settings.expireMinutes])
  {
    settings.codec.sign(data[ExpClaim := now + 60 * settings.expireMinutes])
  }

  /** jwt.decode: a token is accepted only if its signature verifies and its `exp` has not passed. */
  function Decode(codec: Codec, token: string, now: int): (r: Option<Claims>)
    ensures r.Some? ==> codec.verify(token) == r
    ensures r.Some? && ExpClaim in r.value ==> now <= r.value[ExpClaim]
    ensures (codec.verify(token).Some? &&
             (ExpClaim in codec.verify(token).value ==> now <= codec.verify(token).value[ExpClaim])) ==> r.Some?
  {
    match codec.verify(token)
    case None => None
    case Some(payload) =>
      if ExpClaim in payload && payload[ExpClaim] < now then None else Some(payload)
  }

  /** An issued token decodes to its payload until its expiry second, and is refused after it. */
  lemma DecodeIssued(settings: Settings, data: Claims, issuedAt: int, now: int)
    requires Sound(settings.codec)
    ensures Decode(settings.codec, CreateAccessToken(settings, data, issuedAt), now) ==
      if now <= issuedAt + 60 * settings.expireMinutes
      then Some(data[ExpClaim := issuedAt + 60 * settings.expireMinutes])
      else None
  {
  }

  /**
   * The expiry create_access_token signs in the source: `datetime.now()` is the server's naive
   * local time, and the encoder turns a naive datetime into a timestamp as if it were UTC, while
   * decoding compares against UTC. With `now` in UTC seconds and `utcOffset` the server's local
   * offset from UTC in seconds, the signed `exp` is shifted by that offset.
   */
  function LocalClockExpiry(settings: Settings, now: int, utcOffset: int): (exp: int)
    ensures exp - now == utcOffset + 60 * settings.expireMinutes
    ensures utcOffset == 0 ==> exp == now + 60 * settings.expireMinutes
  {
    now + utcOffset + 60 * settings.expireMinutes
  }

  /** create_access_token as the source computes `exp`, on a server whose clock runs at `utcOffset`. */
  function CreateAccessTokenLocalClock(settings: Settings, data: Claims, now: int, utcOffset: int): (token: string)
    ensures Sound(settings.codec) ==>
      settings.codec.verify(token) == Some(data[ExpClaim := LocalClockExpiry(settings, now, utcOffset)])
    ensures utcOffset == 0 ==> token == CreateAccessToken(settings, data, now)
  {
    settings.codec.sign(data[ExpClaim := LocalClockExpiry(settings, now, utcOffset)])
  }

  /**
   * On a server west of UTC by more than the configured lifetime, a token issued with the local
   * clock is already expired when it is issued: the gate refuses it at once.
   */
  lemma LocalClockTokenBornExpired(settings: Settings, data: Claims, now: int, utcOffset: int)
    requires Sound(settings.codec)
    requires utcOffset + 60 * settings.expireMinutes < 0
    ensures Decode(settings.codec, CreateAccessTokenLocalClock(settings, data, now, utcOffset), now).None?
  {
    var payload := data[ExpClaim := LocalClockExpiry(settings, now, utcOffset)];
    assert settings.codec.verify(settings.codec.sign(payload)) == Some(payload);
    assert payload[ExpClaim] < now;
  }

  /** is_token_revoked: the ledger holds a row with exactly this token string. */
  function IsTokenRevoked(revoked: seq<RevokedToken>, token: string): (b: bool)
    ensures b <==> exists t :: t in revoked && t.token == token
  {
    First(revoked, (t: RevokedToken) => t.token == token).Some?
  }

  /**
   * get_current_user: decode, then require a `user_id` claim, then consult the ledger, then
   * look the user up. The first failing step decides the outcome, always a 401.
   */
  function GetCurrentUser(codec: Codec, users: seq<User>, revoked: seq<RevokedToken>, token: string, now: int): (r: Result<User>)
    ensures r.Err? ==> r.error.Unauthorized?
    ensures Decode(codec, token, now).None? ==> r == Err(Unauthorized(CouldNotValidate))
    ensures Decode(codec, token, now).Some? && UserIdClaim !in Decode(codec, token, now).value ==>
      r == Err(Unauthorized(CouldNotValidate))
    ensures (Decode(codec, token, now).Some? && UserIdClaim in Decode(codec, token, now).value &&
             IsTokenRevoked(revoked, token)) ==> r == Err(Unauthorized(TokenRevokedDetail))
    ensures r.Ok? ==>
      && Decode(codec, token, now).Some?
      && UserIdClaim in Decode(codec, token, now).value
      && r.value.id == Decode(codec, token, now).value[UserIdClaim]
      && r.value in users
      && !IsTokenRevoked(revoked, token)
    ensures (Decode(codec, token, now).Some? && UserIdClaim in Decode(codec, token, now).value &&
             !IsTokenRevoked(revoked, token) &&
             exists u :: u in users && u.id == Decode(codec, token, now).value[UserIdClaim]) ==> r.Ok?
    ensures (Decode(codec, token, now).Some? && UserIdClaim in Decode(codec, token, now).value &&
             !IsTokenRevoked(revoked, token) &&
             !exists u :: u in users && u.id == Decode(codec, token, now).value[UserIdClaim]) ==>
      r == Err(Unauthorized(CouldNotValidate))
  {
    match Decode(codec, token, now)
    case None => Err(Unauthorized(CouldNotValidate))
    case Some(payload) =>
      if UserIdClaim !in payload then Err(Unauthorized(CouldNotValidate))
      else if IsTokenRevoked(revoked, token) then Err(Unauthorized(TokenRevokedDetail))
      else
        var userId := payload[UserIdClaim];
        match First(users, (u: User) => u.id == userId)
        case None => Err(Unauthorized(CouldNotValidate))
        case Some(u) => Ok(u)
  }

  /** A token that does not decode is refused before either table is looked at. */
  lemma BadTokenRefusedBeforeLookups(codec: Codec, users1: seq<User>, revoked1: seq<RevokedToken>,
                                     users2: seq<User>, revoked2: seq<RevokedToken>, token: string, now: int)
    requires Decode(codec, token, now).None?
    ensures GetCurrentUser(codec, users1, revoked1, token, now) == GetCurrentUser(codec, users2, revoked2, token, now)
  {
  }

  /** A revoked token is refused before the user lookup, whatever the users table holds. */
  lemma RevokedRefusedBeforeUserLookup(codec: Codec, users1: seq<User>, users2: seq<User>,
                                       revoked: seq<RevokedToken>, token: string, now: int)
    requires IsTokenRevoked(revoked, token)
    ensures GetCurrentUser(codec, users1, revoked, token, now) == GetCurrentUser(codec, users2, revoked, token, now)
    ensures GetCurrentUser(codec, users1, revoked, token, now).Err?
  {
  }

  /**
   * Every token in the ledger carried the id of a user that exists: logout only revokes a token
   * the gate accepted, and users are never deleted.
   */
  ghost predicate LedgerNamesKnownUsers(codec: Codec, users: seq<User>, revoked: seq<RevokedToken>)
  {
    forall t :: t in revoked ==>
      && codec.verify(t.token).Some?
      && UserIdClaim in codec.verify(t.token).value
      && exists u :: u in users && u.id == codec.verify(t.token).value[UserIdClaim]
  }
}
