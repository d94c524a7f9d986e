/** The authentication routes (routers/users.py): register, login, me, logout. */
module UsersRouter {
  import opened Outcomes
  import opened Query
  import opened Models
  import opened Auth
  import UserCrud

  const EmailTaken: string := "Email already registered"
  const InvalidCredentials: string := "Invalid credentials"
  const LoggedOut: string := "Logged out"
  const AlreadyLoggedOut: string := "Already logged out"
  const Bearer: string := "bearer"

  /** Password hashing: `hash` when storing, `verify(password, hash)` when checking. */
  datatype Hasher = Hasher(hash: string -> string, verify: (string, string) -> bool)

  /** A password always verifies against its own hash. */
  ghost predicate Consistent(h: Hasher)
  {
    forall p: string :: h.verify(p, h.hash(p))
  }

  datatype TokenResponse = TokenResponse(accessToken: string, tokenType: string)

  /**
   * register: refuses a taken email with 400 and stores nothing; otherwise stores the user with
   * the password's hash (never the password) and the requested currency, "$" when none is given.
   */
  method Register(db: Database, hasher: Hasher, email: string, password: string, currency: Option<string>)
    returns (r: Result<User>)
    requires db.Valid()
    modifies db
    ensures db.Valid()
    ensures db.categories == old(db.categories) && db.operations == old(db.operations) && db.revoked == old(db.revoked)
    ensures r.Err? <==> exists u :: u in old(db.users) && u.email == email
    ensures r.Err? ==> r.error == BadRequest(EmailTaken) && db.users == old(db.users)
    ensures r.Ok? ==> db.users == old(db.users) + [r.value]
    ensures r.Ok? ==> && r.value.email == email && r.value.hashedPassword == hasher.hash(password)
                      && r.value.currency == currency.GetOr(DefaultCurrency) && r.value.role.None?
    ensures r.Ok? ==> forall u :: u in old(db.users) ==> u.id < r.value.id
  {
    if UserCrud.GetUser(db.users, email).Some? {
      r := Err(BadRequest(EmailTaken));
      return;
    }
    r := UserCrud.CreateUser(db, email, currency.GetOr(DefaultCurrency), hasher.hash(password));
  }

  /**
   * login: an unknown email and a wrong password give the same 401; success issues a bearer
   * token whose only claim besides `exp` is the matching user's id.
   */
  function Login(settings: Settings, hasher: Hasher, users: seq<User>, email: string, password: string, now: int)
    : (r: Result<TokenResponse>)
    ensures r.Err? ==> r.error == Unauthorized(InvalidCredentials)
    ensures r.Ok? ==> r.value.tokenType == Bearer
    ensures r.Ok? ==> exists u :: && u in users && u.email == email && hasher.verify(password, u.hashedPassword)
                                  && r.value.accessToken == CreateAccessToken(settings, map[UserIdClaim := u.id], now)
    ensures (forall u :: u in users && u.email == email ==> !hasher.verify(password, u.hashedPassword)) ==> r.Err?
  {
    match UserCrud.GetUser(users, email)
    case None => Err(Unauthorized(InvalidCredentials))
    case Some(u) =>
      if !hasher.verify(password, u.hashedPassword) then Err(Unauthorized(InvalidCredentials))
      else Ok(TokenResponse(CreateAccessToken(settings, map[UserIdClaim := u.id], now), Bearer))
  }

  /** With emails unique, login succeeds exactly when the email's user verifies the password. */
  lemma LoginSucceedsIffPasswordMatches(settings: Settings, hasher: Hasher, users: seq<User>,
                                        email: string, password: string, now: int)
    requires UniqueBy(users, UserEmail)
    ensures Login(settings, hasher, users, email, password, now).Ok? <==>
      exists u :: u in users && u.email == email && hasher.verify(password, u.hashedPassword)
  {
    if u :| u in users && u.email == email && hasher.verify(password, u.hashedPassword) {
      var found := UserCrud.GetUser(users, email);
      SameKeySameRow(users, UserEmail, found.value, u);
    }
  }

  /** me: the principal the gate resolves, unchanged. */
  function GetMe(codec: Codec, users: seq<User>, revoked: seq<RevokedToken>, token: string, now: int): (r: Result<User>)
    ensures r == GetCurrentUser(codec, users, revoked, token, now)
    ensures r.Ok? ==> r.value in users && !IsTokenRevoked(revoked, token)
    ensures r.Err? ==> r.error.Unauthorized?
  {
    GetCurrentUser(codec, users, revoked, token, now)
  }

  /**
   * The registration test: a user just added with a fresh id and the hash of `password`
   * can log in, and `me` with the issued token, at any time before it expires, is that user.
   */
  lemma RegisterLoginMe(settings: Settings, hasher: Hasher, users: seq<User>, revoked: seq<RevokedToken>,
                        u: User, password: string, now: int, later: int)
    requires Sound(settings.codec) && Consistent(hasher)
    requires forall v :: v in users ==> v.email != u.email && v.id < u.id
    requires u.hashedPassword == hasher.hash(password)
    requires LedgerNamesKnownUsers(settings.codec, users, revoked)
    requires now <= later <= now + 60 * settings.expireMinutes
    ensures Login(settings, hasher, users + [u], u.email, password, now).Ok?
    ensures GetMe(settings.codec, users + [u], revoked,
                  Login(settings, hasher, users + [u], u.email, password, now).value.accessToken, later) == Ok(u)
  {
    var all := users + [u];
    var found := UserCrud.GetUser(all, u.email);
    assert found == Some(u) by {
      assert u in all;
    }
    var token := Login(settings, hasher, all, u.email, password, now).value.accessToken;
    var claims := map[UserIdClaim := u.id][ExpClaim := now + 60 * settings.expireMinutes];
    assert Decode(settings.codec, token, later) == Some(claims);
    assert !IsTokenRevoked(revoked, token);
  }

  /**
   * logout: authentication runs first, so a token the gate refuses changes nothing; an
   * accepted token is inserted into the ledger unless it is already there.
   */
  method Logout(db: Database, codec: Codec, token: string, now: int) returns (r: Result<string>)
    requires db.Valid()
    modifies db
    ensures db.Valid()
    ensures db.users == old(db.users) && db.categories == old(db.categories) && db.operations == old(db.operations)
    ensures r.Err? <==> GetCurrentUser(codec, old(db.users), old(db.revoked), token, now).Err?
    ensures r.Err? ==> r.error == GetCurrentUser(codec, old(db.users), old(db.revoked), token, now).error
    ensures r.Err? ==> db.revoked == old(db.revoked)
    ensures r.Ok? ==> r.value == LoggedOut
    ensures r.Ok? ==> db.revoked == old(db.revoked) + [RevokedToken(FreshId(old(db.revoked), RevokedId), token)]
    ensures IsTokenRevoked(db.revoked, token) <==> r.Ok? || IsTokenRevoked(old(db.revoked), token)
    ensures LedgerNamesKnownUsers(codec, old(db.users), old(db.revoked)) ==>
      LedgerNamesKnownUsers(codec, db.users, db.revoked)
  {
    var current := GetCurrentUser(codec, db.users, db.revoked, token, now);
    if current.Err? {
      r := Err(current.error);
      return;
    }
    if IsTokenRevoked(db.revoked, token) {
      r := Ok(AlreadyLoggedOut);
      return;
    }
    var row := RevokedToken(FreshId(db.revoked, RevokedId), token);
    UniqueAppend(db.revoked, row, RevokedId);
    UniqueAppend(db.revoked, row, RevokedText);
    db.revoked := db.revoked + [row];
    r := Ok(LoggedOut);
  }

  /** The "Already logged out" answer of logout can never be given: the gate has refused such a token. */
  lemma AlreadyLoggedOutIsUnreachable(codec: Codec, users: seq<User>, revoked: seq<RevokedToken>, token: string, now: int)
    requires GetCurrentUser(codec, users, revoked, token, now).Ok?
    ensures !IsTokenRevoked(revoked, token)
  {
  }

  /** The logout-twice test: the second logout with the same token is a 401 and leaves the ledger alone. */
  method LogoutTwice(db: Database, codec: Codec, token: string, now: int) returns (first: Result<string>, second: Result<string>)
    requires db.Valid()
    modifies db
    ensures db.Valid()
    ensures db.users == old(db.users) && db.categories == old(db.categories) && db.operations == old(db.operations)
    ensures first.Ok? ==> second == Err(Unauthorized(TokenRevokedDetail))
    ensures first.Ok? ==> db.revoked == old(db.revoked) + [RevokedToken(FreshId(old(db.revoked), RevokedId), token)]
    ensures first.Err? ==> second == first && db.revoked == old(db.revoked)
  {
    first := Logout(db, codec, token, now);
    second := Logout(db, codec, token, now);
  }

  /**
   * Tokens are determined by the user id and the issue second. A login, a logout of its token and
   * a second login, all within one second, hand back the token just revoked, and `me` with it is a 401.
   */
  method ReloginWithinOneSecond(db: Database, settings: Settings, hasher: Hasher, email: string, password: string, now: int)
    returns (again: Result<TokenResponse>, me: Result<User>)
    requires db.Valid()
    requires Sound(settings.codec) && settings.expireMinutes >= 0
    requires Login(settings, hasher, db.users, email, password, now).Ok?
    modifies db
    ensures db.users == old(db.users) && db.categories == old(db.categories) && db.operations == old(db.operations)
    ensures db.Valid()
    ensures again == old(Login(settings, hasher, db.users, email, password, now))
    ensures again.Ok? && IsTokenRevoked(db.revoked, again.value.accessToken)
    ensures me == Err(Unauthorized(TokenRevokedDetail))
  {
    var login := Login(settings, hasher, db.users, email, password, now);
    var out := Logout(db, settings.codec, login.value.accessToken, now);
    again := Login(settings, hasher, db.users, email, password, now);
    me := GetMe(settings.codec, db.users, db.revoked, again.value.accessToken, now);
  }
}
