/** AuthService: registration, login, refresh-token rotation, logout and
    pruning over the Users and RefreshTokens tables. Password hashing
    (BCrypt), JWT signing and the random refresh value are supplied by the
    caller: a hash, a verifier and an `Issued` pair of token strings. */
module Auth {
  import opened Wrappers
  import opened Text
  import opened Sequences
  import opened Entities
  import opened RefreshTokens

  /** The access token lives one hour, the refresh token seven days (seconds). */
  const AccessTokenLifetime: int := 60 * 60
  const RefreshTokenLifetime: int := 7 * 24 * 60 * 60

  /** The exceptions the service throws, one per message, plus the unique
      index on Users.Email that SaveChanges can violate. */
  datatype AuthError =
    | EmailTaken           // "User with this email already exists"
    | EmailIndexViolation  // the unique index on Email rejects the insert
    | InvalidCredentials   // "Invalid email or password"
    | InvalidRefreshToken  // "Invalid refresh token"
    | TokenRevoked         // "Token has been revoked"
    | TokenExpired         // "Token has expired"
    | InvalidToken         // "Invalid token"

  datatype RegisterRequest = RegisterRequest(email: string, password: string, dataProcessingConsent: bool)
  datatype LoginRequest = LoginRequest(email: string, password: string)

  /** UserDto and AuthResponseDto. */
  datatype UserInfo = UserInfo(id: Id, email: string, lastLoginAt: Option<Instant>)
  datatype AuthResponse = AuthResponse(accessToken: string, refreshToken: string, expiresAt: Instant, user: UserInfo)

  /** What the token service hands out for one response. */
  datatype Issued = Issued(accessToken: string, refreshToken: string)

  /** The users and tokens tables together. */
  datatype AuthState = AuthState(users: seq<User>, tokens: seq<RefreshToken>)

  /** A user the query filter lets through whose email equals `email` after ToLower. */
  predicate EmailMatches(u: User, email: string) {
    !u.isDeleted && Lower(u.email) == Lower(email)
  }

  function FindByEmail(users: seq<User>, email: string): Option<nat> {
    FirstIndex(users, (u: User) => EmailMatches(u, email))
  }

  /** Some row, deleted or not, already holds exactly this Email value. */
  predicate EmailIndexed(users: seq<User>, email: string) {
    exists u :: u in users && u.email == email
  }

  function FindToken(tokens: seq<RefreshToken>, value: string): Option<nat> {
    FirstIndex(tokens, (t: RefreshToken) => t.token == value)
  }

  function FindUser(users: seq<User>, id: Id): Option<nat> {
    FirstIndex(users, (u: User) => u.id == id && !u.isDeleted)
  }

  /** RefreshTokens.Include(rt => rt.User).FirstOrDefault(rt => rt.Token == value):
      the required navigation is an inner join with the filtered Users, so a
      token whose user is soft-deleted is not found. Yields the token's and
      the user's positions. */
  function FindTokenWithUser(tokens: seq<RefreshToken>, users: seq<User>, value: string): (r: Option<(nat, nat)>)
    ensures r.Some? ==> r.value.0 < |tokens| && r.value.1 < |users|
    ensures r.Some? ==> tokens[r.value.0].token == value
    ensures r.Some? ==> users[r.value.1].id == tokens[r.value.0].userId && !users[r.value.1].isDeleted
    ensures r.Some? ==> forall k :: 0 <= k < r.value.0 ==> tokens[k].token != value || FindUser(users, tokens[k].userId).None?
    ensures r.None? ==> forall k :: 0 <= k < |tokens| ==> tokens[k].token != value || FindUser(users, tokens[k].userId).None?
    decreases |tokens|
  {
    if tokens == [] then None
    else
      var r := FindTokenWithUser(tokens[1..], users, value);
        assert forall k :: 1 <= k < |tokens| ==> tokens[k] == tokens[1..][k - 1];
        if tokens[0].token == value && FindUser(users, tokens[0].userId).Some? then
          Some((0, FindUser(users, tokens[0].userId).value))
        else if r.None? then None
        else Some((r.value.0 + 1, r.value.1))
  }

  /** GenerateAuthResponse's reply for a user. */
  function Response(user: User, issued: Issued, now: Instant): AuthResponse {
    AuthResponse(issued.accessToken, issued.refreshToken, now + AccessTokenLifetime,
                 UserInfo(user.id, user.email, user.lastLoginAt))
  }

  /** The refresh token GenerateAuthResponse stores for a user. */
  function SessionToken(userId: Id, issued: Issued, now: Instant): RefreshToken {
    Issue(userId, issued.refreshToken, now + RefreshTokenLifetime, now)
  }

  /** The user RegisterAsync creates. */
  function NewUser(id: Id, req: RegisterRequest, passwordHash: string, now: Instant): User {
    User(id, Lower(req.email), passwordHash, req.dataProcessingConsent, Some(now), now, None, false)
  }

  /** RegisterAsync: the outcome and the new tables. */
  function RegisterSpec(s: AuthState, req: RegisterRequest, passwordHash: string, newUserId: Id, issued: Issued, now: Instant)
    : (Result<AuthResponse, AuthError>, AuthState)
  {
    if FindByEmail(s.users, req.email).Some? then (Err(EmailTaken), s)
    else if EmailIndexed(s.users, Lower(req.email)) then (Err(EmailIndexViolation), s)
    else
      var user := NewUser(newUserId, req, passwordHash, now);
      (Ok(Response(user, issued, now)),
       AuthState(s.users + [user], s.tokens + [SessionToken(newUserId, issued, now)]))
  }

  /** LoginAsync: the outcome and the new tables. `verify` is BCrypt.Verify. */
  function LoginSpec(s: AuthState, req: LoginRequest, verify: (string, string) -> bool, issued: Issued, now: Instant)
    : (Result<AuthResponse, AuthError>, AuthState)
  {
    match FindByEmail(s.users, req.email)
    case None => (Err(InvalidCredentials), s)
    case Some(i) =>
      if !verify(req.password, s.users[i].passwordHash) then (Err(InvalidCredentials), s)
      else
        var user := s.users[i].(lastLoginAt := Some(now));
        (Ok(Response(user, issued, now)),
         AuthState(s.users[i := user], s.tokens + [SessionToken(user.id, issued, now)]))
  }

  /** RefreshTokenAsync: the outcome and the new tokens table. */
  function RefreshSpec(s: AuthState, value: string, issued: Issued, now: Instant)
    : (Result<AuthResponse, AuthError>, AuthState)
  {
    match FindTokenWithUser(s.tokens, s.users, value)
    case None => (Err(InvalidRefreshToken), s)
    case Some((i, j)) =>
      var t := s.tokens[i];
      if t.isRevoked then (Err(TokenRevoked), s)
      else if t.expiresAt < now then (Err(TokenExpired), s)
      else
        var rotated := t.(isRevoked := true, revokedAt := Some(now), replacedByToken := Some(issued.refreshToken));
        (Ok(Response(s.users[j], issued, now)),
         AuthState(s.users, s.tokens[i := rotated] + [SessionToken(t.userId, issued, now)]))
  }

  /** RevokeTokenAsync: the outcome and the new tokens table. */
  function RevokeSpec(tokens: seq<RefreshToken>, value: string, now: Instant): (Result<(), AuthError>, seq<RefreshToken>) {
    match FindToken(tokens, value)
    case None => (Err(InvalidToken), tokens)
    case Some(i) =>
      if tokens[i].isRevoked then (Ok(()), tokens)
      else (Ok(()), tokens[i := tokens[i].(isRevoked := true, revokedAt := Some(now))])
  }

  /** Prune's condition: expired strictly before now, or revoked. */
  predicate Prunable(t: RefreshToken, now: Instant) {
    t.expiresAt < now || t.isRevoked
  }

  /** PruneExpiredTokensAsync: the tokens that remain. */
  function Pruned(tokens: seq<RefreshToken>, now: Instant): (r: seq<RefreshToken>)
    ensures forall t :: t in r <==> t in tokens && !Prunable(t, now)
  {
    Where(tokens, (t: RefreshToken) => !Prunable(t, now))
  }

  /** GenerateAuthResponse: stores a seven-day refresh token for the user and
      answers with a one-hour access token. */
  method GenerateAuthResponse(db: Database, user: User, issued: Issued, now: Instant) returns (r: AuthResponse)
    modifies db`tokens
    ensures db.tokens == old(db.tokens) + [SessionToken(user.id, issued, now)]
    ensures r == Response(user, issued, now)
  {
    var token := Issue(user.id, issued.refreshToken, now + RefreshTokenLifetime, now);
    db.tokens := db.tokens + [token];
    r := AuthResponse(issued.accessToken, issued.refreshToken, now + AccessTokenLifetime,
                      UserInfo(user.id, user.email, user.lastLoginAt));
  }

  /** RegisterAsync. Guid.NewGuid() is the caller's `newUserId`, an id no row holds. */
  method Register(db: Database, req: RegisterRequest, passwordHash: string, newUserId: Id, issued: Issued, now: Instant)
    returns (r: Result<AuthResponse, AuthError>)
    modifies db`users, db`tokens
    ensures (r, AuthState(db.users, db.tokens))
         == RegisterSpec(AuthState(old(db.users), old(db.tokens)), req, passwordHash, newUserId, issued, now)
  {
    if FindByEmail(db.users, req.email).Some? {
      return Err(EmailTaken);
    }
    var email := Lower(req.email);
    if EmailIndexed(db.users, email) {
      return Err(EmailIndexViolation);
    }
    var user := User(newUserId, email, passwordHash, req.dataProcessingConsent, Some(now), now, None, false);
    db.users := db.users + [user];
    var response := GenerateAuthResponse(db, user, issued, now);
    r := Ok(response);
  }

  /** LoginAsync. The IsDeleted test after the password check is unreachable:
      the query filter already hides deleted users. */
  method Login(db: Database, req: LoginRequest, verify: (string, string) -> bool, issued: Issued, now: Instant)
    returns (r: Result<AuthResponse, AuthError>)
    modifies db`users, db`tokens
    ensures (r, AuthState(db.users, db.tokens))
         == LoginSpec(AuthState(old(db.users), old(db.tokens)), req, verify, issued, now)
  {
    var found := FindByEmail(db.users, req.email);
    if found.None? || !verify(req.password, db.users[found.value].passwordHash) {
      return Err(InvalidCredentials);
    }
    var i := found.value;
    var user := db.users[i].(lastLoginAt := Some(now));
    db.users := db.users[i := user];
    var response := GenerateAuthResponse(db, user, issued, now);
    r := Ok(response);
  }

  /** RefreshTokenAsync: rotates a usable refresh token. */
  method Refresh(db: Database, value: string, issued: Issued, now: Instant) returns (r: Result<AuthResponse, AuthError>)
    modifies db`tokens
    ensures (r, AuthState(db.users, db.tokens)) == RefreshSpec(AuthState(db.users, old(db.tokens)), value, issued, now)
  {
    var found := FindTokenWithUser(db.tokens, db.users, value);
    if found.None? {
      return Err(InvalidRefreshToken);
    }
    var (i, j) := found.value;
    var token := db.tokens[i];
    if token.isRevoked {
      return Err(TokenRevoked);
    }
    if token.expiresAt < now {
      return Err(TokenExpired);
    }
    token := token.(isRevoked := true, revokedAt := Some(now));
    token := token.(replacedByToken := Some(issued.refreshToken));
    db.tokens := db.tokens[i := token] + [Issue(token.userId, issued.refreshToken, now + RefreshTokenLifetime, now)];
    r := Ok(AuthResponse(issued.accessToken, issued.refreshToken, now + AccessTokenLifetime,
                         UserInfo(db.users[j].id, db.users[j].email, db.users[j].lastLoginAt)));
  }

  /** RevokeTokenAsync (logout). */
  method Revoke(db: Database, value: string, now: Instant) returns (r: Result<(), AuthError>)
    modifies db`tokens
    ensures (r, db.tokens) == RevokeSpec(old(db.tokens), value, now)
  {
    var found := FindToken(db.tokens, value);
    if found.None? {
      return Err(InvalidToken);
    }
    var i := found.value;
    if db.tokens[i].isRevoked {
      return Ok(());
    }
    db.tokens := db.tokens[i := db.tokens[i].(isRevoked := true, revokedAt := Some(now))];
    r := Ok(());
  }

  /** PruneExpiredTokensAsync. */
  method PruneExpiredTokens(db: Database, now: Instant)
    modifies db`tokens
    ensures db.tokens == Pruned(old(db.tokens), now)
  {
    var expired := Where(db.tokens, (t: RefreshToken) => Prunable(t, now));
    if |expired| > 0 {
      db.tokens := Where(db.tokens, (t: RefreshToken) => !Prunable(t, now));
    } else {
      NothingToPrune(db.tokens, now);
    }
  }

  /** With no prunable token, pruning keeps the table as it is. */
  lemma {:induction false} NothingToPrune(tokens: seq<RefreshToken>, now: Instant)
    requires Where(tokens, (t: RefreshToken) => Prunable(t, now)) == []
    ensures Pruned(tokens, now) == tokens
  {
    if tokens != [] {
      assert tokens[0] !in Where(tokens, (t: RefreshToken) => Prunable(t, now));
      assert Where(tokens[1..], (t: RefreshToken) => Prunable(t, now)) == [];
      NothingToPrune(tokens[1..], now);
      assert tokens == [tokens[0]] + tokens[1..];
    }
  }

  /** Registration is refused with EmailTaken exactly when a visible user's
      email equals the requested one up to case. */
  lemma RegisterTakenIff(s: AuthState, req: RegisterRequest, passwordHash: string, newUserId: Id, issued: Issued, now: Instant)
    ensures RegisterSpec(s, req, passwordHash, newUserId, issued, now).0 == Err(EmailTaken)
        <==> exists k :: 0 <= k < |s.users| && EmailMatches(s.users[k], req.email)
  {
  }

  /** A successful registration stores the lowercased email, no login yet,
      consent dated now, and opens a session: one more refresh token, for
      the new user, active now and for seven days; nothing else changes. */
  lemma RegisterOpensSession(s: AuthState, req: RegisterRequest, passwordHash: string, newUserId: Id, issued: Issued, now: Instant)
    requires RegisterSpec(s, req, passwordHash, newUserId, issued, now).0.Ok?
    ensures var (r, t) := RegisterSpec(s, req, passwordHash, newUserId, issued, now);
      && t.users == s.users + [NewUser(newUserId, req, passwordHash, now)]
      && t.users[|s.users|].email == Lower(req.email) && !t.users[|s.users|].isDeleted
      && t.users[|s.users|].consentDate == Some(now)
      && |t.tokens| == |s.tokens| + 1 && t.tokens[..|s.tokens|] == s.tokens
      && t.tokens[|s.tokens|].userId == newUserId && t.tokens[|s.tokens|].token == r.value.refreshToken
      && IsActive(t.tokens[|s.tokens|], now) && IsActive(t.tokens[|s.tokens|], now + RefreshTokenLifetime - 1)
      && !IsActive(t.tokens[|s.tokens|], now + RefreshTokenLifetime)
      && r.value.expiresAt == now + AccessTokenLifetime
      && r.value.user == UserInfo(newUserId, Lower(req.email), None)
  {
  }

  /** Once an email is registered, registering it again in any letter case
      is refused. */
  lemma {:induction false} RegisteredEmailIsTaken(
    s: AuthState, req: RegisterRequest, passwordHash: string, newUserId: Id, issued: Issued, now: Instant,
    again: RegisterRequest, passwordHash': string, newUserId': Id, issued': Issued, now': Instant)
    requires RegisterSpec(s, req, passwordHash, newUserId, issued, now).0.Ok?
    requires Lower(again.email) == Lower(req.email)
    ensures RegisterSpec(RegisterSpec(s, req, passwordHash, newUserId, issued, now).1,
                         again, passwordHash', newUserId', issued', now').0 == Err(EmailTaken)
  {
    var t := RegisterSpec(s, req, passwordHash, newUserId, issued, now).1;
    LowerIdempotent(req.email);
    assert EmailMatches(t.users[|s.users|], again.email);
  }

  /** A fresh registration can log in at once, with the email in any letter
      case and any password that verifies against the stored hash; the
      session belongs to the new user. */
  lemma {:induction false} RegisterThenLogIn(
    s: AuthState, req: RegisterRequest, passwordHash: string, newUserId: Id, issued: Issued, now: Instant,
    login: LoginRequest, verify: (string, string) -> bool, issued': Issued, now': Instant)
    requires RegisterSpec(s, req, passwordHash, newUserId, issued, now).0.Ok?
    requires Lower(login.email) == Lower(req.email) && verify(login.password, passwordHash)
    ensures var t := RegisterSpec(s, req, passwordHash, newUserId, issued, now).1;
      var r := LoginSpec(t, login, verify, issued', now').0;
      r.Ok? && r.value.user.id == newUserId && r.value.user.lastLoginAt == Some(now')
  {
    var t := RegisterSpec(s, req, passwordHash, newUserId, issued, now).1;
    LowerIdempotent(req.email);
    assert EmailMatches(t.users[|s.users|], login.email);
    forall k | 0 <= k < |s.users| ensures !EmailMatches(t.users[k], login.email) {
      assert t.users[k] == s.users[k];
      assert !EmailMatches(s.users[k], req.email);
    }
    assert FindByEmail(t.users, login.email) == Some(|s.users|);
  }

  /** Login succeeds exactly when a visible user has the email up to case and
      the password verifies against the first such user's hash; every
      failure is the same InvalidCredentials with nothing changed, whether
      the email is unknown or the password wrong. */
  lemma LoginOkIff(s: AuthState, req: LoginRequest, verify: (string, string) -> bool, issued: Issued, now: Instant)
    ensures LoginSpec(s, req, verify, issued, now).0.Ok?
        <==> FindByEmail(s.users, req.email).Some?
             && verify(req.password, s.users[FindByEmail(s.users, req.email).value].passwordHash)
    ensures LoginSpec(s, req, verify, issued, now).0.Err?
        ==> LoginSpec(s, req, verify, issued, now) == (Err(InvalidCredentials), s)
  {
  }

  /** A user whose every account with that email is soft-deleted cannot log in. */
  lemma DeletedUserCannotLogIn(s: AuthState, req: LoginRequest, verify: (string, string) -> bool, issued: Issued, now: Instant)
    requires forall k :: 0 <= k < |s.users| && Lower(s.users[k].email) == Lower(req.email) ==> s.users[k].isDeleted
    ensures LoginSpec(s, req, verify, issued, now) == (Err(InvalidCredentials), s)
  {
  }

  /** A successful login stamps LastLoginAt on that user alone, reports it,
      and opens a session for that user. */
  lemma LoginRecordsInstant(s: AuthState, req: LoginRequest, verify: (string, string) -> bool, issued: Issued, now: Instant)
    requires LoginSpec(s, req, verify, issued, now).0.Ok?
    ensures var (r, t) := LoginSpec(s, req, verify, issued, now);
      var i := FindByEmail(s.users, req.email).value;
      && |t.users| == |s.users|
      && t.users[i] == s.users[i].(lastLoginAt := Some(now))
      && (forall k :: 0 <= k < |s.users| && k != i ==> t.users[k] == s.users[k])
      && r.value.user == UserInfo(s.users[i].id, s.users[i].email, Some(now))
      && t.tokens == s.tokens + [SessionToken(s.users[i].id, issued, now)]
      && IsActive(t.tokens[|s.tokens|], now)
  {
  }

  /** Refresh accepts exactly a found token that is active, or unrevoked and
      expiring at this very instant (the expiry test is strict while IsActive
      is not); otherwise the first failing test names the error. */
  lemma RefreshOutcome(s: AuthState, value: string, issued: Issued, now: Instant)
    ensures var found := FindTokenWithUser(s.tokens, s.users, value);
      var r := RefreshSpec(s, value, issued, now).0;
      && (r.Ok? <==> found.Some? && (IsActive(s.tokens[found.value.0], now) || (!s.tokens[found.value.0].isRevoked && s.tokens[found.value.0].expiresAt == now)))
      && (r == Err(InvalidRefreshToken) <==> found.None?)
      && (r == Err(TokenRevoked) <==> found.Some? && s.tokens[found.value.0].isRevoked)
      && (r == Err(TokenExpired) <==> found.Some? && !s.tokens[found.value.0].isRevoked && s.tokens[found.value.0].expiresAt < now)
      && (r.Err? ==> RefreshSpec(s, value, issued, now).1 == s)
  {
  }

  /** A token whose user is soft-deleted cannot be refreshed. */
  lemma DeletedUsersTokenIsInvalid(s: AuthState, value: string, issued: Issued, now: Instant)
    requires forall k :: 0 <= k < |s.tokens| && s.tokens[k].token == value ==> FindUser(s.users, s.tokens[k].userId).None?
    ensures RefreshSpec(s, value, issued, now) == (Err(InvalidRefreshToken), s)
  {
  }

  /** Rotation: the presented token is revoked now and points to its
      replacement; the replacement, for the same user, is appended and
      active; the reply carries the token's user; nothing else changes. */
  lemma RefreshRotates(s: AuthState, value: string, issued: Issued, now: Instant)
    requires RefreshSpec(s, value, issued, now).0.Ok?
    ensures var (r, t) := RefreshSpec(s, value, issued, now);
      var (i, j) := FindTokenWithUser(s.tokens, s.users, value).value;
      && t.users == s.users
      && |t.tokens| == |s.tokens| + 1
      && t.tokens[i].isRevoked && t.tokens[i].revokedAt == Some(now)
      && t.tokens[i].replacedByToken == Some(r.value.refreshToken)
      && t.tokens[i].token == value && t.tokens[i].userId == s.tokens[i].userId
      && (forall k :: 0 <= k < |s.tokens| && k != i ==> t.tokens[k] == s.tokens[k])
      && t.tokens[|s.tokens|].userId == s.tokens[i].userId && t.tokens[|s.tokens|].token == r.value.refreshToken
      && IsActive(t.tokens[|s.tokens|], now)
      && r.value.user.id == s.tokens[i].userId
  {
  }

  /** A refresh token is redeemed at most once: presenting it again, at any
      instant, is refused as revoked and changes nothing. */
  lemma {:induction false} RefreshReplayIsRejected(s: AuthState, value: string, issued: Issued, now: Instant,
                                                   issued': Issued, now': Instant)
    requires RefreshSpec(s, value, issued, now).0.Ok?
    ensures var t := RefreshSpec(s, value, issued, now).1;
      RefreshSpec(t, value, issued', now') == (Err(TokenRevoked), t)
  {
    var (i, j) := FindTokenWithUser(s.tokens, s.users, value).value;
    var t := RefreshSpec(s, value, issued, now).1;
    assert t.tokens[i].token == value && t.tokens[i].isRevoked;
    assert t.tokens[i].userId == s.tokens[i].userId;
    var again := FindTokenWithUser(t.tokens, t.users, value);
    assert again.Some? by {
      assert FindUser(t.users, t.tokens[i].userId).Some?;
    }
    var (i', j') := again.value;
    assert i' == i;
  }

  /** The token values are pairwise distinct where `value` is concerned. */
  ghost predicate HeldOnce(tokens: seq<RefreshToken>, value: string) {
    forall a, b :: 0 <= a < |tokens| && 0 <= b < |tokens| && tokens[a].token == value && tokens[b].token == value ==> a == b
  }

  /** After logout with a token held once, refreshing with it fails. */
  lemma RevokedTokenCannotRefresh(s: AuthState, value: string, now: Instant, issued: Issued, now': Instant)
    requires HeldOnce(s.tokens, value)
    requires RevokeSpec(s.tokens, value, now).0.Ok?
    ensures var t := AuthState(s.users, RevokeSpec(s.tokens, value, now).1);
      RefreshSpec(t, value, issued, now').0.Err?
  {
    var i := FindToken(s.tokens, value).value;
    var t := AuthState(s.users, RevokeSpec(s.tokens, value, now).1);
    var found := FindTokenWithUser(t.tokens, t.users, value);
    if found.Some? {
      assert t.tokens[found.value.0] == s.tokens[found.value.0] || found.value.0 == i;
    }
  }

  /** Revoking is idempotent: a second call with the same value answers the
      same and changes nothing more. */
  lemma {:induction false} RevokeIsIdempotent(tokens: seq<RefreshToken>, value: string, now: Instant, now': Instant)
    ensures var (r, t) := RevokeSpec(tokens, value, now);
      RevokeSpec(t, value, now') == (r, t)
  {
    var (r, t) := RevokeSpec(tokens, value, now);
    if r.Ok? {
      var i := FindToken(tokens, value).value;
      assert t[i].token == value && t[i].isRevoked;
      var again := FindToken(t, value);
      assert again.Some?;
      assert again.value == i;
    }
  }

  /** Pruning keeps exactly the tokens refresh could still accept by expiry
      and revocation: every active token survives, and so does an unrevoked
      token expiring at this instant, which IsActive already calls inactive. */
  lemma PruneKeepsRefreshable(tokens: seq<RefreshToken>, now: Instant)
    ensures forall t :: t in tokens && IsActive(t, now) ==> t in Pruned(tokens, now)
    ensures forall t :: t in Pruned(tokens, now) <==> t in tokens && !t.isRevoked && now <= t.expiresAt
    ensures forall t :: t in Pruned(tokens, now) && t.expiresAt != now ==> IsActive(t, now)
  {
  }

  /** Pruning twice at the same instant prunes nothing more. */
  lemma PruneIsIdempotent(tokens: seq<RefreshToken>, now: Instant)
    ensures Pruned(Pruned(tokens, now), now) == Pruned(tokens, now)
  {
    WhereIdempotent(tokens, (t: RefreshToken) => !Prunable(t, now));
  }
}
