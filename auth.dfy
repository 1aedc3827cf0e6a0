/** backend/auth.py: password hashing, token issue and verification, TOTP checking, and the
    login gate sequence over one user record (lookup, lock, password, TOTP, IP allow-list,
    success). Time is `now`, in whole seconds. */
module Auth {
  import opened Outcomes
  import opened Text
  import opened Primitives
  import opened Models
  import opened Store

  const ALGORITHM := "HS256"
  const ACCESS_TOKEN_EXPIRE_MINUTES := 60
  /** The lock is set when the count read BEFORE the failed attempt is at least this. */
  const LOCK_AFTER_PRIOR_FAILURES := 4
  /** 30 minutes, in seconds. */
  const LOCK_SECONDS := 30 * 60
  const TOTP_INTERVAL := 30

  const INVALID_CREDENTIALS := Fail(401, "Invalid credentials")
  const ACCOUNT_LOCKED := Fail(423, "Account is temporarily locked")
  const TOTP_REQUIRED := HttpError(400, "TOTP code required", map["X-Require-TOTP" := "true"])
  const INVALID_TOTP := Fail(401, "Invalid TOTP code")
  const IP_NOT_ALLOWED := Fail(403, "IP address not allowed")
  const TOKEN_EXPIRED := Fail(401, "Token has expired")
  const TOKEN_INVALID := Fail(401, "Could not validate token")
  /** passlib raises ValueError for a stored digest it cannot identify. Nothing on the request
      path catches it, so the server answers with its generic 500 response. */
  const UNIDENTIFIED_HASH := Fail(500, "Internal Server Error")

  // ---------------------------------------------------------------------------
  // Password hashing (bcrypt through passlib)

  /** The digest verifies the password it was made from and no other. */
  function HashPassword(password: string, salt: nat): (h: PasswordHash)
    ensures h.Bcrypt? && VerifyPassword(password, h)
    ensures forall other :: VerifyPassword(other, h) ==> other == password
    ensures forall other :: other != password ==> WrongPassword(other, h)
  {
    Bcrypt(salt, password)
  }

  /** The password matches a bcrypt digest. For an `Unparsable` digest passlib raises instead
      of answering; callers check for that case first (UNIDENTIFIED_HASH). */
  predicate VerifyPassword(password: string, h: PasswordHash)
  {
    h.Bcrypt? && h.password == password
  }

  /** passlib answers "no": the digest is bcrypt and the password does not match it. */
  predicate WrongPassword(password: string, h: PasswordHash)
  {
    h.Bcrypt? && h.password != password
  }

  // ---------------------------------------------------------------------------
  // Access tokens (HS256, section 3.2 of RFC 7518; `exp`, section 4.1.4 of RFC 7519)

  /** Seconds a token lives: the given delta, unless it is absent or zero (a zero timedelta
      is falsy in Python), in which case the 60-minute default. */
  function TokenLifetime(expiresDelta: Option<int>): int
  {
    if expiresDelta.Some? && expiresDelta.value != 0 then expiresDelta.value
    else ACCESS_TOKEN_EXPIRE_MINUTES * 60
  }

  function CreateAccessToken(data: map<string, string>, now: int, expiresDelta: Option<int>,
                             key: string): (t: Jwt)
    ensures t.Signed? && t.claims == data && t.alg == "HS256" && t.key == key
    ensures t.exp == now + TokenLifetime(expiresDelta)
    ensures expiresDelta.None? ==> t.exp == now + 3600
  {
    Signed(data, now + TokenLifetime(expiresDelta), ALGORITHM, key)
  }

  /** Signature first, expiry second: a token that fails both is reported invalid. */
  function VerifyToken(token: Jwt, key: string, now: int): (r: Result<map<string, string>>)
    ensures r.Ok? <==> token.Signed? && token.key == key && token.alg == "HS256" && now < token.exp
    ensures r.Ok? ==> r.value == token.claims
    ensures r.Err? ==> r.error in {TOKEN_EXPIRED, TOKEN_INVALID}
    ensures r == Err(TOKEN_EXPIRED) <==> token.Signed? && token.key == key && token.alg == "HS256" && token.exp <= now
  {
    if !token.Signed? || token.key != key || token.alg != ALGORITHM then Err(TOKEN_INVALID)
    else if token.exp <= now then Err(TOKEN_EXPIRED)
    else Ok(token.claims)
  }

  /** Issue then verify: the claims come back before expiry, "Token has expired" after. */
  lemma TokenRoundTrip(data: map<string, string>, issuedAt: int, expiresDelta: Option<int>,
                       key: string, now: int)
    ensures VerifyToken(CreateAccessToken(data, issuedAt, expiresDelta, key), key, now)
            == if now < issuedAt + TokenLifetime(expiresDelta) then Ok(data) else Err(TOKEN_EXPIRED)
  {
  }

  /** A token signed with another key is invalid, expired or not. */
  lemma ForeignTokenRejected(data: map<string, string>, issuedAt: int, expiresDelta: Option<int>,
                             signingKey: string, key: string, now: int)
    requires signingKey != key
    ensures VerifyToken(CreateAccessToken(data, issuedAt, expiresDelta, signingKey), key, now)
            == Err(TOKEN_INVALID)
  {
  }

  /** The bearer dependency: verify the token, read `sub`, load that user. */
  function GetCurrentUser(users: seq<User>, token: Jwt, key: string, now: int): (r: Result<User>)
    ensures r.Ok? ==> VerifyToken(token, key, now).Ok? && "sub" in token.claims
    ensures r.Ok? ==> r.value.id == token.claims["sub"]
    ensures r.Ok? ==> UserWithId(users, r.value.id).Some?
                      && users[UserWithId(users, r.value.id).value] == r.value
    ensures r.Err? ==> r.error.status == 401
  {
    match VerifyToken(token, key, now)
    case Err(e) => Err(e)
    case Ok(payload) =>
      if "sub" !in payload then Err(TOKEN_INVALID)
      else
        match UserWithId(users, payload["sub"])
        case None => Err(Fail(401, "User not found"))
        case Some(i) => Ok(users[i])
  }

  // ---------------------------------------------------------------------------
  // TOTP (the time-step window of section 5.2 of RFC 6238)

  /** The RFC 6238 counter for a Unix time: int(now / 30), truncating toward zero. */
  function TimeStep(now: int): int
  {
    if now >= 0 then now / TOTP_INTERVAL else -((-now) / TOTP_INTERVAL)
  }

  /** False for a missing or empty secret or an empty code; otherwise the code must be the
      one of the current step or of one step either side. */
  predicate VerifyTotp(secret: Option<string>, code: string, now: int, gen: CodeGenerator)
  {
    && secret.Some? && secret.value != "" && code != ""
    && (|| gen(secret.value, TimeStep(now) - 1) == code
        || gen(secret.value, TimeStep(now)) == code
        || gen(secret.value, TimeStep(now) + 1) == code)
  }

  /** A code computed for step t is accepted while the clock is within one step of t. */
  lemma TotpAcceptsAdjacentSteps(secret: string, t: int, now: int, gen: CodeGenerator)
    requires secret != "" && gen(secret, t) != ""
    requires TimeStep(now) - 1 <= t <= TimeStep(now) + 1
    ensures VerifyTotp(Some(secret), gen(secret, t), now, gen)
  {
  }

  /** Two or more steps away, the code is refused unless it collides with a code of the
      window (the derivation's codes for those steps differ from it). */
  lemma TotpRejectsDistantSteps(secret: string, t: int, now: int, gen: CodeGenerator)
    requires t <= TimeStep(now) - 2 || t >= TimeStep(now) + 2
    requires forall k :: TimeStep(now) - 1 <= k <= TimeStep(now) + 1 ==> gen(secret, k) != gen(secret, t)
    ensures !VerifyTotp(Some(secret), gen(secret, t), now, gen)
  {
    assert gen(secret, TimeStep(now) - 1) != gen(secret, t);
    assert gen(secret, TimeStep(now)) != gen(secret, t);
    assert gen(secret, TimeStep(now) + 1) != gen(secret, t);
  }

  /** In seconds: a code read off the authenticator at time `shown` is accepted by a server
      whose clock is up to 30 seconds ahead or behind. */
  lemma {:induction false} TotpToleratesThirtySecondsSkew(secret: string, shown: int, now: int,
                                                         gen: CodeGenerator)
    requires secret != "" && gen(secret, TimeStep(shown)) != ""
    requires 0 <= shown && 0 <= now && shown - 30 <= now <= shown + 30
    ensures VerifyTotp(Some(secret), gen(secret, TimeStep(shown)), now, gen)
  {
    assert TimeStep(now) - 1 <= TimeStep(shown) <= TimeStep(now) + 1;
    TotpAcceptsAdjacentSteps(secret, TimeStep(shown), now, gen);
  }

  // ---------------------------------------------------------------------------
  // The user record's lockout and enrollment state

  predicate IsLocked(u: User, now: int)
  {
    u.lockedUntil.Some? && u.lockedUntil.value > now
  }

  /** Enabled 2FA always has a non-empty secret behind it. */
  predicate TotpConsistent(u: User)
  {
    u.totpEnabled ==> u.totpSecret.Some? && u.totpSecret.value != ""
  }

  /** A lock is only ever set after at least five recorded failures. */
  predicate LockConsistent(u: User)
  {
    u.lockedUntil.Some? ==> u.failedLoginAttempts >= LOCK_AFTER_PRIOR_FAILURES + 1
  }

  predicate WellFormedUser(u: User)
  {
    TotpConsistent(u) && LockConsistent(u)
  }

  /** A new account is well formed, never locked, has no 2FA and accepts any IP. */
  lemma NewUserWellFormed(id: string, username: string, email: string, hash: PasswordHash,
                          role: UserRole, now: int)
    ensures var u := NewUser(id, username, email, hash, role, now);
            WellFormedUser(u) && (forall t :: !IsLocked(u, t)) && !u.totpEnabled && u.allowedIps == []
  {
  }

  /** The hard-coded lockout rule agrees with the declared security defaults (five failures,
      30 minutes) but reads neither setting. */
  lemma LockoutMatchesDefaultSettings()
    ensures LOCK_AFTER_PRIOR_FAILURES + 1 == DefaultSecuritySettings().maxFailedLogins
    ensures LOCK_SECONDS == DefaultSecuritySettings().lockoutDuration * 60
  {
  }

  /** A wrong password: one more failure, stamped now, and the 30-minute lock exactly when
      the count before the attempt was at least four. */
  function RecordFailure(u: User, now: int): (v: User)
    ensures v.failedLoginAttempts == u.failedLoginAttempts + 1
    ensures v.lockedUntil == (if u.failedLoginAttempts >= 4 then Some(now + 1800) else u.lockedUntil)
    ensures v.updatedAt == now
    ensures v == u.(failedLoginAttempts := v.failedLoginAttempts, lockedUntil := v.lockedUntil,
                    updatedAt := now)
    ensures LockConsistent(u) ==> LockConsistent(v)
  {
    var counted := u.(failedLoginAttempts := u.failedLoginAttempts + 1, updatedAt := now);
    if u.failedLoginAttempts >= LOCK_AFTER_PRIOR_FAILURES
    then counted.(lockedUntil := Some(now + LOCK_SECONDS))
    else counted
  }

  /** A full success: counter back to zero, lock cleared, last login stamped. */
  function RecordSuccess(u: User, now: int): (v: User)
    ensures v.failedLoginAttempts == 0 && v.lockedUntil == None && v.lastLogin == Some(now)
    ensures v == u.(failedLoginAttempts := 0, lockedUntil := None, lastLogin := Some(now),
                    updatedAt := now)
    ensures WellFormedUser(u) ==> WellFormedUser(v)
    ensures forall t :: !IsLocked(v, t)
  {
    u.(failedLoginAttempts := 0, lastLogin := Some(now), lockedUntil := None, updatedAt := now)
  }

  /** The claims of an access token: subject id, username, role. */
  function TokenClaims(u: User): map<string, string>
  {
    map["sub" := u.id, "username" := u.username, "role" := RoleName(u.role)]
  }

  /** A security log entry; WARNING exactly for event types naming UNAUTHORIZED. */
  function SecurityEvent(userId: string, ip: Option<string>, eventType: string, message: string,
                         now: int): (e: LogEntry)
    ensures e.level == (if Contains(eventType, "UNAUTHORIZED") then WARNING else INFO)
    ensures e.source == AUTH_SERVICE && e.userId == Some(userId) && e.ipAddress == ip
    ensures e.details == Some(map["event_type" := eventType, "user_id" := userId])
  {
    LogEntry(now, if Contains(eventType, "UNAUTHORIZED") then WARNING else INFO, AUTH_SERVICE,
             message, Some(map["event_type" := eventType, "user_id" := userId]), Some(userId), ip)
  }

  /** Of the event types written, only UNAUTHORIZED_IP is logged at WARNING. */
  lemma UnauthorizedIpIsWarning()
    ensures Contains("UNAUTHORIZED_IP", "UNAUTHORIZED")
    ensures !Contains("LOGIN_SUCCESS", "UNAUTHORIZED") && !Contains("TOTP_ENABLED", "UNAUTHORIZED")
  {
    assert OccursAt("UNAUTHORIZED_IP", "UNAUTHORIZED", 0);
    forall i | 0 <= i <= 1 ensures !OccursAt("LOGIN_SUCCESS", "UNAUTHORIZED", i) {
      assert "LOGIN_SUCCESS"[i..i + 12][0] != 'U';
    }
    assert "TOTP_ENABLED"[0..12][0] != 'U';
  }

  /** A missing code and an empty code both count as no code. */
  predicate HasCode(code: Option<string>)
  {
    code.Some? && code.value != ""
  }

  // ---------------------------------------------------------------------------
  // The login gate sequence

  /** What one login attempt does: the response, the user record afterwards (None when no
      user matched), and the security events written. */
  datatype Attempt = Attempt(result: Result<TokenResponse>, record: Option<User>, events: seq<LogEntry>)

  /** The gates in source order over the record found for the username. */
  function Authenticate(found: Option<User>, login: UserLogin, ip: string, now: int, key: string,
                        gen: CodeGenerator): (a: Attempt)
    ensures a.record.Some? <==> found.Some?
    ensures a.record.Some? ==> a.record.value.id == found.value.id
                               && a.record.value.username == found.value.username
                               && a.record.value.passwordHash == found.value.passwordHash
    ensures found.Some? && WellFormedUser(found.value) ==> WellFormedUser(a.record.value)
  {
    if found.None? then Attempt(Err(INVALID_CREDENTIALS), None, [])
    else
      var u := found.value;
      if IsLocked(u, now) then Attempt(Err(ACCOUNT_LOCKED), found, [])
      else if u.passwordHash.Unparsable? then Attempt(Err(UNIDENTIFIED_HASH), found, [])
      else if !VerifyPassword(login.password, u.passwordHash) then
        Attempt(Err(INVALID_CREDENTIALS), Some(RecordFailure(u, now)), [])
      else if u.totpEnabled && !HasCode(login.totpCode) then Attempt(Err(TOTP_REQUIRED), found, [])
      else if u.totpEnabled && !VerifyTotp(u.totpSecret, login.totpCode.value, now, gen) then
        Attempt(Err(INVALID_TOTP), found, [])
      else if |u.allowedIps| > 0 && ip !in u.allowedIps then
        Attempt(Err(IP_NOT_ALLOWED), found,
                [SecurityEvent(u.id, Some(ip), "UNAUTHORIZED_IP",
                               "Login attempt from unauthorized IP: " + ip, now)])
      else
        var token := CreateAccessToken(TokenClaims(u), now, None, key);
        Attempt(Ok(TokenResponse(token, "bearer", ACCESS_TOKEN_EXPIRE_MINUTES * 60, None)),
                Some(RecordSuccess(u, now)),
                [SecurityEvent(u.id, Some(ip), "LOGIN_SUCCESS",
                               "Successful login for user: " + u.username, now)])
  }

  /** The password is right and, when 2FA is on, a valid code was given. */
  predicate CredentialsPass(u: User, login: UserLogin, now: int, gen: CodeGenerator)
  {
    && VerifyPassword(login.password, u.passwordHash)
    && (u.totpEnabled ==> HasCode(login.totpCode) && VerifyTotp(u.totpSecret, login.totpCode.value, now, gen))
  }

  /** True when every gate after the lock check lets the attempt through. */
  predicate PassesGates(u: User, login: UserLogin, ip: string, now: int, gen: CodeGenerator)
  {
    CredentialsPass(u, login, now, gen) && (|u.allowedIps| == 0 || ip in u.allowedIps)
  }

  /** An unknown username and a wrong password for an unlocked user get the same response. */
  lemma UnknownUserLooksLikeWrongPassword(u: User, unknown: UserLogin, wrong: UserLogin,
                                          ip: string, ip': string, now: int, now': int,
                                          key: string, gen: CodeGenerator)
    requires !IsLocked(u, now) && WrongPassword(wrong.password, u.passwordHash)
    ensures Authenticate(None, unknown, ip', now', key, gen).result
            == Authenticate(Some(u), wrong, ip, now, key, gen).result
            == Err(Fail(401, "Invalid credentials"))
  {
  }

  /** An active lock answers 423 before the password is looked at, even a correct one, and
      leaves the record as it was. */
  lemma LockCheckedBeforePassword(u: User, login: UserLogin, ip: string, now: int, key: string,
                                  gen: CodeGenerator)
    requires IsLocked(u, now)
    ensures var a := Authenticate(Some(u), login, ip, now, key, gen);
            a.result == Err(Fail(423, "Account is temporarily locked")) && a.record == Some(u) && a.events == []
  {
  }

  /** A wrong password (no active lock) adds exactly one failure and locks for 30 minutes
      exactly when four or more failures were already recorded. */
  lemma WrongPasswordCounts(u: User, login: UserLogin, ip: string, now: int, key: string,
                            gen: CodeGenerator)
    requires !IsLocked(u, now) && WrongPassword(login.password, u.passwordHash)
    ensures var v := Authenticate(Some(u), login, ip, now, key, gen).record.value;
            && v.failedLoginAttempts == u.failedLoginAttempts + 1
            && (v.lockedUntil == Some(now + 1800) <==> u.failedLoginAttempts >= 4 || u.lockedUntil == Some(now + 1800))
            && (u.failedLoginAttempts < 4 ==> v.lockedUntil == u.lockedUntil)
  {
  }

  /** A stored digest passlib cannot identify makes an unlocked login fail with 500 whatever
      password is sent; no failure is counted and nothing is logged. */
  lemma UnidentifiableDigestFails(u: User, login: UserLogin, ip: string, now: int, key: string,
                                  gen: CodeGenerator)
    requires !IsLocked(u, now) && u.passwordHash.Unparsable?
    ensures var a := Authenticate(Some(u), login, ip, now, key, gen);
            a.result == Err(Fail(500, "Internal Server Error")) && a.record == Some(u) && a.events == []
  {
  }

  /** The lock is cleared by a fully successful login and by nothing else; in particular an
      expired lock stays recorded through failed attempts. */
  lemma LockClearedOnlyBySuccess(u: User, login: UserLogin, ip: string, now: int, key: string,
                                 gen: CodeGenerator)
    requires u.lockedUntil.Some?
    ensures var a := Authenticate(Some(u), login, ip, now, key, gen);
            a.record.value.lockedUntil.None? <==> a.result.Ok?
  {
  }

  /** The failure counter returns to zero exactly on a successful login. */
  lemma CounterResetOnlyBySuccess(u: User, login: UserLogin, ip: string, now: int, key: string,
                                  gen: CodeGenerator)
    requires u.failedLoginAttempts > 0
    ensures var a := Authenticate(Some(u), login, ip, now, key, gen);
            a.record.value.failedLoginAttempts == 0 <==> a.result.Ok?
  {
  }

  /** With 2FA on and a correct password: no code gives 400 with the X-Require-TOTP header,
      a wrong code gives 401 "Invalid TOTP code"; neither touches the counter or the lock. */
  lemma TotpGate(u: User, login: UserLogin, ip: string, now: int, key: string, gen: CodeGenerator)
    requires !IsLocked(u, now) && VerifyPassword(login.password, u.passwordHash) && u.totpEnabled
    ensures var a := Authenticate(Some(u), login, ip, now, key, gen);
            && (!HasCode(login.totpCode) ==>
                  a.result == Err(HttpError(400, "TOTP code required", map["X-Require-TOTP" := "true"])))
            && (HasCode(login.totpCode) && !VerifyTotp(u.totpSecret, login.totpCode.value, now, gen) ==>
                  a.result == Err(Fail(401, "Invalid TOTP code")))
            && (a.result.Err? && a.result != Err(IP_NOT_ALLOWED) ==> a.record == Some(u) && a.events == [])
  {
  }

  /** A wrong TOTP code is answered differently from a wrong password, so a caller learns
      that the password was right. */
  lemma WrongTotpDistinguishable(u: User, login: UserLogin, ip: string, now: int, key: string,
                                 gen: CodeGenerator)
    requires !IsLocked(u, now) && VerifyPassword(login.password, u.passwordHash) && u.totpEnabled
    requires HasCode(login.totpCode) && !VerifyTotp(u.totpSecret, login.totpCode.value, now, gen)
    ensures Authenticate(Some(u), login, ip, now, key, gen).result != Err(INVALID_CREDENTIALS)
  {
  }

  /** The IP allow-list is consulted only once password and TOTP pass; a refused IP gets
      403, one WARNING event UNAUTHORIZED_IP, and an unchanged record. */
  lemma IpCheckedLast(u: User, login: UserLogin, ip: string, now: int, key: string, gen: CodeGenerator)
    requires !IsLocked(u, now) && |u.allowedIps| > 0 && ip !in u.allowedIps
    ensures var a := Authenticate(Some(u), login, ip, now, key, gen);
            && (a.result == Err(IP_NOT_ALLOWED) <==> CredentialsPass(u, login, now, gen))
            && (a.result == Err(IP_NOT_ALLOWED) ==>
                  a.record == Some(u) && |a.events| == 1 && a.events[0].level == WARNING
                  && a.events[0].details == Some(map["event_type" := "UNAUTHORIZED_IP", "user_id" := u.id]))
  {
    UnauthorizedIpIsWarning();
  }

  /** Success: counter zero, lock cleared, last login now, a bearer token carrying
      {sub, username, role} that expires in 3600 seconds, and one INFO LOGIN_SUCCESS event. */
  lemma SuccessfulLogin(u: User, login: UserLogin, ip: string, now: int, key: string, gen: CodeGenerator)
    requires !IsLocked(u, now) && PassesGates(u, login, ip, now, gen)
    ensures var a := Authenticate(Some(u), login, ip, now, key, gen);
            && a.result.Ok?
            && a.result.value.accessToken == Signed(map["sub" := u.id, "username" := u.username,
                                                        "role" := RoleName(u.role)], now + 3600, "HS256", key)
            && a.result.value.tokenType == "bearer" && a.result.value.expiresIn == 3600
            && a.result.value == NewTokenResponse(a.result.value.accessToken)
            && a.record == Some(RecordSuccess(u, now))
            && |a.events| == 1 && a.events[0].level == INFO
            && a.events[0].details == Some(map["event_type" := "LOGIN_SUCCESS", "user_id" := u.id])
  {
    UnauthorizedIpIsWarning();
  }

  /** The token a login issues identifies that user to the bearer dependency until it
      expires one hour later. */
  lemma LoginTokenAuthenticates(users: seq<User>, i: nat, login: UserLogin, ip: string, now: int,
                                later: int, key: string, gen: CodeGenerator)
    requires UniqueUsers(users) && i < |users|
    requires Authenticate(Some(users[i]), login, ip, now, key, gen).result.Ok?
    requires now <= later
    ensures var a := Authenticate(Some(users[i]), login, ip, now, key, gen);
            var after := users[i := a.record.value];
            GetCurrentUser(after, a.result.value.accessToken, key, later)
              == if later < now + 3600 then Ok(after[i]) else Err(TOKEN_EXPIRED)
  {
    var a := Authenticate(Some(users[i]), login, ip, now, key, gen);
    var after := users[i := a.record.value];
    assert UniqueUsers(after);
    UpdateByIdReachesFound(after, i);
  }

  // ---------------------------------------------------------------------------
  // Repeated attempts

  datatype LoginTry = LoginTry(login: UserLogin, ip: string, now: int)

  /** The record after a sequence of attempts against it, in order. */
  function Replay(u: User, tries: seq<LoginTry>, key: string, gen: CodeGenerator): User
    decreases |tries|
  {
    if tries == [] then u
    else
      var a := Authenticate(Some(u), tries[0].login, tries[0].ip, tries[0].now, key, gen);
      Replay(a.record.value, tries[1..], key, gen)
  }

  /** Consecutive wrong passwords from an unlocked record count one each and lock the
      account, until 30 minutes after the last, exactly at the fifth recorded failure. */
  lemma {:induction false} ConsecutiveFailures(u: User, tries: seq<LoginTry>, key: string,
                                               gen: CodeGenerator)
    requires u.lockedUntil == None && u.failedLoginAttempts + |tries| <= 5
    requires forall k :: 0 <= k < |tries| ==> WrongPassword(tries[k].login.password, u.passwordHash)
    ensures var v := Replay(u, tries, key, gen);
            && v.failedLoginAttempts == u.failedLoginAttempts + |tries|
            && v.passwordHash == u.passwordHash
            && v.lockedUntil == (if |tries| > 0 && u.failedLoginAttempts + |tries| == 5
                                 then Some(tries[|tries| - 1].now + 1800) else None)
    decreases |tries|
  {
    if tries != [] {
      var a := Authenticate(Some(u), tries[0].login, tries[0].ip, tries[0].now, key, gen);
      var v := a.record.value;
      assert v == RecordFailure(u, tries[0].now);
      if |tries| == 1 {
        assert tries[1..] == [];
      } else {
        assert v.lockedUntil == None;
        assert forall k :: 0 <= k < |tries[1..]| ==> tries[1..][k] == tries[k + 1];
        ConsecutiveFailures(v, tries[1..], key, gen);
        assert tries[1..][|tries[1..]| - 1] == tries[|tries| - 1];
      }
    }
  }

  /** Five wrong passwords from a fresh record lock it until 30 minutes after the fifth. */
  lemma FiveFailuresLock(u: User, tries: seq<LoginTry>, key: string, gen: CodeGenerator)
    requires u.lockedUntil == None && u.failedLoginAttempts == 0 && |tries| == 5
    requires forall k :: 0 <= k < 5 ==> WrongPassword(tries[k].login.password, u.passwordHash)
    ensures var v := Replay(u, tries, key, gen);
            v.failedLoginAttempts == 5 && v.lockedUntil == Some(tries[4].now + 1800)
            && IsLocked(v, tries[4].now + 1799) && !IsLocked(v, tries[4].now + 1800)
  {
    ConsecutiveFailures(u, tries, key, gen);
  }

  /** Four recorded failures, then a fifth wrong password: locked for 30 minutes; the right
      password one second later is refused with 423 and counts nothing; the same request
      once the 30 minutes are over succeeds and resets the counter and the lock. */
  lemma LockoutScenario(u: User, wrong: UserLogin, right: UserLogin, ip: string, t: int,
                        key: string, gen: CodeGenerator)
    requires u.failedLoginAttempts == 4 && !IsLocked(u, t)
    requires WrongPassword(wrong.password, u.passwordHash)
    requires PassesGates(u, right, ip, t + 1800, gen)
    ensures var locked := Authenticate(Some(u), wrong, ip, t, key, gen).record.value;
            var early := Authenticate(Some(locked), right, ip, t + 1, key, gen);
            var late := Authenticate(Some(locked), right, ip, t + 1800, key, gen);
            && locked.lockedUntil == Some(t + 1800) && locked.failedLoginAttempts == 5
            && early.result == Err(ACCOUNT_LOCKED) && early.record == Some(locked)
            && late.result.Ok?
            && late.record.value.failedLoginAttempts == 0 && late.record.value.lockedUntil == None
  {
    var locked := Authenticate(Some(u), wrong, ip, t, key, gen).record.value;
    assert locked == RecordFailure(u, t);
    assert PassesGates(locked, right, ip, t + 1800, gen);
  }

  // ---------------------------------------------------------------------------
  // Two-factor enrollment, as changes of one record

  /** A secret as pyotp.random_base32 produces it: 32 characters of the RFC 4648 base32
      alphabet. */
  predicate IsGeneratedSecret(secret: string)
  {
    |secret| == 32 && forall i :: 0 <= i < |secret| ==> 'A' <= secret[i] <= 'Z' || '2' <= secret[i] <= '7'
  }

  /** setup_totp's change: the pending secret is stored, the enabled flag is left alone. */
  function StoreSecret(u: User, secret: string, now: int): (v: User)
    requires IsGeneratedSecret(secret)
    ensures v.totpSecret == Some(secret) && v.totpEnabled == u.totpEnabled
    ensures v == u.(totpSecret := Some(secret), updatedAt := now)
    ensures WellFormedUser(u) ==> WellFormedUser(v)
  {
    u.(totpSecret := Some(secret), updatedAt := now)
  }

  /** enable_totp's decision for the record found by id: 400 "TOTP not setup" without a
      user or a secret, 400 "Invalid TOTP code" for a wrong code, else the record with 2FA on. */
  function EnableTotpOutcome(found: Option<User>, code: string, now: int, gen: CodeGenerator): (r: Result<User>)
    ensures found.None? || found.value.totpSecret.None? || found.value.totpSecret == Some("")
            ==> r == Err(Fail(400, "TOTP not setup"))
    ensures found.Some? && found.value.totpSecret.Some? && found.value.totpSecret.value != "" ==>
              && (VerifyTotp(found.value.totpSecret, code, now, gen) ==>
                    r == Ok(found.value.(totpEnabled := true, updatedAt := now)))
              && (!VerifyTotp(found.value.totpSecret, code, now, gen) ==>
                    r == Err(Fail(400, "Invalid TOTP code")))
    ensures r.Ok? ==> found.Some? && VerifyTotp(found.value.totpSecret, code, now, gen)
                      && r.value == found.value.(totpEnabled := true, updatedAt := now)
    ensures r.Ok? && WellFormedUser(found.value) ==> WellFormedUser(r.value)
    ensures r.Err? ==> r.error.status == 400
  {
    if found.None? || found.value.totpSecret.None? || found.value.totpSecret.value == "" then
      Err(Fail(400, "TOTP not setup"))
    else if !VerifyTotp(found.value.totpSecret, code, now, gen) then
      Err(Fail(400, "Invalid TOTP code"))
    else
      Ok(found.value.(totpEnabled := true, updatedAt := now))
  }

  /** Setup then enable with a code of the pending secret turns 2FA on with that secret, and
      from then on a login needs a code of it. */
  lemma EnrollmentTwoPhase(u: User, secret: string, t: int, now: int, gen: CodeGenerator)
    requires IsGeneratedSecret(secret) && gen(secret, TimeStep(now)) != ""
    ensures var pending := StoreSecret(u, secret, t);
            var r := EnableTotpOutcome(Some(pending), gen(secret, TimeStep(now)), now, gen);
            && pending.totpEnabled == u.totpEnabled
            && r.Ok? && r.value.totpEnabled && r.value.totpSecret == Some(secret)
  {
  }

  /** setup_totp on an account that already has 2FA on swaps the secret in force without
      asking for a code of the old one. */
  lemma SetupReplacesActiveSecret(u: User, secret: string, now: int)
    requires u.totpEnabled && IsGeneratedSecret(secret)
    ensures StoreSecret(u, secret, now).totpEnabled
    ensures StoreSecret(u, secret, now).totpSecret == Some(secret)
  {
  }

  // ---------------------------------------------------------------------------
  // The service operations over the users collection

  function FoundByName(users: seq<User>, username: string): Option<User>
  {
    match UserNamed(users, username)
    case None => None
    case Some(i) => Some(users[i])
  }

  /** The user collection invariant every operation keeps. */
  predicate AllWellFormed(users: seq<User>)
  {
    forall i :: 0 <= i < |users| ==> WellFormedUser(users[i])
  }

  /** Replacing one record by one with the same id and username keeps ids and usernames unique. */
  lemma ReplaceKeepsUnique(users: seq<User>, i: nat, v: User)
    requires UniqueUsers(users) && i < |users|
    requires v.id == users[i].id && v.username == users[i].username
    ensures UniqueUsers(users[i := v])
  {
  }

  /** create_user: refuses a taken username with 400; otherwise stores a fresh record with the
      password's bcrypt digest. `id` stands for the uuid4 the record draws. */
  method CreateUser(db: Db, id: string, username: string, email: string, password: string,
                    role: UserRole, salt: nat, now: int) returns (r: Result<User>)
    requires UniqueUsers(db.users)
    requires forall i :: 0 <= i < |db.users| ==> db.users[i].id != id
    modifies db
    ensures UserNamed(old(db.users), username).Some? ==>
              r == Err(Fail(400, "Username already exists")) && db.users == old(db.users)
    ensures UserNamed(old(db.users), username).None? ==>
              r == Ok(NewUser(id, username, email, HashPassword(password, salt), role, now))
              && db.users == old(db.users) + [r.value]
    ensures UniqueUsers(db.users)
    ensures AllWellFormed(old(db.users)) ==> AllWellFormed(db.users)
    ensures db.logs == old(db.logs) && db.sessions == old(db.sessions)
    ensures db.rdpConnections == old(db.rdpConnections)
  {
    var existing := UserNamed(db.users, username);
    if existing.Some? {
      return Err(Fail(400, "Username already exists"));
    }
    var hashed := HashPassword(password, salt);
    var user := NewUser(id, username, email, hashed, role, now);
    db.users := db.users + [user];
    r := Ok(user);
  }

  /** The bookkeeping of a wrong password: $inc of the stored counter by id, then, when the
      count read before the attempt was at least four, the lock set by id. */
  method RegisterFailure(db: Db, i: nat, now: int)
    requires UniqueUsers(db.users) && i < |db.users|
    modifies db
    ensures db.users == old(db.users)[i := RecordFailure(old(db.users)[i], now)]
    ensures db.logs == old(db.logs)
    ensures db.sessions == old(db.sessions) && db.rdpConnections == old(db.rdpConnections)
  {
    var user := db.users[i];
    UpdateByIdReachesFound(db.users, i);
    var j := UserWithId(db.users, user.id).value;
    db.users := db.users[j := db.users[j].(failedLoginAttempts := db.users[j].failedLoginAttempts + 1,
                                           updatedAt := now)];
    if user.failedLoginAttempts >= LOCK_AFTER_PRIOR_FAILURES {
      ReplaceKeepsUnique(old(db.users), i, RecordFailure(user, now));
      UpdateByIdReachesFound(db.users, i);
      var k := UserWithId(db.users, user.id).value;
      db.users := db.users[k := db.users[k].(lockedUntil := Some(now + LOCK_SECONDS))];
    }
  }

  /** authenticate_user, step by step as the source updates the store: find by username,
      check the lock, count a wrong password (then set the lock from the count read before),
      check TOTP and the IP allow-list, then reset the record and issue the token. */
  method AuthenticateUser(db: Db, login: UserLogin, ip: string, now: int, key: string,
                          gen: CodeGenerator) returns (r: Result<TokenResponse>)
    requires UniqueUsers(db.users)
    modifies db
    ensures var a := Authenticate(FoundByName(old(db.users), login.username), login, ip, now, key, gen);
            && r == a.result
            && db.users == (match UserNamed(old(db.users), login.username)
                            case None => old(db.users)
                            case Some(i) => old(db.users)[i := a.record.value])
            && db.logs == old(db.logs) + a.events
    ensures UniqueUsers(db.users)
    ensures AllWellFormed(old(db.users)) ==> AllWellFormed(db.users)
    ensures db.sessions == old(db.sessions) && db.rdpConnections == old(db.rdpConnections)
  {
    var found := UserNamed(db.users, login.username);
    if found.None? {
      return Err(INVALID_CREDENTIALS);
    }
    var i := found.value;
    var user := db.users[i];
    ghost var a := Authenticate(Some(user), login, ip, now, key, gen);

    if user.lockedUntil.Some? && user.lockedUntil.value > now {
      return Err(ACCOUNT_LOCKED);
    }

    if user.passwordHash.Unparsable? {
      return Err(UNIDENTIFIED_HASH);
    }

    UpdateByIdReachesFound(db.users, i);
    if !VerifyPassword(login.password, user.passwordHash) {
      RegisterFailure(db, i, now);
      ReplaceKeepsUnique(old(db.users), i, RecordFailure(user, now));
      return Err(INVALID_CREDENTIALS);
    }

    if user.totpEnabled {
      if login.totpCode.None? || login.totpCode.value == "" {
        return Err(TOTP_REQUIRED);
      }
      if !VerifyTotp(user.totpSecret, login.totpCode.value, now, gen) {
        return Err(INVALID_TOTP);
      }
    }

    if |user.allowedIps| > 0 && ip !in user.allowedIps {
      db.logs := db.logs + [SecurityEvent(user.id, Some(ip), "UNAUTHORIZED_IP",
                                          "Login attempt from unauthorized IP: " + ip, now)];
      return Err(IP_NOT_ALLOWED);
    }

    var j := UserWithId(db.users, user.id).value;
    db.users := db.users[j := db.users[j].(failedLoginAttempts := 0, lastLogin := Some(now),
                                           lockedUntil := None, updatedAt := now)];
    var token := CreateAccessToken(TokenClaims(user), now, None, key);
    db.logs := db.logs + [SecurityEvent(user.id, Some(ip), "LOGIN_SUCCESS",
                                        "Successful login for user: " + user.username, now)];
    r := Ok(TokenResponse(token, "bearer", ACCESS_TOKEN_EXPIRE_MINUTES * 60, None));
  }

  /** setup_totp: 404 for an unknown id; otherwise the freshly drawn secret is stored as
      pending and returned. `secret` stands for pyotp.random_base32(). */
  method SetupTotp(db: Db, userId: string, secret: string, now: int) returns (r: Result<TotpSetup>)
    requires UniqueUsers(db.users) && IsGeneratedSecret(secret)
    modifies db
    ensures UserWithId(old(db.users), userId).None? ==>
              r == Err(Fail(404, "User not found")) && db.users == old(db.users)
    ensures UserWithId(old(db.users), userId).Some? ==>
              var i := UserWithId(old(db.users), userId).value;
              r == Ok(TotpSetup(secret)) && db.users == old(db.users)[i := StoreSecret(old(db.users)[i], secret, now)]
    ensures UniqueUsers(db.users)
    ensures AllWellFormed(old(db.users)) ==> AllWellFormed(db.users)
    ensures db.logs == old(db.logs) && db.sessions == old(db.sessions)
    ensures db.rdpConnections == old(db.rdpConnections)
  {
    var found := UserWithId(db.users, userId);
    if found.None? {
      return Err(Fail(404, "User not found"));
    }
    var i := found.value;
    db.users := db.users[i := db.users[i].(totpSecret := Some(secret), updatedAt := now)];
    r := Ok(TotpSetup(secret));
  }

  /** enable_totp: the decision of EnableTotpOutcome applied to the stored record, with a
      TOTP_ENABLED event (logged without an IP) on success. */
  method EnableTotp(db: Db, userId: string, code: string, now: int, gen: CodeGenerator)
    returns (r: Result<bool>)
    requires UniqueUsers(db.users)
    modifies db
    ensures var found := UserWithId(old(db.users), userId);
            var outcome := EnableTotpOutcome(if found.Some? then Some(old(db.users)[found.value]) else None,
                                             code, now, gen);
            && (outcome.Err? ==> r == Err(outcome.error) && db.users == old(db.users) && db.logs == old(db.logs))
            && (outcome.Ok? ==>
                  && r == Ok(true) && db.users == old(db.users)[found.value := outcome.value]
                  && db.logs == old(db.logs) + [SecurityEvent(userId, None, "TOTP_ENABLED",
                                                              "TOTP enabled for user: " + outcome.value.username, now)])
    ensures UniqueUsers(db.users)
    ensures AllWellFormed(old(db.users)) ==> AllWellFormed(db.users)
    ensures db.sessions == old(db.sessions) && db.rdpConnections == old(db.rdpConnections)
  {
    var found := UserWithId(db.users, userId);
    if found.None? || db.users[found.value].totpSecret.None? || db.users[found.value].totpSecret.value == "" {
      return Err(Fail(400, "TOTP not setup"));
    }
    var user := db.users[found.value];
    if !VerifyTotp(user.totpSecret, code, now, gen) {
      return Err(Fail(400, "Invalid TOTP code"));
    }
    db.users := db.users[found.value := user.(totpEnabled := true, updatedAt := now)];
    db.logs := db.logs + [SecurityEvent(userId, None, "TOTP_ENABLED",
                                        "TOTP enabled for user: " + user.username, now)];
    r := Ok(true);
  }
}
