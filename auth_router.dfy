/** backend/routers/auth_router.py: the /auth endpoints. Every endpoint but /login authenticates
    its caller through the bearer dependency (Auth.GetCurrentUser) before doing anything. */
module AuthRouter {
  import opened Outcomes
  import opened Text
  import opened Primitives
  import opened Models
  import opened Store
  import Auth

  /** The client address /login uses: the first entry of X-Forwarded-For, stripped, whenever
      that header is present (even empty); otherwise the peer address. */
  function ClientIp(peerHost: string, forwardedFor: Option<string>): (ip: string)
    ensures forwardedFor.None? ==> ip == peerHost
    ensures forwardedFor.Some? ==> ',' !in ip && (ip == [] || (!IsSpace(ip[0]) && !IsSpace(ip[|ip| - 1])))
  {
    if forwardedFor.Some? then
      var first := BeforeFirst(forwardedFor.value, ',');
      StripKeepsAbsent(first, ',');
      Strip(first)
    else peerHost
  }

  /** A header "  203.0.113.7 , 10.0.0.1" yields "203.0.113.7": the first hop, without the
      padding around it. The header is trusted as sent. */
  lemma ClientIpIsFirstHop(peerHost: string, pad1: string, hop: string, pad2: string, rest: string)
    requires AllSpace(pad1) && AllSpace(pad2)
    requires hop != [] && ',' !in hop && !IsSpace(hop[0]) && !IsSpace(hop[|hop| - 1])
    requires rest == [] || rest[0] == ','
    ensures ClientIp(peerHost, Some(pad1 + hop + pad2 + rest)) == hop
  {
    assert ',' !in pad1 + hop + pad2 by {
      forall i | 0 <= i < |pad1 + hop + pad2| ensures (pad1 + hop + pad2)[i] != ',' {
        if i < |pad1| {
          assert IsSpace(pad1[i]);
        } else if i < |pad1| + |hop| {
          assert (pad1 + hop + pad2)[i] == hop[i - |pad1|];
        } else {
          assert IsSpace(pad2[i - |pad1| - |hop|]);
        }
      }
    }
    BeforeFirstStopsAtSeparator(pad1 + hop + pad2, rest, ',');
    StripPadded(pad1, hop, pad2);
  }

  /** POST /auth/login: the login gate sequence with the client address above. */
  method Login(db: Db, login: UserLogin, peerHost: string, forwardedFor: Option<string>, now: int,
               key: string, gen: CodeGenerator) returns (r: Result<TokenResponse>)
    requires UniqueUsers(db.users)
    modifies db
    ensures var a := Auth.Authenticate(Auth.FoundByName(old(db.users), login.username), login,
                                       ClientIp(peerHost, forwardedFor), now, key, gen);
            && r == a.result
            && db.users == (match UserNamed(old(db.users), login.username)
                            case None => old(db.users)
                            case Some(i) => old(db.users)[i := a.record.value])
            && db.logs == old(db.logs) + a.events
    ensures UniqueUsers(db.users)
    ensures db.sessions == old(db.sessions) && db.rdpConnections == old(db.rdpConnections)
  {
    r := Auth.AuthenticateUser(db, login, ClientIp(peerHost, forwardedFor), now, key, gen);
  }

  /** The /me projection of a user record. */
  function UserInfo(u: User): (v: UserResponse)
    ensures v.id == u.id && v.username == u.username && v.email == u.email && v.role == u.role
    ensures v.totpEnabled == u.totpEnabled && v.allowedIps == u.allowedIps
    ensures v.failedLoginAttempts == u.failedLoginAttempts && v.lockedUntil == u.lockedUntil
    ensures v.lastLogin == u.lastLogin && v.createdAt == u.createdAt && v.updatedAt == u.updatedAt
  {
    UserResponse(u.id, u.username, u.email, u.role, u.totpEnabled, u.allowedIps, u.lastLogin,
                 u.failedLoginAttempts, u.lockedUntil, u.createdAt, u.updatedAt)
  }

  /** The /me answer reveals nothing of the password digest or the TOTP secret: records that
      differ only there give the same answer. */
  lemma UserInfoHidesSecrets(u: User, hash: PasswordHash, secret: Option<string>)
    ensures UserInfo(u) == UserInfo(u.(passwordHash := hash, totpSecret := secret))
  {
  }

  /** GET /auth/me. */
  function CurrentUserInfo(users: seq<User>, token: Jwt, key: string, now: int): (r: Result<UserResponse>)
    ensures r.Ok? <==> Auth.GetCurrentUser(users, token, key, now).Ok?
    ensures r.Ok? ==> r.value == UserInfo(Auth.GetCurrentUser(users, token, key, now).value)
    ensures r.Err? ==> r.error.status == 401
  {
    match Auth.GetCurrentUser(users, token, key, now)
    case Err(e) => Err(e)
    case Ok(u) => Ok(UserInfo(u))
  }

  /** POST /auth/setup-2fa: setup for the caller's own account. */
  method SetupTwoFactor(db: Db, token: Jwt, key: string, secret: string, now: int)
    returns (r: Result<TotpSetup>)
    requires UniqueUsers(db.users) && Auth.IsGeneratedSecret(secret)
    modifies db
    ensures var cu := Auth.GetCurrentUser(old(db.users), token, key, now);
            && (cu.Err? ==> r == Err(cu.error) && db.users == old(db.users))
            && (cu.Ok? ==> r == Ok(TotpSetup(secret))
                           && db.users == old(db.users)[UserWithId(old(db.users), cu.value.id).value
                                                         := Auth.StoreSecret(cu.value, secret, now)])
    ensures UniqueUsers(db.users)
    ensures Auth.AllWellFormed(old(db.users)) ==> Auth.AllWellFormed(db.users)
    ensures db.logs == old(db.logs) && db.sessions == old(db.sessions)
    ensures db.rdpConnections == old(db.rdpConnections)
  {
    var cu := Auth.GetCurrentUser(db.users, token, key, now);
    if cu.Err? {
      return Err(cu.error);
    }
    r := Auth.SetupTotp(db, cu.value.id, secret, now);
  }

  /** POST /auth/enable-2fa: enable for the caller's own account after checking the code. */
  method EnableTwoFactor(db: Db, token: Jwt, key: string, code: string, now: int, gen: CodeGenerator)
    returns (r: Result<SuccessResponse>)
    requires UniqueUsers(db.users)
    modifies db
    ensures var cu := Auth.GetCurrentUser(old(db.users), token, key, now);
            && (cu.Err? ==> r == Err(cu.error) && db.users == old(db.users))
            && (cu.Ok? ==>
                  var outcome := Auth.EnableTotpOutcome(Some(cu.value), code, now, gen);
                  && (outcome.Err? ==> r == Err(outcome.error) && db.users == old(db.users))
                  && (outcome.Ok? ==>
                        && r == Ok(Success("Two-factor authentication enabled successfully"))
                        && db.users == old(db.users)[UserWithId(old(db.users), cu.value.id).value := outcome.value]))
    ensures UniqueUsers(db.users)
    ensures Auth.AllWellFormed(old(db.users)) ==> Auth.AllWellFormed(db.users)
    ensures db.sessions == old(db.sessions) && db.rdpConnections == old(db.rdpConnections)
  {
    var cu := Auth.GetCurrentUser(db.users, token, key, now);
    if cu.Err? {
      return Err(cu.error);
    }
    var enabled := Auth.EnableTotp(db, cu.value.id, code, now, gen);
    if enabled.Err? {
      return Err(enabled.error);
    }
    r := Ok(Success("Two-factor authentication enabled successfully"));
  }

  /** The record change of disable-2fa: flag off, secret dropped. */
  function DisableTotp(u: User, now: int): (v: User)
    ensures !v.totpEnabled && v.totpSecret == None
    ensures v == u.(totpEnabled := false, totpSecret := None, updatedAt := now)
    ensures Auth.WellFormedUser(u) ==> Auth.WellFormedUser(v)
  {
    u.(totpEnabled := false, totpSecret := None, updatedAt := now)
  }

  /** Disabling twice is disabling once (at the later time). */
  lemma DisableIdempotent(u: User, t1: int, t2: int)
    ensures DisableTotp(DisableTotp(u, t1), t2) == DisableTotp(u, t2)
  {
  }

  /** Once disabled, the right password logs in without any code. */
  lemma DisabledLoginNeedsNoCode(u: User, login: UserLogin, ip: string, now: int, t: int,
                                 key: string, gen: CodeGenerator)
    requires !Auth.IsLocked(u, now) && Auth.VerifyPassword(login.password, u.passwordHash)
    requires |u.allowedIps| == 0 || ip in u.allowedIps
    ensures Auth.Authenticate(Some(DisableTotp(u, t)), login, ip, now, key, gen).result.Ok?
  {
  }

  /** POST /auth/disable-2fa: the caller's password must verify (401 "Invalid password"); a
      stored digest passlib cannot identify makes the check raise, which gives the 500. */
  method DisableTwoFactor(db: Db, token: Jwt, key: string, password: string, now: int)
    returns (r: Result<SuccessResponse>)
    requires UniqueUsers(db.users)
    modifies db
    ensures var cu := Auth.GetCurrentUser(old(db.users), token, key, now);
            && (cu.Err? ==> r == Err(cu.error) && db.users == old(db.users))
            && (cu.Ok? && cu.value.passwordHash.Unparsable? ==>
                  r == Err(Fail(500, "Internal Server Error")) && db.users == old(db.users))
            && (cu.Ok? && Auth.WrongPassword(password, cu.value.passwordHash) ==>
                  r == Err(Fail(401, "Invalid password")) && db.users == old(db.users))
            && (cu.Ok? && Auth.VerifyPassword(password, cu.value.passwordHash) ==>
                  && r == Ok(Success("Two-factor authentication disabled successfully"))
                  && db.users == old(db.users)[UserWithId(old(db.users), cu.value.id).value
                                                := DisableTotp(cu.value, now)])
    ensures UniqueUsers(db.users)
    ensures Auth.AllWellFormed(old(db.users)) ==> Auth.AllWellFormed(db.users)
    ensures db.logs == old(db.logs) && db.sessions == old(db.sessions)
    ensures db.rdpConnections == old(db.rdpConnections)
  {
    var cu := Auth.GetCurrentUser(db.users, token, key, now);
    if cu.Err? {
      return Err(cu.error);
    }
    var user := cu.value;
    if user.passwordHash.Unparsable? {
      return Err(Auth.UNIDENTIFIED_HASH);
    }
    if !Auth.VerifyPassword(password, user.passwordHash) {
      return Err(Fail(401, "Invalid password"));
    }
    var i := UserWithId(db.users, user.id).value;
    db.users := db.users[i := db.users[i].(totpEnabled := false, totpSecret := None, updatedAt := now)];
    r := Ok(Success("Two-factor authentication disabled successfully"));
  }

  /** The record change of change-password. */
  function SetPassword(u: User, hash: PasswordHash, now: int): (v: User)
    ensures v.passwordHash == hash && v.updatedAt == now
    ensures v == u.(passwordHash := hash, updatedAt := now)
    ensures Auth.WellFormedUser(u) ==> Auth.WellFormedUser(v)
  {
    u.(passwordHash := hash, updatedAt := now)
  }

  /** After a change the new password verifies and a different old one no longer does; the
      failure counter and lock are untouched, so a locked account stays locked. */
  lemma PasswordChangeTakesEffect(u: User, oldPassword: string, newPassword: string, salt: nat, now: int)
    requires oldPassword != newPassword
    ensures var v := SetPassword(u, Auth.HashPassword(newPassword, salt), now);
            && Auth.VerifyPassword(newPassword, v.passwordHash)
            && !Auth.VerifyPassword(oldPassword, v.passwordHash)
            && v.failedLoginAttempts == u.failedLoginAttempts && v.lockedUntil == u.lockedUntil
  {
  }

  /** POST /auth/change-password: the current password must verify (401 "Invalid current
      password"; the 500 when passlib cannot identify the stored digest); the new one is
      stored as a fresh digest. */
  method ChangePassword(db: Db, token: Jwt, key: string, currentPassword: string, newPassword: string,
                        salt: nat, now: int) returns (r: Result<SuccessResponse>)
    requires UniqueUsers(db.users)
    modifies db
    ensures var cu := Auth.GetCurrentUser(old(db.users), token, key, now);
            && (cu.Err? ==> r == Err(cu.error) && db.users == old(db.users))
            && (cu.Ok? && cu.value.passwordHash.Unparsable? ==>
                  r == Err(Fail(500, "Internal Server Error")) && db.users == old(db.users))
            && (cu.Ok? && Auth.WrongPassword(currentPassword, cu.value.passwordHash) ==>
                  r == Err(Fail(401, "Invalid current password")) && db.users == old(db.users))
            && (cu.Ok? && Auth.VerifyPassword(currentPassword, cu.value.passwordHash) ==>
                  && r == Ok(Success("Password changed successfully"))
                  && db.users == old(db.users)[UserWithId(old(db.users), cu.value.id).value
                                                := SetPassword(cu.value, Auth.HashPassword(newPassword, salt), now)])
    ensures UniqueUsers(db.users)
    ensures Auth.AllWellFormed(old(db.users)) ==> Auth.AllWellFormed(db.users)
    ensures db.logs == old(db.logs) && db.sessions == old(db.sessions)
    ensures db.rdpConnections == old(db.rdpConnections)
  {
    var cu := Auth.GetCurrentUser(db.users, token, key, now);
    if cu.Err? {
      return Err(cu.error);
    }
    var user := cu.value;
    if user.passwordHash.Unparsable? {
      return Err(Auth.UNIDENTIFIED_HASH);
    }
    if !Auth.VerifyPassword(currentPassword, user.passwordHash) {
      return Err(Fail(401, "Invalid current password"));
    }
    var digest := Auth.HashPassword(newPassword, salt);
    var i := UserWithId(db.users, user.id).value;
    db.users := db.users[i := db.users[i].(passwordHash := digest, updatedAt := now)];
    r := Ok(Success("Password changed successfully"));
  }
}
