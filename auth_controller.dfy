/** `postLogin`, `postLogout` and `getMe`: the login state machine with its lockout and
    the audit event each branch writes. */
module AuthController {
  import opened Wrappers
  import opened Text
  import opened Http
  import opened UsersModel
  import opened AuditModel
  import opened Store
  import opened Lockout

  const INVALID_CREDENTIALS := "Username atau Password salah"
  const ACCOUNT_DISABLED := "Akun Anda dinonaktifkan. Silakan hubungi Admin."
  const INACTIVE_REASON := "Akun dinonaktifkan (terkunci)."
  const WRONG_PASSWORD_REASON := "Incorrect Password Attempt"
  const LOCKED_STATUS := "LOCKED"
  const LOGIN_OK := "Login Berhasil"
  const LOGOUT_OK := "Logout Berhasil. Silakan hapus token di sisi client."
  const LOGOUT_DETAIL := "Manual logout from client"
  const SESSION_OK := "Token Valid. User sedang login."
  const ME_ENDPOINT := "/api/auth/me"
  const USERS_TABLE := "Users"
  const DEFAULT_ROLE := "viewer"

  /** The lockout message, which names the threshold. */
  function LockedMessage(): (r: string)
    ensures r == "Password salah. Akun dinonaktifkan karena 3 kali gagal login."
  {
    "Password salah. Akun dinonaktifkan karena " + NatToDecimal(MAX_FAILED_ATTEMPTS) + " kali gagal login."
  }

  /** The public part of a user in the login response: no password. */
  datatype UserSummary = UserSummary(id: nat, username: string, roleId: int)

  datatype LoginData = LoginData(token: string, user: UserSummary)

  /** The role name put in the token: the role's name lower-cased, or "viewer" when
      the role row is missing. */
  function ResolveRoleName(roles: map<int, Role>, roleId: int): (name: string)
    ensures name == "viewer" || name == "editor" || name == "admin"
    ensures roleId in roles ==> name == RoleName(roles[roleId])
    ensures roleId !in roles ==> name == DEFAULT_ROLE
  {
    if roleId in roles then Lower(RoleName(roles[roleId])) else DEFAULT_ROLE
  }

  /** `postLogin`. `verify` stands for `bcrypt.compare`, `token` for `generateToken`;
      `ip` is what `getIpAddress` found and `now` the time of the request. */
  method PostLogin(
    db: Database, username: string, password: string, ip: Option<string>, now: int,
    verify: (string, string) -> bool, token: Claims -> string)
    returns (resp: Response<LoginData>)
    requires db.Valid()
    modifies db`users, db`log
    ensures db.Valid()
    // unknown username: 401 and nothing written
    ensures FindByUsername(old(db.users), username).None? ==>
      && resp == Response(401, INVALID_CREDENTIALS, None)
      && db.users == old(db.users) && db.log == old(db.log)
    // a known username: the row becomes what the lockout policy says, and
    // exactly one audit event records the outcome
    ensures FindByUsername(old(db.users), username).Some? ==>
      var i := FindByUsername(old(db.users), username).value;
      var u := old(db.users)[i];
      var step := Attempt(u, verify(password, u.password));
      && db.users == old(db.users)[i := step.0]
      && match step.1
        case Blocked =>
          && resp == Response(403, ACCOUNT_DISABLED, None)
          && db.log == old(db.log) + [NextEntry(old(db.log), Some(u.id), LoginBlockedInactive, Some(USERS_TABLE),
                                                Some(u.id), ip, BlockedDetails(username, INACTIVE_REASON), now)]
        case Locked(n) =>
          && n == FailedCount(u) + 1 && n >= MAX_FAILED_ATTEMPTS
          && resp == Response(401, LockedMessage(), None)
          && db.log == old(db.log) + [NextEntry(old(db.log), Some(u.id), AccountLocked, Some(USERS_TABLE),
                                                Some(u.id), ip, LockedDetails(u.username, n, LOCKED_STATUS), now)]
        case Rejected(n) =>
          && n == FailedCount(u) + 1 && n < MAX_FAILED_ATTEMPTS
          && resp == Response(401, INVALID_CREDENTIALS, None)
          && db.log == old(db.log) + [NextEntry(old(db.log), Some(u.id), LoginFailed, Some(USERS_TABLE),
                                                Some(u.id), ip, FailedDetails(WRONG_PASSWORD_REASON, n), now)]
        case Accepted =>
          var role := ResolveRoleName(db.roles, u.roleId);
          && resp == Response(200, LOGIN_OK, Some(LoginData(
                       token(Claims(u.id, u.roleId, role, u.username)), UserSummary(u.id, u.username, u.roleId))))
          && db.log == old(db.log) + [NextEntry(old(db.log), Some(u.id), UserLogin, Some(USERS_TABLE),
                                                Some(u.id), ip, LoginDetails(u.username, role), now)]
    ensures AllBelowThreshold(old(db.users)) ==> AllBelowThreshold(db.users)
    ensures |old(db.log)| <= |db.log| <= |old(db.log)| + 1 && db.log[..|old(db.log)|] == old(db.log)
  {
    var found := FindByUsername(db.users, username);
    if found.None? {
      return Response(401, INVALID_CREDENTIALS, None);
    }
    resp := LoginFound(db, found.value, username, password, ip, now, verify, token);
  }

  /** `postLogin` from the point where `findOne` has found row `i`. */
  method LoginFound(
    db: Database, i: nat, username: string, password: string, ip: Option<string>, now: int,
    verify: (string, string) -> bool, token: Claims -> string)
    returns (resp: Response<LoginData>)
    requires db.Valid() && i < |db.users| && db.users[i].username == username
    modifies db`users, db`log
    ensures db.Valid()
    ensures
      var u := old(db.users)[i];
      var step := Attempt(u, verify(password, u.password));
      && db.users == old(db.users)[i := step.0]
      && match step.1
        case Blocked =>
          && resp == Response(403, ACCOUNT_DISABLED, None)
          && db.log == old(db.log) + [NextEntry(old(db.log), Some(u.id), LoginBlockedInactive, Some(USERS_TABLE),
                                                Some(u.id), ip, BlockedDetails(username, INACTIVE_REASON), now)]
        case Locked(n) =>
          && n == FailedCount(u) + 1 && n >= MAX_FAILED_ATTEMPTS
          && resp == Response(401, LockedMessage(), None)
          && db.log == old(db.log) + [NextEntry(old(db.log), Some(u.id), AccountLocked, Some(USERS_TABLE),
                                                Some(u.id), ip, LockedDetails(u.username, n, LOCKED_STATUS), now)]
        case Rejected(n) =>
          && n == FailedCount(u) + 1 && n < MAX_FAILED_ATTEMPTS
          && resp == Response(401, INVALID_CREDENTIALS, None)
          && db.log == old(db.log) + [NextEntry(old(db.log), Some(u.id), LoginFailed, Some(USERS_TABLE),
                                                Some(u.id), ip, FailedDetails(WRONG_PASSWORD_REASON, n), now)]
        case Accepted =>
          var role := ResolveRoleName(db.roles, u.roleId);
          && resp == Response(200, LOGIN_OK, Some(LoginData(
                       token(Claims(u.id, u.roleId, role, u.username)), UserSummary(u.id, u.username, u.roleId))))
          && db.log == old(db.log) + [NextEntry(old(db.log), Some(u.id), UserLogin, Some(USERS_TABLE),
                                                Some(u.id), ip, LoginDetails(u.username, role), now)]
    ensures AllBelowThreshold(old(db.users)) ==> AllBelowThreshold(db.users)
    ensures |old(db.log)| <= |db.log| <= |old(db.log)| + 1 && db.log[..|old(db.log)|] == old(db.log)
  {
    var user := db.users[i];
    ghost var u := user;
    ghost var step := Attempt(u, verify(password, u.password));
    if AllBelowThreshold(db.users) {
      AttemptKeepsBelowThreshold(u, verify(password, u.password));
    }

    if !user.isActive {
      assert step == (u, Blocked);
      assert db.users[i := u] == db.users;
      db.CreateAuditLog(Some(user.id), LoginBlockedInactive, Some(USERS_TABLE), Some(user.id), ip,
                        BlockedDetails(username, INACTIVE_REASON), now);
      return Response(403, ACCOUNT_DISABLED, None);
    }

    var isMatch := verify(password, user.password);
    if !isMatch {
      user := user.(failedAttemptCount := Some(FailedCount(user) + 1));
      var attemptCount := FailedCount(user);
      if attemptCount >= MAX_FAILED_ATTEMPTS {
        user := user.(isActive := false);
        assert step == (user, Locked(attemptCount));
        db.CreateAuditLog(Some(user.id), AccountLocked, Some(USERS_TABLE), Some(user.id), ip,
                          LockedDetails(user.username, attemptCount, LOCKED_STATUS), now);
        db.Save(i, user);
        return Response(401, LockedMessage(), None);
      }
      assert step == (user, Rejected(attemptCount));
      db.Save(i, user);
      db.CreateAuditLog(Some(user.id), LoginFailed, Some(USERS_TABLE), Some(user.id), ip,
                        FailedDetails(WRONG_PASSWORD_REASON, attemptCount), now);
      return Response(401, INVALID_CREDENTIALS, None);
    }

    if FailedCount(user) > 0 {
      user := user.(failedAttemptCount := Some(0));
      db.Save(i, user);
    } else {
      assert db.users[i := user] == db.users;
    }
    assert step == (user, Accepted);
    var roleName := ResolveRoleName(db.roles, user.roleId);
    var jwt := token(Claims(user.id, user.roleId, roleName, user.username));
    db.CreateAuditLog(Some(user.id), UserLogin, Some(USERS_TABLE), Some(user.id), ip,
                      LoginDetails(user.username, roleName), now);
    resp := Response(200, LOGIN_OK, Some(LoginData(jwt, UserSummary(user.id, user.username, user.roleId))));
  }

  /** `postLogout`: always succeeds; writes `USER_LOGOUT` only for a nonzero caller id. */
  method PostLogout(db: Database, caller: Option<Claims>, ip: Option<string>, now: int)
    returns (resp: Response<()>)
    requires db.Valid()
    modifies db`log
    ensures db.Valid()
    ensures resp == Response(200, LOGOUT_OK, None)
    ensures var userId := if caller.Some? then caller.value.id else 0;
      db.log == if userId != 0
                then old(db.log) + [NextEntry(old(db.log), Some(userId), UserLogout, None, None, ip,
                                              LogoutDetails(LOGOUT_DETAIL), now)]
                else old(db.log)
  {
    var userId := if caller.Some? then caller.value.id else 0;
    if userId != 0 {
      db.CreateAuditLog(Some(userId), UserLogout, None, None, ip, LogoutDetails(LOGOUT_DETAIL), now);
    }
    resp := Response(200, LOGOUT_OK, None);
  }

  /** `getMe`: echoes the caller's claims and writes one `SESSION_CHECK`. */
  method GetMe(db: Database, caller: Claims, ip: Option<string>, now: int)
    returns (resp: Response<Claims>)
    requires db.Valid()
    modifies db`log
    ensures db.Valid()
    ensures resp == Response(200, SESSION_OK, Some(caller))
    ensures db.log == old(db.log) + [NextEntry(old(db.log), Some(caller.id), SessionCheck, Some(USERS_TABLE),
                                               Some(caller.id), ip, EndpointDetails(ME_ENDPOINT), now)]
  {
    db.CreateAuditLog(Some(caller.id), SessionCheck, Some(USERS_TABLE), Some(caller.id), ip,
                      EndpointDetails(ME_ENDPOINT), now);
    resp := Response(200, SESSION_OK, Some(caller));
  }

  /** Three wrong passwords on a new active account: the first two are plain failures,
      the third locks the account, and a fourth attempt is refused as disabled even
      with the right password. */
  method LockoutScenario(
    verify: (string, string) -> bool, token: Claims -> string, hash: string, good: string, bad: string)
    returns (first: Response<LoginData>, second: Response<LoginData>,
             third: Response<LoginData>, fourth: Response<LoginData>)
    requires verify(good, hash) && !verify(bad, hash)
    ensures first == Response(401, INVALID_CREDENTIALS, None) && second == first
    ensures third == Response(401, LockedMessage(), None)
    ensures fourth == Response(403, ACCOUNT_DISABLED, None)
  {
    var db := new Database(map[1 := Viewer]);
    var u := db.Create("alice", hash, 1, true);
    first := PostLogin(db, "alice", bad, None, 1, verify, token);
    assert db.users == [User(1, "alice", hash, 1, true, Some(1))];
    second := PostLogin(db, "alice", bad, None, 2, verify, token);
    assert db.users == [User(1, "alice", hash, 1, true, Some(2))];
    third := PostLogin(db, "alice", bad, None, 3, verify, token);
    assert db.users == [User(1, "alice", hash, 1, false, Some(3))];
    fourth := PostLogin(db, "alice", good, None, 4, verify, token);
  }

  /** One below the threshold, the right password still logs in, and the account
      comes out active with its count reset to zero. */
  method RecoveryScenario(
    verify: (string, string) -> bool, token: Claims -> string, hash: string, good: string, bad: string)
    returns (resp: Response<LoginData>, after: User)
    requires verify(good, hash) && !verify(bad, hash)
    ensures resp.status == 200 && resp.data.Some? && resp.data.value.user.username == "alice"
    ensures after.isActive && after.failedAttemptCount == Some(0)
  {
    var db := new Database(map[]);
    var u := db.Create("alice", hash, 7, true);
    var r := PostLogin(db, "alice", bad, None, 1, verify, token);
    assert db.users == [User(1, "alice", hash, 7, true, Some(1))];
    r := PostLogin(db, "alice", bad, None, 2, verify, token);
    assert db.users == [User(1, "alice", hash, 7, true, Some(2))];
    resp := PostLogin(db, "alice", good, None, 3, verify, token);
    after := db.users[0];
  }
}
