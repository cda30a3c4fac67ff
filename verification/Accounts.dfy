/** Accounts and browser sessions: credentials, lockout, session lifetimes, and the administrator's changes.
    An account is identified by its normalised address, which is unique and never changes. Times are in
    microseconds. Password checking, token digests and the configured lifetimes are parameters. */
module Accounts {
  import opened Wrappers

  const MINUTE: int := 60_000_000
  const MAX_FAILED_LOGINS: int := 5
  const LOCKOUT: int := 15 * MINUTE
  const TEMP_PASSWORD_LIFETIME: int := 72 * 60 * MINUTE

  datatype Role = Admin | Analyst

  datatype User = User(
    role: Role, isActive: bool, passwordHash: string, mustChangePassword: bool, tempPasswordExpiresAt: Option<int>,
    failedLoginCount: int, lockedUntil: Option<int>, lastLoginAt: Option<int>)

  datatype SessionRow = SessionRow(
    user: string, createdAt: int, expiresAt: int, lastSeenAt: int, ip: Option<string>, userAgent: Option<string>)

  type Users = map<string, User>
  type Sessions = map<string, SessionRow>

  datatype AuthError =
    | InvalidCredentials | AccountLocked | WeakPassword | NotAuthenticated | LastAdmin | UserNotFound | DuplicateEmail

  datatype Policy = Policy(
    verify: (string, string) -> bool,   // password, stored hash
    hash: string -> string,
    strong: string -> bool,
    digest: string -> string,           // of a session token
    absoluteLifetime: int,
    idleLifetime: int)

  // --- credentials ------------------------------------------------------------------

  predicate IsLocked(u: User, now: int) { u.lockedUntil.Some? && u.lockedUntil.value > now }

  predicate ActiveAdmin(u: User) { u.role.Admin? && u.isActive }

  /** `_is_last_active_admin`. */
  predicate SoleActiveAdmin(users: Users, id: string)
    requires id in users
  {
    ActiveAdmin(users[id]) && forall other :: other in users && other != id ==> !ActiveAdmin(users[other])
  }

  /** A wrong password is counted unless the account is locked or is the only administrator left. */
  predicate Counts(p: Policy, users: Users, id: string, password: string, now: int)
  {
    id in users && !p.verify(password, users[id].passwordHash) && !IsLocked(users[id], now) && !SoleActiveAdmin(users, id)
  }

  function Failed(u: User, now: int): User
  {
    if u.failedLoginCount + 1 >= MAX_FAILED_LOGINS
    then u.(failedLoginCount := 0, lockedUntil := Some(now + LOCKOUT))
    else u.(failedLoginCount := u.failedLoginCount + 1)
  }

  /** What the caller is told. A wrong password is told nothing about the account. */
  function AuthResult(p: Policy, users: Users, id: string, password: string, now: int): Result<(), AuthError>
  {
    if id !in users || !p.verify(password, users[id].passwordHash) then Err(InvalidCredentials)
    else if IsLocked(users[id], now) then Err(AccountLocked)
    else if !users[id].isActive then Err(InvalidCredentials)
    else if users[id].tempPasswordExpiresAt.Some? && users[id].tempPasswordExpiresAt.value <= now then Err(InvalidCredentials)
    else Ok(())
  }

  function AfterAuth(p: Policy, users: Users, id: string, password: string, now: int): Users
  {
    if AuthResult(p, users, id, password, now).Ok? then
      users[id := users[id].(failedLoginCount := 0, lockedUntil := None, lastLoginAt := Some(now))]
    else if Counts(p, users, id, password, now) then
      users[id := Failed(users[id], now)]
    else
      users
  }

  // --- sessions ----------------------------------------------------------------------

  function Purged(sessions: Sessions, now: int): Sessions
  {
    map d | d in sessions && sessions[d].expiresAt > now :: sessions[d]
  }

  function Without(sessions: Sessions, user: string): Sessions
  {
    map d | d in sessions && sessions[d].user != user :: sessions[d]
  }

  function Truncated(agent: Option<string>): Option<string>
  {
    if agent.None? || agent.value == "" then None
    else if |agent.value| > 400 then Some(agent.value[..400]) else agent
  }

  /** The live, active user behind a token. */
  function Resolves(p: Policy, users: Users, sessions: Sessions, token: string, now: int): Option<string>
  {
    var d := p.digest(token);
    if token == "" || d !in sessions then None
    else if sessions[d].expiresAt <= now || sessions[d].lastSeenAt + p.idleLifetime <= now then None
    else if sessions[d].user !in users || !users[sessions[d].user].isActive then None
    else Some(sessions[d].user)
  }

  function AfterUse(p: Policy, users: Users, sessions: Sessions, token: string, now: int): Sessions
  {
    var d := p.digest(token);
    if Resolves(p, users, sessions, token, now).Some? && d in sessions
    then sessions[d := sessions[d].(lastSeenAt := now)] else sessions
  }

  // --- whole requests ---------------------------------------------------------------------

  datatype State = State(users: Users, sessions: Sessions)

  datatype Request =
    | Login(id: string, password: string, token: string, ip: Option<string>, agent: Option<string>, now: int)
    | Use(token: string, now: int)
    | Logout(token: string)
    | ChangePassword(token: string, current: string, replacement: string, now: int)
    | CreateUser(id: string, role: Role, temporary: string, now: int)
    | UpdateUser(id: string, active: Option<bool>, newRole: Option<Role>)
    | ResetPassword(id: string, temporary: string, now: int)

  function ChangeResult(p: Policy, s: State, token: string, current: string, replacement: string, now: int): Result<(), AuthError>
  {
    var who := Resolves(p, s.users, s.sessions, token, now);
    if who.None? || who.value !in s.users then Err(NotAuthenticated)
    else if !p.verify(current, s.users[who.value].passwordHash) then Err(InvalidCredentials)
    else if p.verify(replacement, s.users[who.value].passwordHash) || !p.strong(replacement) then Err(WeakPassword)
    else Ok(())
  }

  function WithNewPassword(p: Policy, u: User, password: string): User
  {
    u.(passwordHash := p.hash(password), mustChangePassword := false, tempPasswordExpiresAt := None)
  }

  /** Refused when it would leave nobody able to administer. */
  function UpdateResult(s: State, id: string, active: Option<bool>, role: Option<Role>): Result<(), AuthError>
  {
    if id !in s.users then Err(UserNotFound)
    else if (active == Some(false) || role == Some(Analyst)) && SoleActiveAdmin(s.users, id) then Err(LastAdmin)
    else Ok(())
  }

  function WithTemporaryPassword(p: Policy, u: User, temporary: string, now: int): User
  {
    u.(passwordHash := p.hash(temporary), mustChangePassword := true,
       tempPasswordExpiresAt := Some(now + TEMP_PASSWORD_LIFETIME), failedLoginCount := 0, lockedUntil := None)
  }

  function NewUser(p: Policy, role: Role, temporary: string, now: int): User
  {
    User(role, true, p.hash(temporary), true, Some(now + TEMP_PASSWORD_LIFETIME), 0, None, None)
  }

  /** One request, start to finish. */
  function After(p: Policy, s: State, r: Request): State
  {
    match r
    case Login(id, password, token, ip, agent, now) =>
      var users := AfterAuth(p, s.users, id, password, now);
      if AuthResult(p, s.users, id, password, now).Ok?
      then State(users, Purged(s.sessions, now)
                        [p.digest(token) := SessionRow(id, now, now + p.absoluteLifetime, now, ip, Truncated(agent))])
      else s.(users := users)
    case Use(token, now) => s.(sessions := AfterUse(p, s.users, s.sessions, token, now))
    case Logout(token) => s.(sessions := s.sessions - {p.digest(token)})
    case ChangePassword(token, current, replacement, now) =>
      var used := AfterUse(p, s.users, s.sessions, token, now);
      var who := Resolves(p, s.users, s.sessions, token, now);
      var d := p.digest(token);
      if ChangeResult(p, s, token, current, replacement, now).Ok? && d in s.sessions
      then State(s.users[who.value := WithNewPassword(p, s.users[who.value], replacement)],
                 Without(used, who.value)[d := s.sessions[d].(lastSeenAt := now)])
      else s.(sessions := used)
    case CreateUser(id, role, temporary, now) =>
      if id in s.users then s else s.(users := s.users[id := NewUser(p, role, temporary, now)])
    case UpdateUser(id, active, role) =>
      if UpdateResult(s, id, active, role).Err? then s
      else
        var was := s.users[id];
        var now := was.(role := if role.Some? then role.value else was.role,
                        isActive := if active.Some? then active.value else was.isActive);
        State(s.users[id := now], if was.isActive && !now.isActive then Without(s.sessions, id) else s.sessions)
    case ResetPassword(id, temporary, now) =>
      if id !in s.users then s
      else State(s.users[id := WithTemporaryPassword(p, s.users[id], temporary, now)], Without(s.sessions, id))
  }

  // --- what each request comes to, column by column --------------------------------------------

  /** Only this account's row changed, to `u`. */
  ghost predicate OnlyAccount(was: Users, now: Users, id: string, u: User) { now == was[id := u] }

  /** Every session but this account's is as it was, and this account has none, but perhaps one under `mine`. */
  ghost predicate OthersKept(was: Sessions, now: Sessions, id: string, mine: set<string>)
  {
    && (forall d :: d in was && was[d].user != id && d !in mine ==> d in now && now[d] == was[d])
    && (forall d :: d in now && d !in mine ==> d in was && was[d].user != id)
  }

  /** Nobody else is an active administrator. */
  ghost predicate NoOtherAdmin(users: Users, id: string)
  {
    forall other :: other in users && other != id ==> !(users[other].role == Admin && users[other].isActive)
  }

  /** What a login attempt is told, and what it leaves of the account it names. */
  ghost predicate Attempted(p: Policy, was: Users, id: string, password: string, now: int, r: Result<(), AuthError>, after: Users)
  {
    if id !in was then r == Err(InvalidCredentials) && after == was
    else
      var u := was[id];
      var locked := u.lockedUntil.Some? && u.lockedUntil.value > now;
      if !p.verify(password, u.passwordHash) then
        && r == Err(InvalidCredentials)
        && if locked || (u.role == Admin && u.isActive && NoOtherAdmin(was, id)) then after == was
           else if u.failedLoginCount < 4 then OnlyAccount(was, after, id, u.(failedLoginCount := u.failedLoginCount + 1))
           else OnlyAccount(was, after, id, u.(failedLoginCount := 0, lockedUntil := Some(now + 900_000_000)))
      else if locked then r == Err(AccountLocked) && after == was
      else if !u.isActive || (u.tempPasswordExpiresAt.Some? && u.tempPasswordExpiresAt.value <= now) then
        r == Err(InvalidCredentials) && after == was
      else
        r == Ok(()) && OnlyAccount(was, after, id, u.(failedLoginCount := 0, lockedUntil := None, lastLoginAt := Some(now)))
  }

  lemma AttemptIs(p: Policy, users: Users, id: string, password: string, now: int)
    ensures Attempted(p, users, id, password, now, AuthResult(p, users, id, password, now), AfterAuth(p, users, id, password, now))
  {
    if id in users {
      var u := users[id];
      assert SoleActiveAdmin(users, id) <==> u.role == Admin && u.isActive && NoOtherAdmin(users, id);
      assert MAX_FAILED_LOGINS == 5 && LOCKOUT == 900_000_000;
    }
  }

  /** The token belongs to a stored session of an active account, within both lifetimes. */
  ghost predicate Live(p: Policy, users: Users, sessions: Sessions, token: string, now: int, id: string)
  {
    && token != "" && p.digest(token) in sessions
    && var s := sessions[p.digest(token)];
       s.user == id && now < s.expiresAt && now < s.lastSeenAt + p.idleLifetime && id in users && users[id].isActive
  }

  // --- the tables, changed in place ------------------------------------------------------------

  class Tables {
    const p: Policy
    var users: Users
    var sessions: Sessions

    constructor (p: Policy)
      ensures this.p == p && Now() == State(map[], map[])
    {
      this.p, users, sessions := p, map[], map[];
    }

    function Now(): State
      reads this
    {
      State(users, sessions)
    }

    /** `authenticate`, up to its commit. */
    method Authenticate(id: string, password: string, now: int) returns (r: Result<(), AuthError>)
      modifies this`users
      ensures r == AuthResult(p, old(users), id, password, now)
      ensures users == AfterAuth(p, old(users), id, password, now)
      ensures Attempted(p, old(users), id, password, now, r, users)
    {
      AttemptIs(p, users, id, password, now);
      if id !in users {
        return Err(InvalidCredentials);
      }
      var user := users[id];
      var locked := user.lockedUntil.Some? && user.lockedUntil.value > now;
      if !p.verify(password, user.passwordHash) {
        if !locked && !SoleActiveAdmin(users, id) {
          user := user.(failedLoginCount := user.failedLoginCount + 1);
          if user.failedLoginCount >= MAX_FAILED_LOGINS {
            user := user.(lockedUntil := Some(now + LOCKOUT), failedLoginCount := 0);
          }
          users := users[id := user];
        }
        return Err(InvalidCredentials);
      }
      if locked {
        return Err(AccountLocked);
      }
      if !user.isActive {
        return Err(InvalidCredentials);
      }
      if user.tempPasswordExpiresAt.Some? && user.tempPasswordExpiresAt.value <= now {
        return Err(InvalidCredentials);
      }
      users := users[id := user.(failedLoginCount := 0, lockedUntil := None, lastLoginAt := Some(now))];
      return Ok(());
    }

    /** The login route: authenticate, purge what has expired, open a session. */
    method SignIn(id: string, password: string, token: string, ip: Option<string>, agent: Option<string>, now: int)
      returns (r: Result<string, AuthError>)
      modifies this
      ensures Now() == After(p, old(Now()), Login(id, password, token, ip, agent, now))
      ensures r.Ok? <==> AuthResult(p, old(users), id, password, now).Ok?
      ensures r.Ok? ==> r.value == token
      ensures r.Err? ==> sessions == old(sessions)
      ensures r.Ok? ==>
                var d := p.digest(token);
                && d in sessions
                && sessions[d] == SessionRow(id, now, now + p.absoluteLifetime, now, ip,
                                             if agent.None? || agent.value == "" then None
                                             else if |agent.value| > 400 then Some(agent.value[..400]) else agent)
                && forall o :: o != d ==> (o in sessions <==> o in old(sessions) && old(sessions)[o].expiresAt > now)
                                          && (o in sessions ==> sessions[o] == old(sessions)[o])
    {
      var ok := Authenticate(id, password, now);
      if ok.Err? {
        return Err(ok.error);
      }
      sessions := Purged(sessions, now);
      sessions := sessions[p.digest(token) := SessionRow(id, now, now + p.absoluteLifetime, now, ip, Truncated(agent))];
      return Ok(token);
    }

    /** `resolve`. */
    method Resolve(token: string, now: int) returns (who: Option<string>)
      modifies this`sessions
      ensures who == Resolves(p, users, old(sessions), token, now)
      ensures forall id :: who == Some(id) <==> Live(p, users, old(sessions), token, now, id)
      ensures who.None? ==> sessions == old(sessions)
      ensures who.Some? ==> sessions == old(sessions)[p.digest(token) := old(sessions)[p.digest(token)].(lastSeenAt := now)]
      ensures Now() == After(p, old(Now()), Use(token, now))
    {
      if token == "" {
        return None;
      }
      var d := p.digest(token);
      if d !in sessions {
        return None;
      }
      var stored := sessions[d];
      if stored.expiresAt <= now {
        return None;
      }
      if stored.lastSeenAt + p.idleLifetime <= now {
        return None;
      }
      if stored.user !in users || !users[stored.user].isActive {
        return None;
      }
      sessions := sessions[d := stored.(lastSeenAt := now)];
      return Some(stored.user);
    }

    /** `revoke`. */
    method Revoke(token: string)
      modifies this`sessions
      ensures forall d :: d in sessions <==> d in old(sessions) && d != p.digest(token)
      ensures forall d :: d in sessions ==> sessions[d] == old(sessions)[d]
      ensures Now() == After(p, old(Now()), Logout(token))
    {
      sessions := sessions - {p.digest(token)};
    }

    /** The password route: resolve the caller, keep a copy of its row, change the password, revoke every session
        of the account, and put the caller's own back with its original expiry. */
    method SetPassword(token: string, current: string, replacement: string, now: int) returns (r: Result<(), AuthError>)
      modifies this
      ensures var who := Resolves(p, old(users), old(sessions), token, now);
              r == if who.None? then Err(NotAuthenticated)
                   else if !p.verify(current, old(users)[who.value].passwordHash) then Err(InvalidCredentials)
                   else if p.verify(replacement, old(users)[who.value].passwordHash) || !p.strong(replacement) then Err(WeakPassword)
                   else Ok(())
      ensures r.Err? ==> users == old(users) && sessions.Keys == old(sessions).Keys
      ensures r.Err? ==> forall d :: d in sessions && d != p.digest(token) ==> sessions[d] == old(sessions)[d]
      ensures r.Ok? ==>
                var id, d := old(sessions)[p.digest(token)].user, p.digest(token);
                && OnlyAccount(old(users), users, id,
                               old(users)[id].(passwordHash := p.hash(replacement), mustChangePassword := false,
                                               tempPasswordExpiresAt := None))
                && OthersKept(old(sessions), sessions, id, {d})
                && d in sessions && sessions[d] == old(sessions)[d].(lastSeenAt := now)
      ensures r == ChangeResult(p, old(Now()), token, current, replacement, now)
      ensures Now() == After(p, old(Now()), ChangePassword(token, current, replacement, now))
    {
      var who := Resolve(token, now);
      if who.None? {
        return Err(NotAuthenticated);
      }
      var id, mine := who.value, p.digest(token);
      var survivor := sessions[mine];
      if !p.verify(current, users[id].passwordHash) {
        return Err(InvalidCredentials);
      }
      if p.verify(replacement, users[id].passwordHash) || !p.strong(replacement) {
        return Err(WeakPassword);
      }
      users := users[id := WithNewPassword(p, users[id], replacement)];
      sessions := Without(sessions, id);
      sessions := sessions[mine := SessionRow(id, survivor.createdAt, survivor.expiresAt, now, survivor.ip, survivor.userAgent)];
      return Ok(());
    }

    method Create(id: string, role: Role, temporary: string, now: int) returns (r: Result<(), AuthError>)
      modifies this`users
      ensures r == if id in old(users) then Err(DuplicateEmail) else Ok(())
      ensures r.Err? ==> users == old(users)
      ensures r.Ok? ==> OnlyAccount(old(users), users, id,
                                    User(role, true, p.hash(temporary), true, Some(now + 72 * 3_600_000_000), 0, None, None))
      ensures Now() == After(p, old(Now()), CreateUser(id, role, temporary, now))
    {
      if id in users {
        return Err(DuplicateEmail);
      }
      users := users[id := NewUser(p, role, temporary, now)];
      return Ok(());
    }

    /** `update_user`: deactivate, reactivate, change role. Deactivating ends every session of the account. */
    method Update(id: string, active: Option<bool>, role: Option<Role>) returns (r: Result<(), AuthError>)
      modifies this
      ensures r == if id !in old(users) then Err(UserNotFound)
                   else if && (active == Some(false) || role == Some(Analyst))
                           && old(users)[id].role == Admin && old(users)[id].isActive && NoOtherAdmin(old(users), id) then Err(LastAdmin)
                   else Ok(())
      ensures r.Err? ==> users == old(users) && sessions == old(sessions)
      ensures r.Ok? ==> OnlyAccount(old(users), users, id,
                                    old(users)[id].(role := if role.Some? then role.value else old(users)[id].role,
                                                    isActive := if active.Some? then active.value else old(users)[id].isActive))
      ensures r.Ok? && active == Some(false) && old(users)[id].isActive ==> OthersKept(old(sessions), sessions, id, {})
      ensures r.Ok? && !(active == Some(false) && old(users)[id].isActive) ==> sessions == old(sessions)
      ensures r == UpdateResult(old(Now()), id, active, role)
      ensures Now() == After(p, old(Now()), UpdateUser(id, active, role))
    {
      if id !in users {
        return Err(UserNotFound);
      }
      if (active == Some(false) || role == Some(Analyst)) && SoleActiveAdmin(users, id) {
        return Err(LastAdmin);
      }
      var target := users[id];
      var changingActive := active.Some? && active.value != target.isActive;
      if role.Some? {
        target := target.(role := role.value);
      }
      if active.Some? {
        target := target.(isActive := active.value);
      }
      users := users[id := target];
      if changingActive && !target.isActive {
        sessions := Without(sessions, id);
      }
      return Ok(());
    }

    /** `reset_password`. */
    method Reset(id: string, temporary: string, now: int) returns (r: Result<(), AuthError>)
      modifies this
      ensures r == if id in old(users) then Ok(()) else Err(UserNotFound)
      ensures r.Err? ==> users == old(users) && sessions == old(sessions)
      ensures r.Ok? ==>
                && OnlyAccount(old(users), users, id,
                               old(users)[id].(passwordHash := p.hash(temporary), mustChangePassword := true,
                                               tempPasswordExpiresAt := Some(now + 72 * 3_600_000_000),
                                               failedLoginCount := 0, lockedUntil := None))
                && OthersKept(old(sessions), sessions, id, {})
      ensures Now() == After(p, old(Now()), ResetPassword(id, temporary, now))
    {
      if id !in users {
        return Err(UserNotFound);
      }
      users := users[id := WithTemporaryPassword(p, users[id], temporary, now)];
      sessions := Without(sessions, id);
      return Ok(());
    }
  }
}
