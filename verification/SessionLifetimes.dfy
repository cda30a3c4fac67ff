/** Session tokens over whole runs of requests: how long one may live, and what ends it for good. */
module SessionLifetimes {
  import opened Wrappers
  import opened Accounts

  /** When a token was issued, and to whom. */
  datatype Issue = Issue(user: string, at: int)

  /** The tables, with the history that the claims are about: every login that opened a session, and every token
      that a logout, a deactivation, a reset or a password change elsewhere has ended. */
  datatype World = World(s: State, issued: map<string, Issue>, ended: set<string>)

  function IssuedTo(issued: map<string, Issue>, user: string): set<string>
  {
    set d | d in issued && issued[d].user == user
  }

  /** The tokens a request ends. */
  function Ends(p: Policy, w: World, r: Request): set<string>
  {
    match r
    case Logout(token) => {p.digest(token)} * w.issued.Keys
    case ChangePassword(token, current, replacement, now) =>
      var who := Resolves(p, w.s.users, w.s.sessions, token, now);
      if ChangeResult(p, w.s, token, current, replacement, now).Ok? && who.Some?
      then IssuedTo(w.issued, who.value) - {p.digest(token)} else {}
    case UpdateUser(id, active, newRole) =>
      if UpdateResult(w.s, id, active, newRole).Ok? && w.s.users[id].isActive && active == Some(false)
      then IssuedTo(w.issued, id) else {}
    case ResetPassword(id, _, _) => if id in w.s.users then IssuedTo(w.issued, id) else {}
    case _ => {}
  }

  predicate OpensSession(p: Policy, w: World, r: Request)
  {
    r.Login? && AuthResult(p, w.s.users, r.id, r.password, r.now).Ok?
  }

  function Next(p: Policy, w: World, r: Request): World
  {
    World(After(p, w.s, r),
          if OpensSession(p, w, r) then w.issued[p.digest(r.token) := Issue(r.id, r.now)] else w.issued,
          w.ended + Ends(p, w, r))
  }

  /** Tokens are random: a login never draws one that was issued before. */
  ghost predicate Enabled(p: Policy, w: World, r: Request)
  {
    r.Login? ==> p.digest(r.token) !in w.issued
  }

  ghost predicate Run(p: Policy, w: World, requests: seq<Request>)
    decreases |requests|
  {
    requests == [] || (Enabled(p, w, requests[0]) && Run(p, Next(p, w, requests[0]), requests[1..]))
  }

  function Play(p: Policy, w: World, requests: seq<Request>): World
    decreases |requests|
  {
    if requests == [] then w else Play(p, Next(p, w, requests[0]), requests[1..])
  }

  /** One stored session: issued by a login, ending when that login said it would, not ended, of an active account. */
  ghost predicate SessionOk(p: Policy, w: World, d: string)
  {
    d in w.s.sessions ==>
      && d in w.issued && d !in w.ended
      && w.s.sessions[d].user == w.issued[d].user
      && w.s.sessions[d].createdAt == w.issued[d].at
      && w.s.sessions[d].expiresAt == w.issued[d].at + p.absoluteLifetime
      && w.s.sessions[d].user in w.s.users && w.s.users[w.s.sessions[d].user].isActive
  }

  ghost predicate Honest(p: Policy, w: World)
  {
    (forall d :: SessionOk(p, w, d)) && w.ended <= w.issued.Keys
  }

  lemma StepKeepsSession(p: Policy, w: World, r: Request, d: string)
    requires Honest(p, w) && Enabled(p, w, r)
    ensures SessionOk(p, Next(p, w, r), d)
  {
    assert SessionOk(p, w, d);
    match r
    case Login(_, _, _, _, _, _) =>
    case Use(token, _) => assert SessionOk(p, w, p.digest(token));
    case Logout(_) =>
    case ChangePassword(token, current, replacement, now) => ChangeKeepsSession(p, w, token, current, replacement, now, d);
    case CreateUser(_, _, _, _) =>
    case UpdateUser(_, _, _) =>
    case ResetPassword(_, _, _) =>
  }

  lemma ChangeKeepsSession(p: Policy, w: World, token: string, current: string, replacement: string, now: int, d: string)
    requires Honest(p, w)
    ensures SessionOk(p, Next(p, w, ChangePassword(token, current, replacement, now)), d)
  {
    assert SessionOk(p, w, d);
    assert SessionOk(p, w, p.digest(token));
  }

  lemma StepKeepsHonest(p: Policy, w: World, r: Request)
    requires Honest(p, w) && Enabled(p, w, r)
    ensures Honest(p, Next(p, w, r))
  {
    forall d ensures SessionOk(p, Next(p, w, r), d) {
      StepKeepsSession(p, w, r, d);
    }
  }

  lemma {:induction false} RunKeepsHonest(p: Policy, w: World, requests: seq<Request>)
    requires Honest(p, w) && Run(p, w, requests)
    ensures Honest(p, Play(p, w, requests))
    decreases |requests|
  {
    if requests != [] {
      StepKeepsHonest(p, w, requests[0]);
      RunKeepsHonest(p, Next(p, w, requests[0]), requests[1..]);
    }
  }

  const Empty := World(State(map[], map[]), map[], {})

  /** A token that resolves was issued by a login to that very account, less than the absolute lifetime ago,
      however often it was used and whatever password changes it survived. */
  lemma ResolvedWithinLifetime(p: Policy, requests: seq<Request>, token: string, now: int)
    requires Run(p, Empty, requests)
    requires var w := Play(p, Empty, requests); Resolves(p, w.s.users, w.s.sessions, token, now).Some?
    ensures var w, d := Play(p, Empty, requests), p.digest(token);
            && d in w.issued && d !in w.ended
            && Resolves(p, w.s.users, w.s.sessions, token, now) == Some(w.issued[d].user)
            && now < w.issued[d].at + p.absoluteLifetime
            && now < w.s.sessions[d].lastSeenAt + p.idleLifetime
  {
    RunKeepsHonest(p, Empty, requests);
    assert SessionOk(p, Play(p, Empty, requests), p.digest(token));
  }

  lemma {:induction false} HistoryOnlyGrows(p: Policy, w: World, requests: seq<Request>, d: string)
    requires Run(p, w, requests) && d in w.issued
    ensures d in Play(p, w, requests).issued && Play(p, w, requests).issued[d] == w.issued[d]
    ensures d in w.ended ==> d in Play(p, w, requests).ended
    decreases |requests|
  {
    if requests != [] {
      HistoryOnlyGrows(p, Next(p, w, requests[0]), requests[1..], d);
    }
  }

  /** A token that was logged out, or issued before its account was deactivated or reset, never resolves again, whatever follows,
      reactivation included. */
  lemma EndedForGood(p: Policy, w: World, r: Request, later: seq<Request>, token: string, now: int)
    requires Honest(p, w) && Enabled(p, w, r) && Run(p, Next(p, w, r), later)
    requires p.digest(token) in w.issued
    requires var id := w.issued[p.digest(token)].user;
             || (r.Logout? && r.token == token)
             || (r.ResetPassword? && r.id == id && id in w.s.users)
             || (r.UpdateUser? && r.id == id && r.active == Some(false)
                 && UpdateResult(w.s, id, r.active, r.newRole).Ok? && w.s.users[id].isActive)
    ensures var end := Play(p, Next(p, w, r), later); Resolves(p, end.s.users, end.s.sessions, token, now).None?
  {
    var next, d := Next(p, w, r), p.digest(token);
    assert d in Ends(p, w, r);
    StepKeepsHonest(p, w, r);
    HistoryOnlyGrows(p, next, later, d);
    RunKeepsHonest(p, next, later);
    assert SessionOk(p, Play(p, next, later), d);
  }

  /** Changing the password ends every other session of the account at once and for good, and leaves the caller's
      own session with the expiry its login gave it. */
  lemma PasswordChangeEndsTheOthers(p: Policy, w: World, token: string, current: string, replacement: string, at: int,
                                    later: seq<Request>, other: string, now: int)
    requires Honest(p, w)
    requires ChangeResult(p, w.s, token, current, replacement, at).Ok?
    requires Run(p, Next(p, w, ChangePassword(token, current, replacement, at)), later)
    ensures var next, d := Next(p, w, ChangePassword(token, current, replacement, at)), p.digest(token);
            var end := Play(p, next, later);
            && d in next.s.sessions && d in w.s.sessions
            && next.s.sessions[d] == w.s.sessions[d].(lastSeenAt := at)
            && (p.digest(other) != d && p.digest(other) in w.issued && w.issued[p.digest(other)].user == w.s.sessions[d].user
                ==> Resolves(p, end.s.users, end.s.sessions, other, now).None?)
  {
    var r := ChangePassword(token, current, replacement, at);
    var next, d, o := Next(p, w, r), p.digest(token), p.digest(other);
    assert SessionOk(p, w, d);
    StepKeepsHonest(p, w, r);
    if o != d && o in w.issued && w.issued[o].user == w.s.sessions[d].user {
      assert o in Ends(p, w, r);
      HistoryOnlyGrows(p, next, later, o);
      RunKeepsHonest(p, next, later);
      assert SessionOk(p, Play(p, next, later), o);
    }
  }
}
