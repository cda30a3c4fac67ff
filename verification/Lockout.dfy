/** Failed logins and locks over whole runs of requests. */
module Lockout {
  import opened Wrappers
  import opened Accounts

  function Play(p: Policy, s: State, requests: seq<Request>): State
  {
    if requests == [] then s else After(p, Play(p, s, requests[..|requests| - 1]), requests[|requests| - 1])
  }

  const Empty := State(map[], map[])

  /** Every login of the run happens within the span. */
  ghost predicate Within(requests: seq<Request>, from: int, to: int)
  {
    forall i :: 0 <= i < |requests| && requests[i].Login? ==> from <= requests[i].now <= to
  }

  // --- what one request does to one account -------------------------------------------

  predicate Counted(p: Policy, s: State, r: Request, id: string)
  {
    r.Login? && r.id == id && Counts(p, s.users, id, r.password, r.now)
  }

  predicate StartsLock(p: Policy, s: State, r: Request, id: string)
  {
    Counted(p, s, r, id) && s.users[id].failedLoginCount + 1 >= MAX_FAILED_LOGINS
  }

  /** A successful login or an administrator's reset. */
  predicate Clears(p: Policy, s: State, r: Request, id: string)
  {
    || (r.Login? && r.id == id && AuthResult(p, s.users, id, r.password, r.now).Ok?)
    || (r.ResetPassword? && r.id == id)
  }

  /** The counter and the lock move only by a counted failure or a clearing. */
  lemma OneStep(p: Policy, s: State, r: Request, id: string)
    requires id in s.users && !Clears(p, s, r, id)
    ensures id in After(p, s, r).users
    ensures var u, v := s.users[id], After(p, s, r).users[id];
            && v.failedLoginCount == (if StartsLock(p, s, r, id) then 0
                                      else if Counted(p, s, r, id) then u.failedLoginCount + 1 else u.failedLoginCount)
            && v.lockedUntil == (if StartsLock(p, s, r, id) then Some(r.now + LOCKOUT) else u.lockedUntil)
  {
  }

  /** A lock still running when a request arrives is left exactly where it is, unless an administrator resets. */
  lemma LiveLockIsNotMoved(p: Policy, s: State, r: Request, id: string)
    requires id in s.users && s.users[id].lockedUntil.Some?
    requires r.Login? ==> IsLocked(s.users[id], r.now)
    requires !(r.ResetPassword? && r.id == id)
    ensures id in After(p, s, r).users && After(p, s, r).users[id].lockedUntil == s.users[id].lockedUntil
  {
  }

  /** No request locks the only administrator left. */
  lemma SoleAdminIsNeverLocked(p: Policy, s: State, r: Request, id: string)
    requires id in s.users && SoleActiveAdmin(s.users, id)
    ensures id in After(p, s, r).users
    ensures var after := After(p, s, r).users[id].lockedUntil; after.None? || after == s.users[id].lockedUntil
  {
  }

  // --- the only administrator, found locked ------------------------------------------------

  /** At moment t nobody else can administer, and the one who could is locked out. */
  ghost predicate FoundLocked(s: State, id: string, t: int)
  {
    id in s.users && SoleActiveAdmin(s.users, id) && IsLocked(s.users[id], t)
  }

  /** What an accepted update would leave of an account. */
  function Updated(u: User, active: Option<bool>, newRole: Option<Role>): User
  {
    u.(role := if newRole.Some? then newRole.value else u.role,
       isActive := if active.Some? then active.value else u.isActive)
  }

  /** An administrator's update that turns a locked account into the only administrator left: it takes the last
      colleague away, or makes the locked account an administrator when there is no other. */
  ghost predicate Exposes(s: State, r: Request, id: string, t: int)
  {
    && r.UpdateUser? && id in s.users && r.id in s.users && IsLocked(s.users[id], t)
    && (forall other :: other in s.users && other != id && other != r.id ==> !ActiveAdmin(s.users[other]))
    && if r.id != id
       then ActiveAdmin(s.users[id]) && (r.active == Some(false) || r.newRole == Some(Analyst))
       else !ActiveAdmin(s.users[id]) && ActiveAdmin(Updated(s.users[id], r.active, r.newRole))
  }

  /** A login never exposes anyone: it moves no role and no activity, and does not lock the only administrator. */
  lemma LoginsExposeNobody(p: Policy, s: State, r: Request, id: string, t: int)
    requires !FoundLocked(s, id, t) && r.Login?
    ensures !FoundLocked(After(p, s, r), id, t)
  {
    var u, v := s.users, After(p, s, r).users;
    assert v.Keys == u.Keys;
    assert forall other :: other in u ==> (ActiveAdmin(v[other]) <==> ActiveAdmin(u[other]));
  }

  lemma UpdatesExpose(p: Policy, s: State, r: Request, id: string, t: int)
    requires !FoundLocked(s, id, t) && r.UpdateUser?
    ensures FoundLocked(After(p, s, r), id, t) <==> Exposes(s, r, id, t)
  {
    var u, v := s.users, After(p, s, r).users;
    assert v.Keys == u.Keys;
    assert forall other :: other in u && other != r.id ==> v[other] == u[other];
    if UpdateResult(s, r.id, r.active, r.newRole).Ok? {
      assert v[r.id] == Updated(u[r.id], r.active, r.newRole);
    }
  }

  /** One request makes the only administrator be found locked exactly when it is such an update. */
  lemma FoundLockedExactly(p: Policy, s: State, r: Request, id: string, t: int)
    requires !FoundLocked(s, id, t)
    ensures FoundLocked(After(p, s, r), id, t) <==> Exposes(s, r, id, t)
  {
    if r.Login? {
      LoginsExposeNobody(p, s, r, id, t);
    } else if r.UpdateUser? {
      UpdatesExpose(p, s, r, id, t);
    } else {
      assert forall other :: other in s.users ==>
        other in After(p, s, r).users && (ActiveAdmin(After(p, s, r).users[other]) <==> ActiveAdmin(s.users[other]));
    }
  }

  /** Over any run from empty tables, the only administrator is at some point found locked exactly when some request
      of the run was such an update, made while the lock was live. */
  lemma {:induction false} FoundLockedInRun(p: Policy, requests: seq<Request>, id: string, t: int)
    ensures (exists n :: 0 <= n <= |requests| && FoundLocked(Play(p, Empty, requests[..n]), id, t))
            <==> exists k :: 0 <= k < |requests| && Exposes(Play(p, Empty, requests[..k]), requests[k], id, t)
  {
    if n :| 0 <= n <= |requests| && FoundLocked(Play(p, Empty, requests[..n]), id, t) {
      var k := FirstExposure(p, requests, n, id, t);
    }
    if k :| 0 <= k < |requests| && Exposes(Play(p, Empty, requests[..k]), requests[k], id, t) {
      PlayOneMore(p, requests, k);
      if !FoundLocked(Play(p, Empty, requests[..k]), id, t) {
        FoundLockedExactly(p, Play(p, Empty, requests[..k]), requests[k], id, t);
        assert FoundLocked(Play(p, Empty, requests[..k + 1]), id, t);
      }
    }
  }

  lemma {:induction false} FirstExposure(p: Policy, requests: seq<Request>, n: nat, id: string, t: int) returns (k: nat)
    requires n <= |requests| && FoundLocked(Play(p, Empty, requests[..n]), id, t)
    ensures k < n && Exposes(Play(p, Empty, requests[..k]), requests[k], id, t)
  {
    assert requests[..0] == [];
    k := n - 1;
    PlayOneMore(p, requests, k);
    if FoundLocked(Play(p, Empty, requests[..k]), id, t) {
      k := FirstExposure(p, requests, k, id, t);
    } else {
      FoundLockedExactly(p, Play(p, Empty, requests[..k]), requests[k], id, t);
    }
  }

  lemma PlayOneMore(p: Policy, requests: seq<Request>, k: nat)
    requires k < |requests|
    ensures Play(p, Empty, requests[..k + 1]) == After(p, Play(p, Empty, requests[..k]), requests[k])
  {
    assert requests[..k + 1][..k] == requests[..k];
  }

  /** n wrong guesses at a new account. */
  function Guesses(id: string, wrong: string, n: nat, now: int): seq<Request>
  {
    seq(n, i => Login(id, wrong, "t", None, None, now))
  }

  lemma {:induction false} GuessesCount(p: Policy, s: State, id: string, wrong: string, n: nat, now: int)
    requires id in s.users && !p.verify(wrong, s.users[id].passwordHash) && !IsLocked(s.users[id], now)
    requires !SoleActiveAdmin(s.users, id) && s.users[id].failedLoginCount == 0 && n < MAX_FAILED_LOGINS
    ensures Play(p, s, Guesses(id, wrong, n, now)) == s.(users := s.users[id := s.users[id].(failedLoginCount := n)])
  {
    if n == 0 {
      assert s.users[id := s.users[id].(failedLoginCount := 0)] == s.users;
    } else {
      GuessesCount(p, s, id, wrong, n - 1, now);
      var all, was := Guesses(id, wrong, n, now), s.(users := s.users[id := s.users[id].(failedLoginCount := n - 1)]);
      assert all[..n - 1] == Guesses(id, wrong, n - 1, now);
      assert !SoleActiveAdmin(was.users, id) by {
        assert forall other :: other in s.users && other != id ==> was.users[other] == s.users[other];
      }
      OneGuess(p, was, id, wrong, now);
      assert was.users[id := was.users[id].(failedLoginCount := n)] == s.users[id := s.users[id].(failedLoginCount := n)];
    }
  }

  lemma OneGuess(p: Policy, s: State, id: string, wrong: string, now: int)
    requires id in s.users && !p.verify(wrong, s.users[id].passwordHash) && !IsLocked(s.users[id], now)
    requires !SoleActiveAdmin(s.users, id) && s.users[id].failedLoginCount + 1 < MAX_FAILED_LOGINS
    ensures After(p, s, Login(id, wrong, "t", None, None, now))
            == s.(users := s.users[id := s.users[id].(failedLoginCount := s.users[id].failedLoginCount + 1)])
  {
  }

  lemma {:induction false} PlayConcat(p: Policy, s: State, a: seq<Request>, b: seq<Request>)
    ensures Play(p, s, a + b) == Play(p, Play(p, s, a), b)
  {
    if b == [] {
      assert a + b == a;
    } else {
      PlayConcat(p, s, a, b[..|b| - 1]);
      assert (a + b)[..|a + b| - 1] == a + b[..|b| - 1];
    }
  }

  /** It does happen, from empty tables: of two administrators one is locked by five wrong guesses, and then the other
      is deactivated, which the last-administrator guard allows. */
  lemma SoleAdminCanBeFoundLocked(p: Policy, a: string, b: string, temporary: string, wrong: string, now: int)
    requires a != b && !p.verify(wrong, p.hash(temporary))
    ensures var requests := [CreateUser(a, Admin, temporary, now), CreateUser(b, Admin, temporary, now)]
                            + Guesses(a, wrong, 4, now)
                            + [Login(a, wrong, "t", None, None, now), UpdateUser(b, Some(false), None)];
            FoundLocked(Play(p, Empty, requests), a, now)
  {
    var create := [CreateUser(a, Admin, temporary, now), CreateUser(b, Admin, temporary, now)];
    var finish := [Login(a, wrong, "t", None, None, now), UpdateUser(b, Some(false), None)];
    var admin := NewUser(p, Admin, temporary, now);
    FourGuesses(p, a, b, temporary, wrong, now);
    PlayConcat(p, Empty, create + Guesses(a, wrong, 4, now), finish);
    TwoPlays(p, State(map[a := admin.(failedLoginCount := 4), b := admin], map[]), finish[0], finish[1]);
    FifthGuess(p, a, b, admin, wrong, now);
  }

  lemma FourGuesses(p: Policy, a: string, b: string, temporary: string, wrong: string, now: int)
    requires a != b && !p.verify(wrong, p.hash(temporary))
    ensures var create := [CreateUser(a, Admin, temporary, now), CreateUser(b, Admin, temporary, now)];
            var admin := NewUser(p, Admin, temporary, now);
            Play(p, Empty, create + Guesses(a, wrong, 4, now))
            == State(map[a := admin.(failedLoginCount := 4), b := admin], map[])
  {
    var create := [CreateUser(a, Admin, temporary, now), CreateUser(b, Admin, temporary, now)];
    var admin := NewUser(p, Admin, temporary, now);
    var two := State(map[a := admin, b := admin], map[]);
    TwoPlays(p, Empty, create[0], create[1]);
    assert Play(p, Empty, create) == two;
    assert ActiveAdmin(two.users[b]);
    GuessesCount(p, two, a, wrong, 4, now);
    PlayConcat(p, Empty, create, Guesses(a, wrong, 4, now));
  }

  lemma TwoPlays(p: Policy, s: State, one: Request, other: Request)
    ensures Play(p, s, [one, other]) == After(p, After(p, s, one), other)
  {
    assert [one, other][..1] == [one] && [one][..0] == [];
    assert Play(p, s, [one]) == After(p, s, one);
  }

  lemma FifthGuess(p: Policy, a: string, b: string, admin: User, wrong: string, now: int)
    requires a != b && ActiveAdmin(admin) && admin.lockedUntil.None? && !p.verify(wrong, admin.passwordHash)
    ensures var four := State(map[a := admin.(failedLoginCount := 4), b := admin], map[]);
            FoundLocked(After(p, After(p, four, Login(a, wrong, "t", None, None, now)), UpdateUser(b, Some(false), None)), a, now)
  {
    var four := State(map[a := admin.(failedLoginCount := 4), b := admin], map[]);
    var locked := After(p, four, Login(a, wrong, "t", None, None, now));
    assert ActiveAdmin(four.users[b]) && ActiveAdmin(locked.users[a]);
    assert IsLocked(locked.users[a], now);
  }

  ghost predicate SomeAdmin(s: State) { exists id :: id in s.users && ActiveAdmin(s.users[id]) }

  /** One request never removes the last active administrator. */
  lemma SomeAdminRemains(p: Policy, s: State, r: Request)
    requires SomeAdmin(s)
    ensures SomeAdmin(After(p, s, r))
  {
    var t := After(p, s, r);
    var id :| id in s.users && ActiveAdmin(s.users[id]);
    if id in t.users && ActiveAdmin(t.users[id]) {
    } else {
      assert r.UpdateUser? && r.id == id && !SoleActiveAdmin(s.users, id);
      var other :| other in s.users && other != id && ActiveAdmin(s.users[other]);
      assert t.users[other] == s.users[other];
    }
  }

  /** Once there is an active administrator there always is one. */
  lemma {:induction false} SomeAdminAlwaysRemains(p: Policy, s: State, requests: seq<Request>)
    requires SomeAdmin(s)
    ensures SomeAdmin(Play(p, s, requests))
  {
    if requests != [] {
      SomeAdminAlwaysRemains(p, s, requests[..|requests| - 1]);
      SomeAdminRemains(p, Play(p, s, requests[..|requests| - 1]), requests[|requests| - 1]);
    }
  }

  // --- whole runs ------------------------------------------------------------------------

  ghost predicate CountsInRange(s: State)
  {
    forall id :: id in s.users ==> 0 <= s.users[id].failedLoginCount < MAX_FAILED_LOGINS
  }

  lemma StepKeepsCountsInRange(p: Policy, s: State, r: Request)
    requires CountsInRange(s)
    ensures CountsInRange(After(p, s, r))
  {
  }

  /** Where runs start: no account, no failure. */
  lemma EmptyCountsInRange()
    ensures CountsInRange(Empty)
  {
  }

  /** In every reachable state fewer than five failures stand against any account. */
  lemma {:induction false} FailuresStayBelowFive(p: Policy, s: State, requests: seq<Request>)
    requires CountsInRange(s)
    ensures CountsInRange(Play(p, s, requests))
  {
    if requests != [] {
      FailuresStayBelowFive(p, s, requests[..|requests| - 1]);
      StepKeepsCountsInRange(p, Play(p, s, requests[..|requests| - 1]), requests[|requests| - 1]);
    }
  }

  function FailuresIn(p: Policy, s: State, requests: seq<Request>, id: string): nat
  {
    if requests == [] then 0
    else
      var n := |requests| - 1;
      FailuresIn(p, s, requests[..n], id) + (if Counted(p, Play(p, s, requests[..n]), requests[n], id) then 1 else 0)
  }

  function LocksIn(p: Policy, s: State, requests: seq<Request>, id: string): nat
  {
    if requests == [] then 0
    else
      var n := |requests| - 1;
      LocksIn(p, s, requests[..n], id) + (if StartsLock(p, Play(p, s, requests[..n]), requests[n], id) then 1 else 0)
  }

  /** No login succeeds and nobody resets the account. */
  ghost predicate Uncleared(p: Policy, s: State, requests: seq<Request>, id: string)
  {
    forall k: nat :: k < |requests| ==> !Clears(p, Play(p, s, requests[..k]), requests[k], id)
  }

  lemma UnclearedBefore(p: Policy, s: State, requests: seq<Request>, id: string)
    requires requests != [] && Uncleared(p, s, requests, id)
    ensures Uncleared(p, s, requests[..|requests| - 1], id)
    ensures !Clears(p, Play(p, s, requests[..|requests| - 1]), requests[|requests| - 1], id)
  {
    var front := requests[..|requests| - 1];
    forall k: nat | k < |front| ensures !Clears(p, Play(p, s, front[..k]), front[k], id) {
      assert front[..k] == requests[..k] && front[k] == requests[k];
    }
  }

  /** Failures are conserved: each lock consumes five, and the counter holds the rest. */
  lemma {:induction false} FailuresAreConserved(p: Policy, s: State, requests: seq<Request>, id: string)
    requires id in s.users && CountsInRange(s) && Uncleared(p, s, requests, id)
    ensures id in Play(p, s, requests).users
    ensures FailuresIn(p, s, requests, id)
            == MAX_FAILED_LOGINS * LocksIn(p, s, requests, id)
               + Play(p, s, requests).users[id].failedLoginCount - s.users[id].failedLoginCount
  {
    if requests != [] {
      var n := |requests| - 1;
      UnclearedBefore(p, s, requests, id);
      FailuresAreConserved(p, s, requests[..n], id);
      FailuresStayBelowFive(p, s, requests[..n]);
      OneStep(p, Play(p, s, requests[..n]), requests[n], id);
    }
  }

  /** From a lock on, the account's lock never ends earlier than that one would. */
  lemma {:induction false} LockHolds(p: Policy, s: State, requests: seq<Request>, id: string, i: nat, k: nat)
    requires id in s.users && Uncleared(p, s, requests, id) && i < k <= |requests|
    requires StartsLock(p, Play(p, s, requests[..i]), requests[i], id)
    ensures id in Play(p, s, requests[..k]).users
    ensures var until := Play(p, s, requests[..k]).users[id].lockedUntil;
            until.Some? && until.value >= requests[i].now + LOCKOUT
  {
    var t := Play(p, s, requests[..k - 1]);
    assert requests[..k][..k - 1] == requests[..k - 1];
    assert Play(p, s, requests[..k]) == After(p, t, requests[k - 1]);
    assert !Clears(p, t, requests[k - 1], id);
    if i < k - 1 {
      LockHolds(p, s, requests, id, i, k - 1);
      LockOutlasts(p, t, requests[k - 1], id, requests[i].now + LOCKOUT);
    } else {
      LockBegins(p, t, requests[i], id);
    }
  }

  lemma LockBegins(p: Policy, t: State, r: Request, id: string)
    requires StartsLock(p, t, r, id) && !Clears(p, t, r, id)
    ensures id in After(p, t, r).users && After(p, t, r).users[id].lockedUntil == Some(r.now + LOCKOUT)
  {
    OneStep(p, t, r, id);
  }

  lemma LockOutlasts(p: Policy, t: State, r: Request, id: string, end: int)
    requires id in t.users && !Clears(p, t, r, id)
    requires t.users[id].lockedUntil.Some? && t.users[id].lockedUntil.value >= end
    ensures id in After(p, t, r).users
    ensures var until := After(p, t, r).users[id].lockedUntil; until.Some? && until.value >= end
  {
    OneStep(p, t, r, id);
  }

  /** Lock starts are at least fifteen minutes apart: any two of them, in any run without a success or a reset. */
  lemma LocksAreSpaced(p: Policy, s: State, requests: seq<Request>, id: string, i: nat, j: nat)
    requires id in s.users && Uncleared(p, s, requests, id) && i < j < |requests|
    requires StartsLock(p, Play(p, s, requests[..i]), requests[i], id)
    requires StartsLock(p, Play(p, s, requests[..j]), requests[j], id)
    ensures requests[j].now >= requests[i].now + 900_000_000
  {
    LockHolds(p, s, requests, id, i, j);
  }

  /** Not before the earliest moment the n-th lock of a span from `from` can start. */
  predicate LateEnough(from: int, locks: int, now: int) { from + LOCKOUT * (locks - 1) <= now }

  lemma NextLock(p: Policy, s: State, requests: seq<Request>, id: string, from: int, locks: int, i: nat, n: nat)
    requires id in s.users && Uncleared(p, s, requests, id) && i < n < |requests|
    requires StartsLock(p, Play(p, s, requests[..i]), requests[i], id) && LateEnough(from, locks, requests[i].now)
    requires StartsLock(p, Play(p, s, requests[..n]), requests[n], id)
    ensures LateEnough(from, locks + 1, requests[n].now)
  {
    LocksAreSpaced(p, s, requests, id, i, n);
  }

  lemma FirstLock(p: Policy, s: State, requests: seq<Request>, id: string, from: int, to: int, n: nat)
    requires Within(requests, from, to) && n < |requests|
    requires StartsLock(p, s, requests[n], id)
    ensures LateEnough(from, 1, requests[n].now)
  {
  }

  /** Hence the last of n locks of a span began at least 15(n - 1) minutes into it. */
  lemma {:induction false} LastLock(p: Policy, s: State, requests: seq<Request>, id: string, from: int, to: int, m: nat)
    returns (j: nat)
    requires id in s.users && Uncleared(p, s, requests, id) && Within(requests, from, to)
    requires m <= |requests| && LocksIn(p, s, requests[..m], id) > 0
    ensures j < m && StartsLock(p, Play(p, s, requests[..j]), requests[j], id)
    ensures LateEnough(from, LocksIn(p, s, requests[..m], id), requests[j].now)
  {
    assert requests[..0] == [];
    var n := m - 1;
    LocksInOneMore(p, s, requests, id, n);
    var before, t := LocksIn(p, s, requests[..n], id), Play(p, s, requests[..n]);
    if before == 0 {
      FirstLock(p, t, requests, id, from, to, n);
      return n;
    }
    j := LastLock(p, s, requests, id, from, to, n);
    if StartsLock(p, t, requests[n], id) {
      NextLock(p, s, requests, id, from, before, j, n);
      j := n;
    }
  }

  lemma LocksInOneMore(p: Policy, s: State, requests: seq<Request>, id: string, n: nat)
    requires n < |requests|
    ensures LocksIn(p, s, requests[..n + 1], id)
            == LocksIn(p, s, requests[..n], id) + (if StartsLock(p, Play(p, s, requests[..n]), requests[n], id) then 1 else 0)
  {
    assert requests[..n + 1][..n] == requests[..n];
  }

  lemma SpanHoldsLocks(p: Policy, s: State, requests: seq<Request>, id: string, from: int, to: int)
    requires id in s.users && Uncleared(p, s, requests, id) && Within(requests, from, to) && from <= to
    ensures LocksIn(p, s, requests, id) <= (to - from) / LOCKOUT + 1
  {
    var locks := LocksIn(p, s, requests, id);
    assert requests[..|requests|] == requests;
    if locks > 0 {
      var j := LastLock(p, s, requests, id, from, to, |requests|);
      FitsInSpan(from, locks, requests[j].now, to);
    }
  }

  lemma FitsInSpan(from: int, locks: int, now: int, to: int)
    requires LateEnough(from, locks, now) && now <= to
    ensures locks <= (to - from) / LOCKOUT + 1
  {
  }

  /** Hence in any span of logins that never succeeds and is never reset, at most
      5 * (span / 15 minutes + 1) + 4 wrong passwords are ever counted. */
  lemma GuessesAreBounded(p: Policy, s: State, requests: seq<Request>, id: string, from: int, to: int)
    requires id in s.users && CountsInRange(s) && Uncleared(p, s, requests, id)
    requires from <= to && Within(requests, from, to)
    ensures FailuresIn(p, s, requests, id) <= 5 * ((to - from) / 900_000_000 + 1) + 4
  {
    FailuresAreConserved(p, s, requests, id);
    FailuresStayBelowFive(p, s, requests);
    SpanHoldsLocks(p, s, requests, id, from, to);
  }
}
