/** Background refreshes: one at a time per query, and a pause of one interval after a failure. */
module Refresher {
  import opened Clock

  function HoldSeconds(intervalMs: int): (s: real)
    ensures s > 0.0
  {
    (if intervalMs < 1 then 1 else intervalMs) as real / 1000.0
  }

  function HoldUntil(intervalMs: int, now: Reading): Reading
  {
    Reading(now.mono + HoldSeconds(intervalMs), now.wall + HoldSeconds(intervalMs))
  }

  /** `_cooling_down`: held off while both clocks say "not yet". */
  predicate CoolingDown(until: map<string, real>, wall: map<string, real>, q: string, now: Reading)
  {
    q in until && now.mono < until[q] && (q !in wall || now.wall < wall[q])
  }

  /** What a background run came to. */
  datatype RunOutcome =
    | Skipped                      // the query is gone, or its connection is gone or paused
    | Ran                          // executed, cached and synced
    | Broke(intervalMs: int)       // raised; the interval known at that point sizes the pause

  // --- the shared state, changed under the lock ---------------------------------------

  class Pool {
    var inFlight: set<string>
    var cooldownUntil: map<string, real>
    var cooldownWall: map<string, real>

    constructor ()
      ensures inFlight == {} && cooldownUntil == map[] && cooldownWall == map[]
    {
      inFlight, cooldownUntil, cooldownWall := {}, map[], map[];
    }

    /** `request_refresh`: admitted unless one is in flight or the query is cooling down; a pool that is shut
        down turns the admission back. */
    method RequestRefresh(q: string, now: Reading, poolUp: bool) returns (started: bool)
      modifies this
      ensures started <==>
                && poolUp && q !in old(inFlight)
                && (q !in old(cooldownUntil) || old(cooldownUntil)[q] <= now.mono
                    || (q in old(cooldownWall) && old(cooldownWall)[q] <= now.wall))
      ensures started <==> q !in old(inFlight) && !CoolingDown(old(cooldownUntil), old(cooldownWall), q, now) && poolUp
      ensures inFlight == if started then old(inFlight) + {q} else old(inFlight)
      ensures cooldownUntil == old(cooldownUntil) && cooldownWall == old(cooldownWall)
    {
      if q in inFlight {
        return false;
      }
      if CoolingDown(cooldownUntil, cooldownWall, q, now) {
        return false;
      }
      inFlight := inFlight + {q};
      if poolUp {
        return true;
      }
      inFlight := inFlight - {q};
      return false;
    }

    /** `_refresh`, run alone: success forgets the pause, failure sets it, and the query leaves the flight last. */
    method Refresh(q: string, outcome: RunOutcome, now: Reading)
      modifies this
      ensures inFlight == old(inFlight) - {q}
      ensures outcome.Skipped? ==> cooldownUntil == old(cooldownUntil) && cooldownWall == old(cooldownWall)
      ensures outcome.Ran? ==> cooldownUntil == old(cooldownUntil) - {q} && cooldownWall == old(cooldownWall) - {q}
      ensures outcome.Broke? ==>
                var seconds := (if outcome.intervalMs < 1 then 1 else outcome.intervalMs) as real / 1000.0;
                && cooldownUntil == old(cooldownUntil)[q := now.mono + seconds]
                && cooldownWall == old(cooldownWall)[q := now.wall + seconds]
    {
      match outcome {
        case Skipped =>
        case Ran =>
          cooldownUntil := cooldownUntil - {q};
          cooldownWall := cooldownWall - {q};
        case Broke(intervalMs) =>
          HoldOff(q, intervalMs, now);
      }
      inFlight := inFlight - {q};
    }

    method HoldOff(q: string, intervalMs: int, now: Reading)
      modifies this`cooldownUntil, this`cooldownWall
      ensures cooldownUntil == old(cooldownUntil)[q := HoldUntil(intervalMs, now).mono]
      ensures cooldownWall == old(cooldownWall)[q := HoldUntil(intervalMs, now).wall]
    {
      var hold := HoldSeconds(intervalMs);
      cooldownUntil := cooldownUntil[q := now.mono + hold];
      cooldownWall := cooldownWall[q := now.wall + hold];
    }
  }

  // --- every interleaving ----------------------------------------------------------------

  /** Where a job stands between lock sections. `Paused` has set the cooldown and `Settled` has not;
      both have still to leave the flight. */
  datatype Phase = Queued | Running | Paused | Settled

  datatype Job = Job(query: string, phase: Phase)

  datatype State = State(
    inFlight: set<string>, until: map<string, real>, wall: map<string, real>, jobs: map<nat, Job>, next: nat)

  datatype Step =
    | Request(q: string, now: Reading)
    | SubmitFails(job: nat)
    | Start(job: nat)
    | Succeed(job: nat)
    | Skip(job: nat)
    | Fail(job: nat, intervalMs: int, now: Reading)
    | Leave(job: nat)

  const Initial := State({}, map[], map[], map[], 0)

  predicate Admits(s: State, q: string, now: Reading)
  {
    q !in s.inFlight && !CoolingDown(s.until, s.wall, q, now)
  }

  predicate At(s: State, job: nat, phase: Phase) { job in s.jobs && s.jobs[job].phase == phase }

  function Advance(s: State, job: nat, phase: Phase): State
    requires job in s.jobs
  {
    s.(jobs := s.jobs[job := s.jobs[job].(phase := phase)])
  }

  function Gone(s: State, job: nat): State
    requires job in s.jobs
  {
    s.(inFlight := s.inFlight - {s.jobs[job].query}, jobs := s.jobs - {job})
  }

  /** One lock section or one thread's move; a step whose moment has not come changes nothing. */
  function Next(s: State, step: Step): State
  {
    match step
    case Request(q, now) =>
      if Admits(s, q, now)
      then s.(inFlight := s.inFlight + {q}, jobs := s.jobs[s.next := Job(q, Queued)], next := s.next + 1)
      else s
    case SubmitFails(j) => if At(s, j, Queued) then Gone(s, j) else s
    case Start(j) => if At(s, j, Queued) then Advance(s, j, Running) else s
    case Succeed(j) =>
      if At(s, j, Running)
      then Advance(s, j, Settled).(until := s.until - {s.jobs[j].query}, wall := s.wall - {s.jobs[j].query})
      else s
    case Skip(j) => if At(s, j, Running) then Advance(s, j, Settled) else s
    case Fail(j, intervalMs, now) =>
      if At(s, j, Running)
      then
        var u := HoldUntil(intervalMs, now);
        Advance(s, j, Paused).(until := s.until[s.jobs[j].query := u.mono], wall := s.wall[s.jobs[j].query := u.wall])
      else s
    case Leave(j) => if At(s, j, Paused) || At(s, j, Settled) then Gone(s, j) else s
  }

  function Play(s: State, steps: seq<Step>): State
  {
    if steps == [] then s else Next(Play(s, steps[..|steps| - 1]), steps[|steps| - 1])
  }

  /** A job whose steps nobody interrupts does what `Pool.Refresh` does: success forgets the pause, failure sets it one
      interval ahead, a vanished query leaves it, and the query leaves the flight. */
  lemma UninterruptedRefresh(s: State, job: nat, intervalMs: int, now: Reading)
    requires At(s, job, Queued)
    ensures var q := s.jobs[job].query;
            var seconds := (if intervalMs < 1 then 1 else intervalMs) as real / 1000.0;
            var ran := Next(Next(Next(s, Start(job)), Succeed(job)), Leave(job));
            var skipped := Next(Next(Next(s, Start(job)), Skip(job)), Leave(job));
            var broke := Next(Next(Next(s, Start(job)), Fail(job, intervalMs, now)), Leave(job));
            && ran == s.(inFlight := s.inFlight - {q}, jobs := s.jobs - {job}, until := s.until - {q}, wall := s.wall - {q})
            && skipped == s.(inFlight := s.inFlight - {q}, jobs := s.jobs - {job})
            && broke == s.(inFlight := s.inFlight - {q}, jobs := s.jobs - {job},
                           until := s.until[q := now.mono + seconds], wall := s.wall[q := now.wall + seconds])
  {
    var running := Next(s, Start(job));
    assert running == Advance(s, job, Running);
    assert forall phase :: running.jobs[job := running.jobs[job].(phase := phase)] - {job} == s.jobs - {job};
  }

  /** The flight is exactly the jobs, one per query, and job numbers are not reused. */
  ghost predicate SingleFlight(s: State)
  {
    && (forall j :: j in s.jobs ==> s.jobs[j].query in s.inFlight && j < s.next)
    && (forall q :: q in s.inFlight ==> exists j :: j in s.jobs && s.jobs[j].query == q)
    && (forall i, j :: i in s.jobs && j in s.jobs && s.jobs[i].query == s.jobs[j].query ==> i == j)
  }

  lemma AdmitKeepsSingleFlight(s: State, q: string)
    requires SingleFlight(s) && q !in s.inFlight
    ensures SingleFlight(s.(inFlight := s.inFlight + {q}, jobs := s.jobs[s.next := Job(q, Queued)], next := s.next + 1))
  {
    var t := s.(inFlight := s.inFlight + {q}, jobs := s.jobs[s.next := Job(q, Queued)], next := s.next + 1);
    forall p | p in t.inFlight ensures exists j :: j in t.jobs && t.jobs[j].query == p {
      if p in s.inFlight {
        var j :| j in s.jobs && s.jobs[j].query == p;
        assert j in t.jobs && t.jobs[j].query == p;
      } else {
        assert s.next in t.jobs && t.jobs[s.next].query == p;
      }
    }
  }

  lemma AdvanceKeepsSingleFlight(s: State, job: nat, phase: Phase)
    requires SingleFlight(s) && job in s.jobs
    ensures SingleFlight(Advance(s, job, phase))
  {
    var t := Advance(s, job, phase);
    forall p | p in t.inFlight ensures exists j :: j in t.jobs && t.jobs[j].query == p {
      var j :| j in s.jobs && s.jobs[j].query == p;
      assert j in t.jobs && t.jobs[j].query == p;
    }
  }

  lemma GoneKeepsSingleFlight(s: State, job: nat)
    requires SingleFlight(s) && job in s.jobs
    ensures SingleFlight(Gone(s, job))
  {
    var t := Gone(s, job);
    forall p | p in t.inFlight ensures exists j :: j in t.jobs && t.jobs[j].query == p {
      var j :| j in s.jobs && s.jobs[j].query == p;
      assert j in t.jobs && t.jobs[j].query == p;
    }
  }

  lemma NextKeepsSingleFlight(s: State, step: Step)
    requires SingleFlight(s)
    ensures SingleFlight(Next(s, step))
  {
    match step
    case Request(q, now) => if Admits(s, q, now) { AdmitKeepsSingleFlight(s, q); }
    case SubmitFails(j) => if At(s, j, Queued) { GoneKeepsSingleFlight(s, j); }
    case Start(j) => if At(s, j, Queued) { AdvanceKeepsSingleFlight(s, j, Running); }
    case Succeed(j) => if At(s, j, Running) { AdvanceKeepsSingleFlight(s, j, Settled); }
    case Skip(j) => if At(s, j, Running) { AdvanceKeepsSingleFlight(s, j, Settled); }
    case Fail(j, _, _) => if At(s, j, Running) { AdvanceKeepsSingleFlight(s, j, Paused); }
    case Leave(j) => if At(s, j, Paused) || At(s, j, Settled) { GoneKeepsSingleFlight(s, j); }
  }

  /** In every interleaving at most one refresh of a query is queued, running or finishing. */
  lemma {:induction false} OneRefreshPerQuery(steps: seq<Step>)
    ensures SingleFlight(Play(Initial, steps))
  {
    if steps != [] {
      OneRefreshPerQuery(steps[..|steps| - 1]);
      NextKeepsSingleFlight(Play(Initial, steps[..|steps| - 1]), steps[|steps| - 1]);
    }
  }

  /** A failed query that nobody has restarted: its pause stands, and no job of it can still clear it. */
  ghost predicate HeldOff(s: State, q: string, until: Reading)
  {
    && q in s.until && q in s.wall && s.until[q] == until.mono && s.wall[q] == until.wall
    && forall j :: j in s.jobs && s.jobs[j].query == q ==> s.jobs[j].phase.Paused?
  }

  lemma FailHoldsOff(s: State, job: nat, intervalMs: int, now: Reading)
    requires SingleFlight(s) && At(s, job, Running)
    ensures HeldOff(Next(s, Fail(job, intervalMs, now)), s.jobs[job].query, HoldUntil(intervalMs, now))
  {
  }

  lemma NextKeepsHeldOff(s: State, step: Step, q: string, until: Reading)
    requires SingleFlight(s) && HeldOff(s, q, until)
    requires !(step.Request? && step.q == q && Admits(s, q, step.now))
    ensures HeldOff(Next(s, step), q, until)
  {
  }

  /** While held off there is no moment to start in, unless some clock has passed its end. */
  lemma NoGapWhileHeldOff(s: State, q: string, until: Reading, now: Reading)
    requires HeldOff(s, q, until)
    ensures q in s.inFlight || CoolingDown(s.until, s.wall, q, now) || now.mono >= until.mono || now.wall >= until.wall
    ensures Admits(s, q, now) <==> q !in s.inFlight && (now.mono >= until.mono || now.wall >= until.wall)
  {
  }

  /** The step restarts query q. */
  ghost predicate Restarts(s: State, steps: seq<Step>, k: nat, q: string)
    requires k < |steps|
  {
    steps[k].Request? && steps[k].q == q && Admits(Play(s, steps[..k]), q, steps[k].now)
  }

  /** From a failure on, and until the query is restarted, it is either still in flight or cooling down until
      exactly one interval after the failure on both clocks. */
  lemma {:induction false} HeldOffUntilRestart(s: State, steps: seq<Step>, q: string, until: Reading)
    requires SingleFlight(s) && HeldOff(s, q, until)
    requires forall k: nat :: k < |steps| ==> !Restarts(s, steps, k, q)
    ensures SingleFlight(Play(s, steps)) && HeldOff(Play(s, steps), q, until)
  {
    if steps != [] {
      var n := |steps| - 1;
      forall k: nat | k < n ensures !Restarts(s, steps[..n], k, q) {
        assert steps[..n][..k] == steps[..k];
        assert !Restarts(s, steps, k, q);
      }
      HeldOffUntilRestart(s, steps[..n], q, until);
      assert !Restarts(s, steps, n, q);
      NextKeepsSingleFlight(Play(s, steps[..n]), steps[n]);
      NextKeepsHeldOff(Play(s, steps[..n]), steps[n], q, until);
    }
  }

  /** After a failure and until it starts again, a request for the query is admitted exactly when it has left the
      flight and some clock has advanced by the interval, at least a millisecond, whatever the clocks did in between. */
  lemma RestartWaitsAnInterval(s: State, job: nat, intervalMs: int, failedAt: Reading, steps: seq<Step>, now: Reading)
    requires SingleFlight(s) && At(s, job, Running)
    requires var q := s.jobs[job].query; var failed := Next(s, Fail(job, intervalMs, failedAt));
             forall k: nat :: k < |steps| ==> !Restarts(failed, steps, k, q)
    ensures var q, t := s.jobs[job].query, Play(Next(s, Fail(job, intervalMs, failedAt)), steps);
            var waitMs := (if intervalMs < 1 then 1 else intervalMs) as real;
            Admits(t, q, now) <==>
            && q !in t.inFlight
            && ((now.mono - failedAt.mono) * 1000.0 >= waitMs || (now.wall - failedAt.wall) * 1000.0 >= waitMs)
  {
    var q, failed := s.jobs[job].query, Next(s, Fail(job, intervalMs, failedAt));
    var until := HoldUntil(intervalMs, failedAt);
    FailHoldsOff(s, job, intervalMs, failedAt);
    NextKeepsSingleFlight(s, Fail(job, intervalMs, failedAt));
    HeldOffUntilRestart(failed, steps, q, until);
    NoGapWhileHeldOff(Play(failed, steps), q, until, now);
    Milliseconds(now.mono, failedAt.mono, intervalMs);
    Milliseconds(now.wall, failedAt.wall, intervalMs);
  }

  lemma Milliseconds(now: real, start: real, intervalMs: int)
    ensures now >= start + HoldSeconds(intervalMs)
            <==> (now - start) * 1000.0 >= (if intervalMs < 1 then 1 else intervalMs) as real
  {
  }
}
