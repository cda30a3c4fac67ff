/** Running rule-bearing queries on their own interval: due times on two clocks, and backoff on failure. */
module Scheduler {
  import opened Wrappers

  /** A reading of both clocks, in milliseconds. */
  datatype Moment = Moment(mono: real, wall: real)

  const MAX_FACTOR: int := 0x1_0000

  /** What is remembered of one query: when it is next due on each clock, and its backoff factor. */
  datatype Timer = Timer(due: Option<real>, dueWall: Option<real>, factor: Option<int>)

  const Unscheduled := Timer(None, None, None)

  /** A query as a tick finds it; `pollIntervalMs` is the effective interval. */
  datatype Query = Query(id: string, hasRules: bool, pollIntervalMs: int, paused: bool)

  /** What a tick meets at one query: the clocks at the due check, the cached result still fresh at its turn
      (TTL and age), whether a run would fail, and the clocks when the turn ends. */
  datatype Turn = Turn(checkedAt: Moment, cached: Option<(int, int)>, fails: bool, doneAt: Moment)

  datatype Limits = Limits(minIntervalMs: int, maxBackoffMs: int)

  function Max(a: int, b: int): int { if a < b then b else a }
  function Min(a: int, b: int): int { if a < b then a else b }

  function IntervalFor(l: Limits, q: Query): int { Max(q.pollIntervalMs, l.minIntervalMs) }

  predicate IsDue(t: Timer, now: Moment)
  {
    (if t.due.Some? then t.due.value else 0.0) <= now.mono || (t.dueWall.Some? && t.dueWall.value <= now.wall)
  }

  function DueIn(t: Timer, now: Moment, delayMs: int): Timer
  {
    t.(due := Some(now.mono + delayMs as real), dueWall := Some(now.wall + delayMs as real))
  }

  function NextFactor(t: Timer): int
  {
    Min(Max((if t.factor.Some? then t.factor.value else 1) * 2, 2), MAX_FACTOR)
  }

  /** How long the next execution is put off by this one. */
  function DelayAfter(l: Limits, t: Timer, q: Query, fails: bool): int
  {
    if fails then Min(IntervalFor(l, q) * NextFactor(t), l.maxBackoffMs) else IntervalFor(l, q)
  }

  /** `_reschedule`. */
  function Rescheduled(l: Limits, t: Timer, q: Query, fails: bool, now: Moment): Timer
  {
    DueIn(t.(factor := if fails then Some(NextFactor(t)) else None), now, DelayAfter(l, t, q, fails))
  }

  predicate Executes(t: Timer, q: Query, turn: Turn)
  {
    q.hasRules && IsDue(t, turn.checkedAt) && turn.cached.None? && !q.paused
  }

  /** One query's part of a tick. A result still fresh puts the query off for the rest of its TTL;
      a paused connection leaves it as it was. */
  function AfterTurn(l: Limits, t: Timer, q: Query, turn: Turn): Timer
  {
    if !q.hasRules || !IsDue(t, turn.checkedAt) then t
    else if turn.cached.Some? then DueIn(t, turn.doneAt, Max(turn.cached.value.0 - turn.cached.value.1, 0))
    else if q.paused then t
    else Rescheduled(l, t, q, turn.fails, turn.doneAt)
  }

  /** The longer of the query's own interval and the configured minimum. */
  ghost predicate IsInterval(l: Limits, q: Query, ms: int)
  {
    ms >= q.pollIntervalMs && ms >= l.minIntervalMs && (ms == q.pollIntervalMs || ms == l.minIntervalMs)
  }

  /** Due on both clocks this long after `now`. */
  ghost predicate DueAfter(t: Timer, now: Moment, ms: int)
  {
    t.due == Some(now.mono + ms as real) && t.dueWall == Some(now.wall + ms as real)
  }

  ghost predicate Reached(t: Timer, now: Moment)
  {
    || (t.due.None? && now.mono >= 0.0) || (t.due.Some? && now.mono >= t.due.value)
    || (t.dueWall.Some? && now.wall >= t.dueWall.value)
  }

  /** After a success: no factor, and one interval's wait. */
  lemma RescheduledAfterSuccess(l: Limits, t: Timer, q: Query, now: Moment, ms: int)
    requires IsInterval(l, q, ms)
    ensures var t' := Rescheduled(l, t, q, false, now); t'.factor == None && DueAfter(t', now, ms)
  {
  }

  /** After a failure: the factor doubles, from 2 up to 65536, and the wait is so many intervals, up to the ceiling. */
  lemma RescheduledAfterFailure(l: Limits, t: Timer, q: Query, now: Moment, ms: int)
    requires IsInterval(l, q, ms) && (t.factor.Some? ==> 1 <= t.factor.value <= 65536)
    ensures var t' := Rescheduled(l, t, q, true, now);
            && t'.factor == Some(if t.factor.None? then 2 else if t.factor.value > 32768 then 65536 else 2 * t.factor.value)
            && DueAfter(t', now, if ms * t'.factor.value < l.maxBackoffMs then ms * t'.factor.value else l.maxBackoffMs)
  {
  }

  /** What one tick does to one query. */
  lemma TurnIs(l: Limits, t: Timer, q: Query, turn: Turn)
    ensures var t' := AfterTurn(l, t, q, turn);
            if !q.hasRules || !Reached(t, turn.checkedAt) then t' == t && !Executes(t, q, turn)
            else if turn.cached.Some? then
              var rest := turn.cached.value.0 - turn.cached.value.1;
              !Executes(t, q, turn) && t'.factor == t.factor && DueAfter(t', turn.doneAt, if rest > 0 then rest else 0)
            else if q.paused then t' == t && !Executes(t, q, turn)
            else Executes(t, q, turn) && t' == Rescheduled(l, t, q, turn.fails, turn.doneAt)
  {
  }

  ghost predicate Absent(queries: seq<Query>, id: string)
  {
    forall k :: 0 <= k < |queries| ==> queries[k].id != id
  }

  class Scheduler {
    const limits: Limits
    var nextDue: map<string, real>
    var nextDueWall: map<string, real>
    var backoff: map<string, int>

    constructor (limits: Limits)
      ensures this.limits == limits && forall q :: TimerOf(q) == Unscheduled
    {
      this.limits := limits;
      nextDue, nextDueWall, backoff := map[], map[], map[];
    }

    function TimerOf(q: string): Timer
      reads this
    {
      Timer(if q in nextDue then Some(nextDue[q]) else None,
            if q in nextDueWall then Some(nextDueWall[q]) else None,
            if q in backoff then Some(backoff[q]) else None)
    }

    method SetDueIn(q: string, now: Moment, delayMs: int)
      modifies this`nextDue, this`nextDueWall
      ensures TimerOf(q) == DueIn(old(TimerOf(q)), now, delayMs)
      ensures forall p :: p != q ==> TimerOf(p) == old(TimerOf(p))
    {
      nextDue := nextDue[q := now.mono + delayMs as real];
      nextDueWall := nextDueWall[q := now.wall + delayMs as real];
    }

    method Reschedule(q: Query, fails: bool, now: Moment)
      modifies this
      ensures TimerOf(q.id) == Rescheduled(limits, old(TimerOf(q.id)), q, fails, now)
      ensures forall p :: p != q.id ==> TimerOf(p) == old(TimerOf(p))
    {
      var base := IntervalFor(limits, q);
      var delay := base;
      if fails {
        var factor := Min(Max((if q.id in backoff then backoff[q.id] else 1) * 2, 2), MAX_FACTOR);
        backoff := backoff[q.id := factor];
        delay := Min(base * factor, limits.maxBackoffMs);
      } else {
        backoff := backoff - {q.id};
      }
      SetDueIn(q.id, now, delay);
    }

    function TimersOf(queries: seq<Query>): (ts: seq<Timer>)
      reads this
      ensures |ts| == |queries|
    {
      seq(|queries|, i requires 0 <= i < |queries| reads this => TimerOf(queries[i].id))
    }

    /** `run_due_once`: decide which queries are due, then take them one at a time, and count the runs. */
    method RunDueOnce(queries: seq<Query>, turns: seq<Turn>) returns (ran: nat)
      requires |turns| == |queries|
      requires forall i, j :: 0 <= i < j < |queries| ==> queries[i].id != queries[j].id
      modifies this
      ensures forall i :: 0 <= i < |queries| ==>
                TimerOf(queries[i].id) == AfterTurn(limits, old(TimerOf(queries[i].id)), queries[i], turns[i])
      ensures forall p :: Absent(queries, p) ==> TimerOf(p) == old(TimerOf(p))
      ensures ran == RunsAmong(old(TimersOf(queries)), queries, turns)
    {
      ghost var before := TimersOf(queries);
      var due := DueQueries(queries, turns);
      ran := 0;
      assert before[..0] == [] && queries[..0] == [] && turns[..0] == [];
      for i := 0 to |queries|
        invariant forall k :: 0 <= k < i ==> TimerOf(queries[k].id) == AfterTurn(limits, before[k], queries[k], turns[k])
        invariant forall k :: i <= k < |queries| ==> TimerOf(queries[k].id) == before[k]
        invariant forall p :: Absent(queries, p) ==> TimerOf(p) == old(TimerOf(p))
        invariant ran == RunsAmong(before[..i], queries[..i], turns[..i])
      {
        assert queries[..i + 1][..i] == queries[..i] && turns[..i + 1][..i] == turns[..i] && before[..i + 1][..i] == before[..i];
        if due[i] {
          var executed := TakeTurn(queries[i], turns[i]);
          ran := if executed then ran + 1 else ran;
        }
      }
      assert queries[..|queries|] == queries && turns[..|queries|] == turns && before[..|queries|] == before;
    }

    /** `_due_queries`. */
    method DueQueries(queries: seq<Query>, turns: seq<Turn>) returns (due: seq<bool>)
      requires |turns| == |queries|
      ensures |due| == |queries|
      ensures forall k :: 0 <= k < |due| ==> due[k] == (queries[k].hasRules && IsDue(TimerOf(queries[k].id), turns[k].checkedAt))
    {
      due := [];
      for i := 0 to |queries|
        invariant |due| == i
        invariant forall k :: 0 <= k < i ==> due[k] == (queries[k].hasRules && IsDue(TimerOf(queries[k].id), turns[k].checkedAt))
      {
        due := due + [queries[i].hasRules && IsDue(TimerOf(queries[i].id), turns[i].checkedAt)];
      }
    }

    /** The turn of one due query. */
    method TakeTurn(q: Query, turn: Turn) returns (ran: bool)
      requires q.hasRules && IsDue(TimerOf(q.id), turn.checkedAt)
      modifies this
      ensures TimerOf(q.id) == AfterTurn(limits, old(TimerOf(q.id)), q, turn)
      ensures forall p :: p != q.id ==> TimerOf(p) == old(TimerOf(p))
      ensures ran <==> Executes(old(TimerOf(q.id)), q, turn) && !turn.fails
    {
      ran := false;
      if turn.cached.Some? {
        SetDueIn(q.id, turn.doneAt, Max(turn.cached.value.0 - turn.cached.value.1, 0));
      } else if !q.paused {
        Reschedule(q, turn.fails, turn.doneAt);
        ran := !turn.fails;
      }
    }
  }

  /** How many of the queries ran successfully in one tick. */
  function RunsAmong(timers: seq<Timer>, queries: seq<Query>, turns: seq<Turn>): nat
    requires |timers| == |queries| == |turns|
  {
    if queries == [] then 0
    else
      var n := |queries| - 1;
      RunsAmong(timers[..n], queries[..n], turns[..n])
      + (if Executes(timers[n], queries[n], turns[n]) && !turns[n].fails then 1 else 0)
  }

  // --- one query over every run of ticks ---------------------------------------------------

  /** One query's ticks: how it was found, and its turn. Its interval and pause may change between ticks. */
  datatype Visit = Visit(q: Query, turn: Turn)

  function After(l: Limits, t: Timer, visits: seq<Visit>): Timer
  {
    if visits == [] then t
    else
      var n := |visits| - 1;
      AfterTurn(l, After(l, t, visits[..n]), visits[n].q, visits[n].turn)
  }

  ghost predicate ExecutesAt(l: Limits, t: Timer, visits: seq<Visit>, k: nat)
    requires k < |visits|
  {
    Executes(After(l, t, visits[..k]), visits[k].q, visits[k].turn)
  }

  ghost predicate NotBefore(a: Moment, b: Moment) { a.mono <= b.mono && a.wall <= b.wall }

  /** Neither clock runs backwards through the visits, starting from a moment. */
  ghost predicate Forward(start: Moment, visits: seq<Visit>)
  {
    && (forall k :: 0 <= k < |visits| ==> NotBefore(start, visits[k].turn.checkedAt)
                                          && NotBefore(visits[k].turn.checkedAt, visits[k].turn.doneAt))
    && (forall j, k :: 0 <= j < k < |visits| ==> NotBefore(visits[j].turn.doneAt, visits[k].turn.checkedAt))
  }

  /** Some clock moved at least this far. */
  ghost predicate Apart(a: Moment, b: Moment, ms: int)
  {
    b.mono - a.mono >= ms as real || b.wall - a.wall >= ms as real
  }

  /** Still exactly due where the execution at `done` put it, or some clock has already moved that far. */
  ghost predicate Waiting(t: Timer, done: Moment, delayMs: int, now: Moment)
  {
    (t.due == Some(done.mono + delayMs as real) && t.dueWall == Some(done.wall + delayMs as real))
    || Apart(done, now, delayMs)
  }

  lemma {:induction false} WaitsThroughVisits(l: Limits, t: Timer, done: Moment, delayMs: int, visits: seq<Visit>, now: Moment)
    requires Waiting(t, done, delayMs, done) && Forward(done, visits) && NotBefore(done, now)
    requires forall k :: 0 <= k < |visits| ==> NotBefore(visits[k].turn.doneAt, now)
    requires forall k: nat :: k < |visits| ==> !ExecutesAt(l, t, visits, k)
    ensures Waiting(After(l, t, visits), done, delayMs, now)
  {
    if visits != [] {
      var n := |visits| - 1;
      var front, last := visits[..n], visits[n].turn;
      forall k: nat | k < n ensures !ExecutesAt(l, t, front, k) {
        assert front[..k] == visits[..k];
        assert !ExecutesAt(l, t, visits, k);
      }
      WaitsThroughVisits(l, t, done, delayMs, front, last.checkedAt);
      assert !ExecutesAt(l, t, visits, n);
      assert NotBefore(last.checkedAt, now);
    }
  }

  /** Consecutive executions of one query are at least the earlier one's delay apart on some clock, however the
      due time was moved by fresh results in between; that delay is never below the smaller of the query's
      interval and the backoff ceiling. */
  lemma ExecutionsAreApart(l: Limits, t: Timer, first: Visit, between: seq<Visit>, second: Visit)
    requires IntervalFor(l, first.q) >= 0 && (t.factor.Some? ==> t.factor.value >= 1)
    requires Executes(t, first.q, first.turn)
    requires Forward(first.turn.doneAt, between + [second])
    requires var after := AfterTurn(l, t, first.q, first.turn);
             && (forall k: nat :: k < |between| ==> !ExecutesAt(l, after, between, k))
             && Executes(After(l, after, between), second.q, second.turn)
    ensures var delay := DelayAfter(l, t, first.q, first.turn.fails);
            && Apart(first.turn.doneAt, second.turn.checkedAt, delay)
            && (delay >= first.q.pollIntervalMs || delay >= l.maxBackoffMs)
            && (delay >= l.minIntervalMs || delay >= l.maxBackoffMs)
            && (!first.turn.fails ==> IsInterval(l, first.q, delay))
  {
    var after := AfterTurn(l, t, first.q, first.turn);
    var delay := DelayAfter(l, t, first.q, first.turn.fails);
    var all := between + [second];
    assert forall k :: 0 <= k < |between| ==> all[k] == between[k];
    assert all[|between|] == second;
    WaitsThroughVisits(l, after, first.turn.doneAt, delay, between, second.turn.checkedAt);
    FactorAtLeastOne(IntervalFor(l, first.q), NextFactor(t));
  }

  lemma FactorAtLeastOne(base: int, factor: int)
    requires base >= 0 && factor >= 1
    ensures base * factor >= base
  {
  }

  // --- backoff -------------------------------------------------------------------------------

  function Pow2(n: nat): (p: int)
    ensures p >= 1
  {
    if n == 0 then 1 else 2 * Pow2(n - 1)
  }

  /** Failed executions since the last successful one, or since the start. */
  function FailuresInARow(l: Limits, t: Timer, visits: seq<Visit>): nat
  {
    if visits == [] then 0
    else
      var n := |visits| - 1;
      if !Executes(After(l, t, visits[..n]), visits[n].q, visits[n].turn) then FailuresInARow(l, t, visits[..n])
      else if visits[n].turn.fails then FailuresInARow(l, t, visits[..n]) + 1
      else 0
  }

  /** After k failures in a row the factor is 2^k, at most 2^16; a success forgets it, and ticks that do not
      execute leave it alone. */
  lemma {:induction false} BackoffDoubles(l: Limits, visits: seq<Visit>)
    ensures var k, t := FailuresInARow(l, Unscheduled, visits), After(l, Unscheduled, visits);
            t.factor == if k == 0 then None else Some(if Pow2(k) < 65536 then Pow2(k) else 65536)
  {
    if visits != [] {
      var n := |visits| - 1;
      BackoffDoubles(l, visits[..n]);
      assert Pow2(1) == 2 * Pow2(0);
    }
  }
}
