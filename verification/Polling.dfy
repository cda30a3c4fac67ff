/** The whole poll decision for one query: serve what is cached, refresh a stale answer behind the reader,
    or execute; and answer "unchanged" when the served hash is the one the client already holds. */
module Polling {
  import opened Wrappers
  import opened Clock
  import opened OrderedDict
  import opened FlagEngine
  import opened FindingsQueue
  import opened Payloads
  import opened Dismissals
  import opened ResultCache
  import Refresher

  datatype Answer =
    | Unchanged(queryId: string, dataHash: string, pollIntervalMs: nat, fromCache: bool, executedAt: int)
    | Changed(body: Body)

  /** What running the saved query gives: the payload, with the flag outcome it was built from. */
  datatype Execution = Execution(payload: Payload, outcome: FlagOutcome)

  datatype PollError = ExecutionFailed

  /** The answer a payload gives to a client holding `since`. */
  function AnswerFor(h: Hashes, q: string, p: Payload, dismissed: set<string>, since: Option<string>, interval: nat,
                     fromCache: bool): Answer
  {
    var served := Served(h, p, dismissed);
    if since.Some? && since.value != "" && served.dataHash == since.value
    then Unchanged(q, served.dataHash, interval, fromCache, served.executedAt)
    else Changed(Body(served, true, fromCache))
  }

  /** What a client holding `since` is told: that nothing changed, exactly when it holds the hash of what it would be
      shown, and otherwise what is to be seen. */
  ghost predicate Answers(h: Hashes, q: string, p: Payload, dismissed: set<string>, since: Option<string>, interval: nat,
                          fromCache: bool, a: Answer)
  {
    if since.Some? && since.value != "" && since.value == SeenHash(h, p, dismissed)
    then a == Unchanged(q, SeenHash(h, p, dismissed), interval, fromCache, p.executedAt)
    else a.Changed? && a.body.changed && a.body.fromCache == fromCache && Shows(h, p, dismissed, a.body.payload)
  }

  lemma AnswerIsRight(h: Hashes, q: string, p: Payload, dismissed: set<string>, since: Option<string>, interval: nat,
                      fromCache: bool)
    ensures Answers(h, q, p, dismissed, since, interval, fromCache, AnswerFor(h, q, p, dismissed, since, interval, fromCache))
  {
    ServedShows(h, p, dismissed);
  }

  /** The cached entry a poll answers from: fresh, or stale within the grace window. */
  function Answering(entries: Entries, q: string, force: bool, now: Reading, later: Reading, graceMs: nat): Option<CacheEntry>
  {
    var found := Get(entries, q);
    if force || found.None? then None
    else if IsFresh(found.value, now) || IsServable(found.value, later, graceMs) then found
    else None
  }

  /** A refresh behind the reader is asked for exactly when a stale entry answers. */
  predicate AsksRefresh(entries: Entries, q: string, force: bool, now: Reading, later: Reading, graceMs: nat)
  {
    var found := Get(entries, q);
    !force && found.Some? && !IsFresh(found.value, now) && IsServable(found.value, later, graceMs)
  }

  /** The cache after the lookups of one poll. */
  function AfterLookups(entries: Entries, q: string, force: bool, now: Reading, later: Reading, graceMs: nat): Entries
  {
    var found := Get(entries, q);
    if force then entries
    else if found.Some? && IsFresh(found.value, now) then AfterGet(entries, q, now)
    else AfterGetStale(entries, q, later, graceMs)
  }

  class Poller {
    const h: Hashes
    const fp: Row -> string
    const cache: ResultCache.Cache
    const pool: Refresher.Pool
    const findings: Findings

    constructor (h: Hashes, fp: Row -> string, cache: ResultCache.Cache, pool: Refresher.Pool, findings: Findings)
      ensures this.h == h && this.fp == fp && this.cache == cache && this.pool == pool && this.findings == findings
    {
      this.h, this.fp, this.cache, this.pool, this.findings := h, fp, cache, pool, findings;
    }

    /** `poll_one`. `execution` is what running the query would give, None when it raises; the readings are
        those of the two lookups, the refresh request and the store, in that order. */
    method PollOne(q: string, interval: nat, since: Option<string>, force: bool, dismissed: set<string>,
                   execution: Option<Execution>, at: seq<Reading>, poolUp: bool, utcNow: int)
      returns (r: Result<Answer, PollError>)
      requires cache.Valid() && |at| == 4
      modifies cache, pool, findings
      ensures cache.Valid()
      ensures var held := Get(old(cache.entries), q);
              if && !force && held.Some?
                 && (AgeMs(held.value, at[0]) < held.value.ttlMs || AgeMs(held.value, at[1]) <= held.value.ttlMs + cache.graceMs)
              then r.Ok? && Answers(h, q, held.value.payload, dismissed, since, interval, true, r.value)
              else if execution.None? then r == Err(ExecutionFailed)
              else r.Ok? && Answers(h, q, execution.value.payload, dismissed, since, interval, false, r.value)
      ensures var held := Get(old(cache.entries), q);
              pool.inFlight
              == if && !force && held.Some? && AgeMs(held.value, at[0]) >= held.value.ttlMs
                    && AgeMs(held.value, at[1]) <= held.value.ttlMs + cache.graceMs
                    && !Refresher.CoolingDown(old(pool.cooldownUntil), old(pool.cooldownWall), q, at[2]) && poolUp
                 then old(pool.inFlight) + {q} else old(pool.inFlight)
      ensures var used := Answering(old(cache.entries), q, force, at[0], at[1], cache.graceMs);
              && (used.Some? ==> r == Ok(AnswerFor(h, q, used.value.payload, dismissed, since, interval, true)))
              && (used.None? && execution.None? ==> r == Err(ExecutionFailed))
              && (used.None? && execution.Some? ==>
                    r == Ok(AnswerFor(h, q, execution.value.payload, dismissed, since, interval, false)))
      ensures var used := Answering(old(cache.entries), q, force, at[0], at[1], cache.graceMs);
              var looked := AfterLookups(old(cache.entries), q, force, at[0], at[1], cache.graceMs);
              if used.Some? || execution.None? then
                cache.entries == looked && findings.stored == old(findings.stored)
              else
                var p := execution.value.payload;
                && cache.entries == AfterSet(looked, q, CacheEntry(p.dataHash, p, at[3], interval, cache.measure(p)), cache.budget)
                && findings.stored == Synced(old(findings.stored),
                                             MatchedBy(fp, p.columns, p.rows, execution.value.outcome), utcNow)
    {
      var cached := LookForAnswer(q, force, at[0], at[1], at[2], poolUp);
      if cached.Some? {
        AnswerIsRight(h, q, cached.value.payload, dismissed, since, interval, true);
        return Ok(AnswerFor(h, q, cached.value.payload, dismissed, since, interval, true));
      }
      if execution.None? {
        return Err(ExecutionFailed);
      }
      var payload := execution.value.payload;
      AnswerIsRight(h, q, payload, dismissed, since, interval, false);
      var _ := findings.Sync(fp, payload.columns, payload.rows, execution.value.outcome, utcNow);
      var _ := cache.Set(q, payload.dataHash, payload, interval, at[3]);
      return Ok(AnswerFor(h, q, payload, dismissed, since, interval, false));
    }

    /** The lookups: a fresh entry outright, or a stale one with a refresh asked for behind it. */
    method LookForAnswer(q: string, force: bool, now: Reading, later: Reading, refreshAt: Reading, poolUp: bool)
      returns (cached: Option<CacheEntry>)
      requires cache.Valid()
      modifies cache, pool
      ensures cache.Valid() && cached == Answering(old(cache.entries), q, force, now, later, cache.graceMs)
      ensures cache.entries == AfterLookups(old(cache.entries), q, force, now, later, cache.graceMs)
      ensures pool.inFlight ==
              if && AsksRefresh(old(cache.entries), q, force, now, later, cache.graceMs)
                 && !Refresher.CoolingDown(old(pool.cooldownUntil), old(pool.cooldownWall), q, refreshAt) && poolUp
              then old(pool.inFlight) + {q} else old(pool.inFlight)
    {
      if force {
        return None;
      }
      cached := cache.Lookup(q, now);
      if cached.None? {
        cached := cache.LookupStale(q, later);
        if cached.Some? {
          var _ := pool.RequestRefresh(q, refreshAt, poolUp);
        }
      }
    }
  }

  /** An "unchanged" answer never hides a change: the client's last body, from whatever run and under whatever
      dismissals, has the columns, rows and flags that would be served now. */
  lemma UnchangedHidesNothing(h: Hashes, q: string, p: Payload, dismissed: set<string>, interval: nat, fromCache: bool,
                              held: Payload, heldDismissed: set<string>)
    requires HashesLawful(h) && Hashed(h, p) && Hashed(h, held) && CommaFree(dismissed) && CommaFree(heldDismissed)
    requires AnswerFor(h, q, p, dismissed, Some(Served(h, held, heldDismissed).dataHash), interval, fromCache).Unchanged?
    ensures var now, was := Served(h, p, dismissed), Served(h, held, heldDismissed);
            now.columns == was.columns && now.rows == was.rows && now.flags == was.flags
  {
    EqualHashEqualContent(h, p, dismissed, held, heldDismissed);
  }

  /** And a client that dismissed one of the rows it sees flagged is sent the payload, although no cell changed. */
  lemma DismissalIsAChange(h: Hashes, q: string, p: Payload, dismissed: set<string>, f: string, interval: nat)
    requires HashesLawful(h) && Hashed(h, p) && CommaFree(dismissed) && ',' !in f
    requires f !in dismissed && exists e :: e in p.flags.rows && e.fingerprint == f
    ensures AnswerFor(h, q, p, dismissed + {f}, Some(Served(h, p, dismissed).dataHash), interval, true).Changed?
  {
    DismissingChangesTheHash(h, p, dismissed, f);
  }
}
