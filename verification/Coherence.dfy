/** Pre-encoded responses stay right although charts are not part of their key: over every run of polls,
    executions, chart edits and invalidations, what is handed out is what a fresh rendering would be. */
module Coherence {
  import opened Wrappers
  import opened Clock
  import opened OrderedDict
  import opened FlagConditions
  import opened Payloads
  import opened Dismissals
  import opened ResultCache
  import Polling
  import RC = RenderedCache

  type RenderedEntries = seq<(string, RC.Rendered)>

  /** What does not change during a run: encoders, hashes, how payloads are measured, and the bounds. */
  datatype Setup = Setup(
    codec: RC.Codec, h: Hashes, measure: Payload -> nat, budget: nat, renderedBudget: nat, graceMs: nat)

  /** Both caches, and every (query, execution time) a run has used so far. */
  datatype State = State(cache: Entries, rendered: RenderedEntries, used: set<(string, int)>)

  datatype Op =
    | Execute(q: string, p: Payload, ttlMs: nat, now: Reading)        // "run now", a refresh, the scheduler
    | ForcePoll(q: string, p: Payload, ttlMs: nat, now: Reading, dismissed: set<string>)
    | CachedPoll(q: string, now: Reading, later: Reading, dismissed: set<string>)
    | QuietPoll(q: string, now: Reading, later: Reading)               // answered "unchanged", or the scheduler's look
    | RedrawCharts(q: string, build: seq<string> -> Option<seq<ChartSpec>>)
    | Drop(q: string)                                                  // the query, its rules or a list it reads changed

  /** A response handed out: the body asked for and the bytes given. */
  datatype Response = Response(body: Body, bytes: RC.Rendered)

  function BodyFor(u: Setup, p: Payload, dismissed: set<string>, fromCache: bool): Body
  {
    Body(Served(u.h, p, dismissed), true, fromCache)
  }

  /** `get_or_render` on values. */
  function Respond(u: Setup, rendered: RenderedEntries, q: string, body: Body): (Response, RenderedEntries)
  {
    var key := RC.KeyOf(q, body);
    var found := Get(rendered, key);
    if found.Some? then (Response(body, found.value), Touch(rendered, key))
    else
      var r := RC.Render(u.codec, body);
      (Response(body, r), RC.Stored(rendered, key, r, u.renderedBudget))
  }

  /** Executions are stamped with a moment no other run of the query has, and hash what they say. */
  ghost predicate Enabled(u: Setup, s: State, op: Op)
  {
    match op
    case Execute(q, p, _, _) => '|' !in q && Hashed(u.h, p) && (q, p.executedAt) !in s.used
    case ForcePoll(q, p, _, _, dismissed) =>
      '|' !in q && Hashed(u.h, p) && (q, p.executedAt) !in s.used && CommaFree(dismissed)
    case CachedPoll(_, _, _, dismissed) => CommaFree(dismissed)
    case QuietPoll(_, _, _) => true
    case RedrawCharts(q, _) => '|' !in q
    case Drop(q) => '|' !in q
  }

  function Cached(u: Setup, s: State, q: string, p: Payload, ttlMs: nat, now: Reading): State
  {
    s.(cache := AfterSet(s.cache, q, CacheEntry(p.dataHash, p, now, ttlMs, u.measure(p)), u.budget),
       used := s.used + {(q, p.executedAt)})
  }

  function Next(u: Setup, s: State, op: Op): (State, Option<Response>)
  {
    match op
    case Execute(q, p, ttlMs, now) => (Cached(u, s, q, p, ttlMs, now), None)
    case ForcePoll(q, p, ttlMs, now, dismissed) =>
      var (response, rendered) := Respond(u, s.rendered, q, BodyFor(u, p, dismissed, false));
      (Cached(u, s, q, p, ttlMs, now).(rendered := rendered), Some(response))
    case CachedPoll(q, now, later, dismissed) =>
      var found := Get(s.cache, q);
      if found.Some? && (IsFresh(found.value, now) || IsServable(found.value, later, u.graceMs)) then
        var (response, rendered) := Respond(u, s.rendered, q, BodyFor(u, found.value.payload, dismissed, true));
        (s.(cache := Touch(s.cache, q), rendered := rendered), Some(response))
      else
        (s.(cache := Remove(s.cache, q)), None)
    case QuietPoll(q, now, later) =>
      var found := Get(s.cache, q);
      if found.Some? && (IsFresh(found.value, now) || IsServable(found.value, later, u.graceMs))
      then (s.(cache := Touch(s.cache, q)), None)
      else (s.(cache := Remove(s.cache, q)), None)
    case RedrawCharts(q, build) =>
      (s.(cache := AfterPatch(s.cache, q, build, u.measure), rendered := RC.WithoutPrefix(s.rendered, q + ['|'])), None)
    case Drop(q) =>
      (s.(cache := Remove(s.cache, q), rendered := RC.WithoutPrefix(s.rendered, q + ['|'])), None)
  }

  /** The polls of a run are the polls the service answers: same entry used, same body served, same cache left. */
  lemma CachedPollIsAPoll(u: Setup, s: State, q: string, now: Reading, later: Reading, dismissed: set<string>)
    ensures var (t, response) := Next(u, s, CachedPoll(q, now, later, dismissed));
            var used := Polling.Answering(s.cache, q, false, now, later, u.graceMs);
            && t.cache == Polling.AfterLookups(s.cache, q, false, now, later, u.graceMs)
            && (response.Some? <==> used.Some?)
            && (used.Some? ==>
                  Polling.Changed(response.value.body)
                  == Polling.AnswerFor(u.h, q, used.value.payload, dismissed, None, used.value.ttlMs, true))
  {
    if Get(s.cache, q).None? {
      RemoveAbsent(s.cache, q);
    }
  }

  lemma ForcedPollIsAPoll(u: Setup, s: State, q: string, p: Payload, ttlMs: nat, now: Reading, dismissed: set<string>)
    ensures var (t, response) := Next(u, s, ForcePoll(q, p, ttlMs, now, dismissed));
            && t.cache == AfterSet(s.cache, q, CacheEntry(p.dataHash, p, now, ttlMs, u.measure(p)), u.budget)
            && response.Some?
            && Polling.Changed(response.value.body) == Polling.AnswerFor(u.h, q, p, dismissed, None, ttlMs, false)
  {
  }

  /** And every other step is what the caches do: storing, looking, redrawing, dropping. */
  lemma OtherStepsAreTheCaches(u: Setup, s: State, op: Op)
    requires !op.ForcePoll? && !op.CachedPoll?
    ensures var (t, response) := Next(u, s, op);
            && response.None?
            && match op
               case Execute(q, p, ttlMs, now) =>
                 t.cache == AfterSet(s.cache, q, CacheEntry(p.dataHash, p, now, ttlMs, u.measure(p)), u.budget) && t.rendered == s.rendered
               case QuietPoll(q, now, later) =>
                 t.cache == Polling.AfterLookups(s.cache, q, false, now, later, u.graceMs) && t.rendered == s.rendered
               case RedrawCharts(q, build) =>
                 t.cache == AfterPatch(s.cache, q, build, u.measure) && t.rendered == RC.WithoutPrefix(s.rendered, q + ['|'])
               case Drop(q) => t.cache == Remove(s.cache, q) && t.rendered == RC.WithoutPrefix(s.rendered, q + ['|'])
               case _ => true
  {
    if op.QuietPoll? && Get(s.cache, op.q).None? {
      RemoveAbsent(s.cache, op.q);
    }
  }

  // --- the invariant ---------------------------------------------------------------------

  /** Held bytes for any body a payload can be served as are that body's rendering. */
  ghost predicate Agrees(u: Setup, rendered: RenderedEntries, q: string, p: Payload)
  {
    forall dismissed: set<string>, fromCache: bool :: CommaFree(dismissed) ==>
      AgreesOn(u, rendered, q, BodyFor(u, p, dismissed, fromCache))
  }

  ghost predicate AgreesOn(u: Setup, rendered: RenderedEntries, q: string, body: Body)
  {
    var found := Get(rendered, RC.KeyOf(q, body));
    found.None? || found == Some(RC.Render(u.codec, body))
  }

  /** A key names a query and a moment of execution that some run has used. */
  ghost predicate KeyIsUsed(key: string, used: set<(string, int)>)
  {
    exists q, h, i, c, t :: (q, t) in used && '|' !in q && '|' !in h && key == RC.KeyFor(q, h, i, c, t)
  }

  ghost predicate KeysAreUsed(rendered: RenderedEntries, used: set<(string, int)>)
  {
    forall n :: 0 <= n < |rendered| ==> KeyIsUsed(rendered[n].0, used)
  }

  ghost predicate EntryOk(u: Setup, s: State, q: string)
  {
    var found := Get(s.cache, q);
    found.Some? ==>
      var p := found.value.payload;
      '|' !in q && Hashed(u.h, p) && (q, p.executedAt) in s.used && Agrees(u, s.rendered, q, p)
  }

  ghost predicate Coherent(u: Setup, s: State)
  {
    Distinct(s.cache) && Distinct(s.rendered) && KeysAreUsed(s.rendered, s.used) && forall q :: EntryOk(u, s, q)
  }

  // --- lemmas about the rendered side -------------------------------------------------------

  lemma ServedHashHasNoPipe(h: Hashes, p: Payload, dismissed: set<string>)
    requires HashesLawful(h) && Hashed(h, p)
    ensures '|' !in Served(h, p, dismissed).dataHash
    ensures Served(h, p, dismissed).executedAt == p.executedAt
  {
  }

  /** One key, one body: bodies of one payload that share a key are the same body. */
  lemma SameKeySameBody(u: Setup, q: string, p: Payload, d: set<string>, c: bool, q': string, p': Payload,
                        d': set<string>, c': bool)
    requires HashesLawful(u.h) && Hashed(u.h, p) && Hashed(u.h, p') && CommaFree(d) && CommaFree(d')
    requires '|' !in q && '|' !in q'
    requires RC.KeyOf(q, BodyFor(u, p, d, c)) == RC.KeyOf(q', BodyFor(u, p', d', c'))
    ensures q == q' && p.executedAt == p'.executedAt
    ensures p == p' ==> BodyFor(u, p, d, c) == BodyFor(u, p', d', c')
  {
    var s, s' := Served(u.h, p, d), Served(u.h, p', d');
    ServedHashHasNoPipe(u.h, p, d);
    ServedHashHasNoPipe(u.h, p', d');
    RC.KeyForInjective(q, s.dataHash, s.pollIntervalMs, c, s.executedAt, q', s'.dataHash, s'.pollIntervalMs, c', s'.executedAt);
    EqualHashEqualContent(u.h, p, d, p', d');
  }

  lemma KeyOfIsUsed(u: Setup, q: string, p: Payload, d: set<string>, c: bool, used: set<(string, int)>)
    requires HashesLawful(u.h) && Hashed(u.h, p) && '|' !in q && (q, p.executedAt) in used
    ensures KeyIsUsed(RC.KeyOf(q, BodyFor(u, p, d, c)), used)
  {
  }

  /** Nothing is held for a run that has not happened yet. */
  lemma NothingHeldForNewRun(u: Setup, s: State, q: string, p: Payload)
    requires HashesLawful(u.h) && Hashed(u.h, p) && '|' !in q
    requires Distinct(s.rendered) && KeysAreUsed(s.rendered, s.used) && (q, p.executedAt) !in s.used
    ensures Agrees(u, s.rendered, q, p)
    ensures forall d, c :: CommaFree(d) ==> Get(s.rendered, RC.KeyOf(q, BodyFor(u, p, d, c))).None?
  {
    forall d: set<string>, c: bool | CommaFree(d)
      ensures Get(s.rendered, RC.KeyOf(q, BodyFor(u, p, d, c))).None?
    {
      var key := RC.KeyOf(q, BodyFor(u, p, d, c));
      if Get(s.rendered, key).Some? {
        var n :| 0 <= n < |s.rendered| && s.rendered[n] == (key, Get(s.rendered, key).value);
        KeyNamesItsRun(u, q, p, d, c, s.used);
        assert false;
      }
    }
  }

  lemma KeyNamesItsRun(u: Setup, q: string, p: Payload, d: set<string>, c: bool, used: set<(string, int)>)
    requires HashesLawful(u.h) && Hashed(u.h, p) && '|' !in q
    requires KeyIsUsed(RC.KeyOf(q, BodyFor(u, p, d, c)), used)
    ensures (q, p.executedAt) in used
  {
    ServedHashHasNoPipe(u.h, p, d);
    var s := Served(u.h, p, d);
    var q', h', i', c', t' :| (q', t') in used && '|' !in q' && '|' !in h'
                              && RC.KeyOf(q, BodyFor(u, p, d, c)) == RC.KeyFor(q', h', i', c', t');
    RC.KeyForInjective(q, s.dataHash, s.pollIntervalMs, c, s.executedAt, q', h', i', c', t');
  }

  /** Responding keeps what is held right for every payload that is either the one served or another run's. */
  lemma RespondAgrees(u: Setup, rendered: RenderedEntries, q: string, p: Payload, d: set<string>, c: bool,
                      q': string, p': Payload)
    requires HashesLawful(u.h) && Hashed(u.h, p) && Hashed(u.h, p') && CommaFree(d) && '|' !in q && '|' !in q'
    requires Distinct(rendered) && Agrees(u, rendered, q, p) && Agrees(u, rendered, q', p')
    requires q == q' && p.executedAt == p'.executedAt ==> p == p'
    ensures var (response, after) := Respond(u, rendered, q, BodyFor(u, p, d, c));
            && response.bytes == RC.Render(u.codec, response.body) && response.body == BodyFor(u, p, d, c)
            && Distinct(after) && Agrees(u, after, q', p')
  {
    var body := BodyFor(u, p, d, c);
    var key := RC.KeyOf(q, body);
    var (response, after) := Respond(u, rendered, q, body);
    assert AgreesOn(u, rendered, q, body);
    TouchChangesOrderOnly(rendered, key, RC.SizeOf, key);
    StoringKeepsOthers(rendered, key, RC.Render(u.codec, body), RC.SizeOf, u.renderedBudget, RC.MAX_ENTRIES, key);
    forall d': set<string>, c': bool | CommaFree(d') ensures AgreesOn(u, after, q', BodyFor(u, p', d', c')) {
      var body' := BodyFor(u, p', d', c');
      var key' := RC.KeyOf(q', body');
      assert AgreesOn(u, rendered, q', body');
      if key' == key {
        SameKeySameBody(u, q, p, d, c, q', p', d', c');
      }
      RespondLookup(u, rendered, q, body, key');
    }
  }

  /** What a response leaves held under any key: what was there, the rendering under its own, or nothing. */
  lemma RespondLookup(u: Setup, rendered: RenderedEntries, q: string, body: Body, key': string)
    requires Distinct(rendered) && AgreesOn(u, rendered, q, body)
    ensures var after, key := Respond(u, rendered, q, body).1, RC.KeyOf(q, body);
            && Distinct(after)
            && (Get(after, key').None? || Get(after, key') == Get(rendered, key')
                || (key' == key && Get(after, key') == Some(RC.Render(u.codec, body))))
  {
    var key := RC.KeyOf(q, body);
    TouchChangesOrderOnly(rendered, key, RC.SizeOf, key');
    StoringKeepsOthers(rendered, key, RC.Render(u.codec, body), RC.SizeOf, u.renderedBudget, RC.MAX_ENTRIES, key');
  }

  lemma RespondKeysUsed(u: Setup, rendered: RenderedEntries, q: string, body: Body, used: set<(string, int)>)
    requires KeysAreUsed(rendered, used) && KeyIsUsed(RC.KeyOf(q, body), used)
    ensures KeysAreUsed(Respond(u, rendered, q, body).1, used)
  {
    var key := RC.KeyOf(q, body);
    var after := Respond(u, rendered, q, body).1;
    forall n | 0 <= n < |after| ensures KeyIsUsed(after[n].0, used) {
      RespondOrigin(u, rendered, q, body, n);
      if after[n].0 != key {
        assert after[n] in rendered;
      }
    }
  }

  lemma RespondOrigin(u: Setup, rendered: RenderedEntries, q: string, body: Body, n: nat)
    requires n < |Respond(u, rendered, q, body).1|
    ensures var e := Respond(u, rendered, q, body).1[n]; e.0 == RC.KeyOf(q, body) || e in rendered
  {
  }

  lemma PrefixDropped(u: Setup, rendered: RenderedEntries, q: string, q': string, p': Payload)
    requires HashesLawful(u.h) && Hashed(u.h, p') && '|' !in q && '|' !in q' && Distinct(rendered)
    ensures Distinct(RC.WithoutPrefix(rendered, q + ['|']))
    ensures q == q' || Agrees(u, rendered, q', p') ==> Agrees(u, RC.WithoutPrefix(rendered, q + ['|']), q', p')
  {
    var keep := (key: string) => !(q + ['|'] <= key);
    FilterKeepsDistinct(rendered, keep);
    if q == q' || Agrees(u, rendered, q', p') {
      forall d: set<string>, c: bool | CommaFree(d)
        ensures AgreesOn(u, RC.WithoutPrefix(rendered, q + ['|']), q', BodyFor(u, p', d, c))
      {
        var s := Served(u.h, p', d);
        var key := RC.KeyOf(q', BodyFor(u, p', d, c));
        assert AgreesOn(u, rendered, q', BodyFor(u, p', d, c)) || q == q';
        RC.PrefixIsQuery(q, q', s.dataHash, s.pollIntervalMs, c, s.executedAt);
        GetAfterFilter(rendered, keep, key);
      }
    }
  }

  lemma PrefixDropKeepsUsed(rendered: RenderedEntries, prefix: string, used: set<(string, int)>)
    requires KeysAreUsed(rendered, used)
    ensures KeysAreUsed(RC.WithoutPrefix(rendered, prefix), used)
  {
  }

  lemma UsedGrows(rendered: RenderedEntries, used: set<(string, int)>, more: set<(string, int)>)
    requires KeysAreUsed(rendered, used) && used <= more
    ensures KeysAreUsed(rendered, more)
  {
  }

  // --- every step, every run -----------------------------------------------------------------

  lemma ExecuteKeepsEntry(u: Setup, s: State, q: string, p: Payload, ttlMs: nat, now: Reading, q': string)
    requires HashesLawful(u.h) && Coherent(u, s) && Enabled(u, s, Execute(q, p, ttlMs, now))
    ensures Distinct(Cached(u, s, q, p, ttlMs, now).cache)
    ensures EntryOk(u, Cached(u, s, q, p, ttlMs, now), q')
  {
    var e := CacheEntry(p.dataHash, p, now, ttlMs, u.measure(p));
    StoringKeepsOthers(s.cache, q, e, ResultCache.SizeOf, u.budget, ResultCache.MAX_ENTRIES, q');
    NothingHeldForNewRun(u, s, q, p);
    assert EntryOk(u, s, q');
  }

  lemma ExecuteKeepsCoherent(u: Setup, s: State, q: string, p: Payload, ttlMs: nat, now: Reading)
    requires HashesLawful(u.h) && Coherent(u, s) && Enabled(u, s, Execute(q, p, ttlMs, now))
    ensures Coherent(u, Cached(u, s, q, p, ttlMs, now))
  {
    var t := Cached(u, s, q, p, ttlMs, now);
    UsedGrows(s.rendered, s.used, t.used);
    ExecuteKeepsEntry(u, s, q, p, ttlMs, now, q);
    forall q' ensures EntryOk(u, t, q') {
      ExecuteKeepsEntry(u, s, q, p, ttlMs, now, q');
    }
  }

  /** Answering from payload p, which is either what the query holds or a run it could not keep. */
  lemma RespondKeepsCoherent(u: Setup, s: State, q: string, p: Payload, d: set<string>, c: bool)
    requires HashesLawful(u.h) && Coherent(u, s) && CommaFree(d) && '|' !in q && Hashed(u.h, p)
    requires (q, p.executedAt) in s.used && Agrees(u, s.rendered, q, p)
    requires Get(s.cache, q).Some? ==> Get(s.cache, q).value.payload == p || Get(s.cache, q).value.payload.executedAt != p.executedAt
    ensures var (response, after) := Respond(u, s.rendered, q, BodyFor(u, p, d, c));
            && response == Response(BodyFor(u, p, d, c), RC.Render(u.codec, BodyFor(u, p, d, c)))
            && Coherent(u, s.(rendered := after))
  {
    var (response, after) := Respond(u, s.rendered, q, BodyFor(u, p, d, c));
    RespondAgrees(u, s.rendered, q, p, d, c, q, p);
    KeyOfIsUsed(u, q, p, d, c, s.used);
    RespondKeysUsed(u, s.rendered, q, BodyFor(u, p, d, c), s.used);
    forall q' ensures EntryOk(u, s.(rendered := after), q') {
      assert EntryOk(u, s, q');
      if Get(s.cache, q').Some? {
        RespondAgrees(u, s.rendered, q, p, d, c, q', Get(s.cache, q').value.payload);
      }
    }
  }

  /** Changing only the cache, to entries that are the same or gone, keeps coherence. */
  lemma CacheShrinks(u: Setup, s: State, cache: Entries)
    requires Coherent(u, s) && Distinct(cache)
    requires forall q :: Get(cache, q).None? || Get(cache, q) == Get(s.cache, q)
    ensures Coherent(u, s.(cache := cache))
  {
    forall q ensures EntryOk(u, s.(cache := cache), q) {
      assert EntryOk(u, s, q);
    }
  }

  lemma TouchKeepsCoherent(u: Setup, s: State, q: string)
    requires Coherent(u, s)
    ensures Coherent(u, s.(cache := Touch(s.cache, q)))
  {
    TouchChangesOrderOnly(s.cache, q, ResultCache.SizeOf, q);
    forall j ensures Get(Touch(s.cache, q), j) == Get(s.cache, j) {
      TouchChangesOrderOnly(s.cache, q, ResultCache.SizeOf, j);
    }
    CacheShrinks(u, s, Touch(s.cache, q));
  }

  lemma RemoveKeepsCoherent(u: Setup, s: State, q: string)
    requires Coherent(u, s)
    ensures Coherent(u, s.(cache := Remove(s.cache, q)))
  {
    RemoveKeepsDistinct(s.cache, q);
    forall j ensures Get(Remove(s.cache, q), j).None? || Get(Remove(s.cache, q), j) == Get(s.cache, j) {
      GetAfterRemove(s.cache, q, j);
    }
    CacheShrinks(u, s, Remove(s.cache, q));
  }

  /** Dropping a query's responses and replacing its entry by one that differs only in its charts, or by nothing. */
  lemma RedrawKeepsEntry(u: Setup, s: State, q: string, cache: Entries, q': string)
    requires HashesLawful(u.h) && Coherent(u, s) && '|' !in q
    requires q' != q ==> Get(cache, q') == Get(s.cache, q')
    requires q' == q && Get(cache, q).Some? ==>
               && Get(s.cache, q).Some?
               && var p, was := Get(cache, q).value.payload, Get(s.cache, q).value.payload;
                  p == was.(charts := p.charts)
    ensures EntryOk(u, s.(cache := cache, rendered := RC.WithoutPrefix(s.rendered, q + ['|'])), q')
  {
    assert EntryOk(u, s, q');
    if Get(cache, q').Some? {
      PrefixDropped(u, s.rendered, q, q', Get(cache, q').value.payload);
    }
  }

  lemma RedrawKeepsCoherent(u: Setup, s: State, q: string, cache: Entries)
    requires HashesLawful(u.h) && Coherent(u, s) && '|' !in q && Distinct(cache)
    requires forall j :: j != q ==> Get(cache, j) == Get(s.cache, j)
    requires Get(cache, q).Some? ==>
               && Get(s.cache, q).Some?
               && var p, was := Get(cache, q).value.payload, Get(s.cache, q).value.payload;
                  p == was.(charts := p.charts)
    ensures Coherent(u, s.(cache := cache, rendered := RC.WithoutPrefix(s.rendered, q + ['|'])))
  {
    PrefixDropKeepsUsed(s.rendered, q + ['|'], s.used);
    FilterKeepsDistinct(s.rendered, (key: string) => !(q + ['|'] <= key));
    forall q' ensures EntryOk(u, s.(cache := cache, rendered := RC.WithoutPrefix(s.rendered, q + ['|'])), q') {
      RedrawKeepsEntry(u, s, q, cache, q');
    }
  }

  lemma PatchKeepsCoherent(u: Setup, s: State, q: string, build: seq<string> -> Option<seq<ChartSpec>>)
    requires HashesLawful(u.h) && Coherent(u, s) && '|' !in q
    ensures Coherent(u, Next(u, s, RedrawCharts(q, build)).0)
  {
    var cache := AfterPatch(s.cache, q, build, u.measure);
    PatchedDistinct(s.cache, q, build, u.measure);
    forall j ensures j != q ==> Get(cache, j) == Get(s.cache, j) {
      PatchKeepsAge(s.cache, q, build, u.measure, j, Reading(0.0, 0.0));
    }
    PatchKeepsAge(s.cache, q, build, u.measure, q, Reading(0.0, 0.0));
    RedrawKeepsCoherent(u, s, q, cache);
  }

  lemma PatchedDistinct(cache: Entries, q: string, build: seq<string> -> Option<seq<ChartSpec>>, measure: Payload -> nat)
    requires Distinct(cache)
    ensures Distinct(AfterPatch(cache, q, build, measure))
  {
    RemoveKeepsDistinct(cache, q);
  }

  lemma DropKeepsCoherent(u: Setup, s: State, q: string)
    requires HashesLawful(u.h) && Coherent(u, s) && '|' !in q
    ensures Coherent(u, Next(u, s, Drop(q)).0)
  {
    RemoveKeepsDistinct(s.cache, q);
    forall j ensures Get(Remove(s.cache, q), j) == if j == q then None else Get(s.cache, j) {
      GetAfterRemove(s.cache, q, j);
    }
    RedrawKeepsCoherent(u, s, q, Remove(s.cache, q));
  }

  /** What was handed out, if anything, is a fresh rendering of the body asked for. */
  ghost predicate Right(u: Setup, r: Option<Response>)
  {
    r.Some? ==> r.value.bytes == RC.Render(u.codec, r.value.body)
  }

  lemma NextKeepsCoherent(u: Setup, s: State, op: Op)
    requires HashesLawful(u.h) && Coherent(u, s) && Enabled(u, s, op)
    ensures Coherent(u, Next(u, s, op).0) && Right(u, Next(u, s, op).1)
  {
    match op
    case Execute(q, p, ttlMs, now) => ExecuteKeepsCoherent(u, s, q, p, ttlMs, now);
    case ForcePoll(q, p, ttlMs, now, dismissed) => ForcePollKeepsCoherent(u, s, q, p, ttlMs, now, dismissed);
    case CachedPoll(q, now, later, dismissed) => CachedPollKeepsCoherent(u, s, q, now, later, dismissed);
    case QuietPoll(q, now, later) => TouchKeepsCoherent(u, s, q); RemoveKeepsCoherent(u, s, q);
    case RedrawCharts(q, build) => PatchKeepsCoherent(u, s, q, build);
    case Drop(q) => DropKeepsCoherent(u, s, q);
  }

  lemma ForcePollKeepsCoherent(u: Setup, s: State, q: string, p: Payload, ttlMs: nat, now: Reading, dismissed: set<string>)
    requires HashesLawful(u.h) && Coherent(u, s) && Enabled(u, s, ForcePoll(q, p, ttlMs, now, dismissed))
    ensures var (t, r) := Next(u, s, ForcePoll(q, p, ttlMs, now, dismissed)); Coherent(u, t) && Right(u, r)
  {
    var t := Cached(u, s, q, p, ttlMs, now);
    ExecuteKeepsCoherent(u, s, q, p, ttlMs, now);
    NothingHeldForNewRun(u, s, q, p);
    var e := CacheEntry(p.dataHash, p, now, ttlMs, u.measure(p));
    StoringKeepsOthers(s.cache, q, e, ResultCache.SizeOf, u.budget, ResultCache.MAX_ENTRIES, q);
    RespondKeepsCoherent(u, t, q, p, dismissed, false);
  }

  lemma CachedPollKeepsCoherent(u: Setup, s: State, q: string, now: Reading, later: Reading, dismissed: set<string>)
    requires HashesLawful(u.h) && Coherent(u, s) && Enabled(u, s, CachedPoll(q, now, later, dismissed))
    ensures var (t, r) := Next(u, s, CachedPoll(q, now, later, dismissed)); Coherent(u, t) && Right(u, r)
  {
    var found := Get(s.cache, q);
    if found.Some? && (IsFresh(found.value, now) || IsServable(found.value, later, u.graceMs)) {
      assert EntryOk(u, s, q);
      RespondKeepsCoherent(u, s, q, found.value.payload, dismissed, true);
      var after := Respond(u, s.rendered, q, BodyFor(u, found.value.payload, dismissed, true)).1;
      TouchKeepsCoherent(u, s.(rendered := after), q);
    } else {
      RemoveKeepsCoherent(u, s, q);
    }
  }

  /** A run: each operation enabled where it happens. */
  ghost predicate Run(u: Setup, s: State, ops: seq<Op>)
    decreases |ops|
  {
    ops == [] || (Enabled(u, s, ops[0]) && Run(u, Next(u, s, ops[0]).0, ops[1..]))
  }

  function Responses(u: Setup, s: State, ops: seq<Op>): seq<Option<Response>>
    decreases |ops|
  {
    if ops == [] then [] else [Next(u, s, ops[0]).1] + Responses(u, Next(u, s, ops[0]).0, ops[1..])
  }

  /** Over every run from a coherent state, such as two empty caches, every response handed out is byte for byte a
      fresh rendering. */
  lemma {:induction false} ResponsesAreFresh(u: Setup, s: State, ops: seq<Op>)
    requires HashesLawful(u.h) && Coherent(u, s) && Run(u, s, ops)
    ensures forall n :: 0 <= n < |Responses(u, s, ops)| ==> Right(u, Responses(u, s, ops)[n])
    decreases |ops|
  {
    if ops != [] {
      NextKeepsCoherent(u, s, ops[0]);
      ResponsesAreFresh(u, Next(u, s, ops[0]).0, ops[1..]);
    }
  }

  /** Two empty caches are where such a run starts. */
  lemma StartsCoherent(u: Setup, used: set<(string, int)>)
    ensures Coherent(u, State([], [], used))
  {
  }
}
