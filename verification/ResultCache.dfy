/** The cache of the last result per query: bounded in bytes and entries, aged on two clocks. */
module ResultCache {
  import opened Wrappers
  import opened Clock
  import opened OrderedDict
  import opened Payloads
  import RenderedCache

  const MAX_ENTRIES: nat := 256

  datatype CacheEntry = CacheEntry(dataHash: string, payload: Payload, stored: Reading, ttlMs: nat, sizeBytes: nat)

  type Entries = seq<(string, CacheEntry)>

  function SizeOf(e: CacheEntry): nat { e.sizeBytes }

  // --- age --------------------------------------------------------------------

  /** Whole milliseconds, by whichever clock says the entry is older. */
  function AgeMs(e: CacheEntry, now: Reading): (age: int)
    ensures age >= 0
  {
    ElapsedMs(e.stored, now).Floor
  }

  predicate IsFresh(e: CacheEntry, now: Reading) { AgeMs(e, now) < e.ttlMs }

  predicate IsServable(e: CacheEntry, now: Reading, graceMs: nat) { AgeMs(e, now) <= e.ttlMs + graceMs }

  /** While one clock works, a fresh entry is truly younger than its TTL, and a servable one truly younger than
      TTL plus grace plus one millisecond. */
  lemma ServedAgeIsBounded(e: CacheEntry, now: Reading, graceMs: nat, trueSeconds: real)
    requires trueSeconds >= 0.0 && OneClockKeptUp(e.stored, now, trueSeconds)
    ensures IsFresh(e, now) ==> trueSeconds * 1000.0 < e.ttlMs as real
    ensures IsServable(e, now, graceMs) ==> trueSeconds * 1000.0 < (e.ttlMs + graceMs + 1) as real
  {
  }

  /** A stale entry is served past TTL plus grace exactly within the last fraction of a millisecond, which rounding
      the age down gives away. */
  lemma OverrunExactly(e: CacheEntry, now: Reading, graceMs: nat)
    ensures var elapsed, limit := ElapsedMs(e.stored, now), e.ttlMs + graceMs;
            IsServable(e, now, graceMs) && elapsed > limit as real
            <==> limit as real < elapsed < (limit + 1) as real
  {
  }

  /** It does happen: half a millisecond past its TTL and five minutes of grace, an entry is still served. */
  lemma GraceOverrun(e: CacheEntry, graceMs: nat)
    requires e.stored == Reading(0.0, 0.0) && e.ttlMs == 5000 && graceMs == 300000
    ensures IsServable(e, Reading(305.0005, 305.0005), graceMs)
    ensures ElapsedMs(e.stored, Reading(305.0005, 305.0005)) > (e.ttlMs + graceMs) as real
  {
  }

  /** When neither clock ran fast, nothing is thrown out early. */
  lemma YoungEntriesStayFresh(e: CacheEntry, now: Reading, trueSeconds: real)
    requires trueSeconds >= 0.0 && OneClockKeptUp(e.stored, now, trueSeconds)
    requires NoClockRanFast(e.stored, now, trueSeconds)
    ensures trueSeconds * 1000.0 < e.ttlMs as real ==> IsFresh(e, now)
  {
  }

  // --- the operations on values -------------------------------------------------

  function AfterGet(entries: Entries, q: string, now: Reading): Entries
  {
    var found := Get(entries, q);
    if found.Some? && IsFresh(found.value, now) then Touch(entries, q) else entries
  }

  function AfterGetStale(entries: Entries, q: string, now: Reading, graceMs: nat): Entries
  {
    var found := Get(entries, q);
    if found.None? then entries
    else if IsServable(found.value, now, graceMs) then Touch(entries, q)
    else Remove(entries, q)
  }

  function AfterSet(entries: Entries, q: string, e: CacheEntry, budget: nat): Entries
  {
    StoreWithin(entries, q, e, SizeOf, budget, MAX_ENTRIES)
  }

  /** The entry with its charts redrawn: everything else, its age included, is as it was. */
  function Redrawn(e: CacheEntry, charts: seq<ChartSpec>, sizeBytes: nat): CacheEntry
  {
    e.(payload := e.payload.(charts := charts), sizeBytes := sizeBytes)
  }

  function AfterPatch(entries: Entries, q: string, build: seq<string> -> Option<seq<ChartSpec>>,
                      measure: Payload -> nat): Entries
  {
    var found := Get(entries, q);
    if found.None? then entries
    else
      var charts := build(found.value.payload.columns);
      if charts.None? then Remove(entries, q)
      else Replace(entries, q, Redrawn(found.value, charts.value, measure(found.value.payload.(charts := charts.value))))
  }

  /** Sizes are honest: every entry weighs what its payload measures. */
  ghost predicate Measured(entries: Entries, measure: Payload -> nat)
  {
    forall i :: 0 <= i < |entries| ==> entries[i].1.sizeBytes == measure(entries[i].1.payload)
  }

  // --- the cache in place ---------------------------------------------------------

  class Cache {
    const measure: Payload -> nat
    const budget: nat
    const graceMs: nat
    const rendered: RenderedCache.Cache
    var entries: Entries
    var totalBytes: int

    /** The byte counter equals the sum of the held sizes, and there are at most 256 entries, one per query.
        The byte budget is not part of it: redrawing may exceed it until the next store. */
    ghost predicate Valid()
      reads this, rendered
    {
      && Distinct(entries) && |entries| <= MAX_ENTRIES && totalBytes == Sum(entries, SizeOf)
      && Measured(entries, measure) && rendered.Valid()
    }

    constructor (measure: Payload -> nat, budget: nat, graceMs: nat, rendered: RenderedCache.Cache)
      requires rendered.Valid()
      ensures Valid() && entries == []
      ensures this.measure == measure && this.budget == budget && this.graceMs == graceMs && this.rendered == rendered
    {
      this.measure, this.budget, this.graceMs, this.rendered := measure, budget, graceMs, rendered;
      entries, totalBytes := [], 0;
    }

    /** `get`: the entry while it is fresh. A stale one is left in place. */
    method Lookup(q: string, now: Reading) returns (r: Option<CacheEntry>)
      requires Valid()
      modifies this
      ensures Valid()
      ensures entries == AfterGet(old(entries), q, now)
      ensures r == (var found := Get(old(entries), q);
                    if found.Some? && AgeMs(found.value, now) < found.value.ttlMs then found else None)
      ensures entries == if r.Some? then Touch(old(entries), q) else old(entries)
    {
      r := Get(entries, q);
      if r.None? || !IsFresh(r.value, now) {
        return None;
      }
      TouchChangesOrderOnly(entries, q, SizeOf, q);
      TouchStaysMeasured(entries, q, measure);
      entries := Put(entries, q, r.value);
    }

    /** `get_stale`: the entry even past its TTL; past the grace window it is dropped. */
    method LookupStale(q: string, now: Reading) returns (r: Option<CacheEntry>)
      requires Valid()
      modifies this
      ensures Valid()
      ensures entries == AfterGetStale(old(entries), q, now, graceMs)
      ensures r == (var found := Get(old(entries), q);
                    if found.Some? && AgeMs(found.value, now) <= found.value.ttlMs + graceMs then found else None)
      ensures entries == if r.Some? then Touch(old(entries), q) else Remove(old(entries), q)
    {
      r := Get(entries, q);
      if r.None? {
        RemoveCounts(entries, q);
        return;
      }
      if !IsServable(r.value, now, graceMs) {
        Drop(q);
        return None;
      }
      TouchChangesOrderOnly(entries, q, SizeOf, q);
      TouchStaysMeasured(entries, q, measure);
      entries := Put(entries, q, r.value);
    }

    /** `_drop_locked`. */
    method Drop(q: string)
      requires Valid()
      modifies this
      ensures Valid() && entries == Remove(old(entries), q)
    {
      var found := Get(entries, q);
      RemoveWeighs(entries, q, SizeOf);
      RemoveKeepsDistinct(entries, q);
      RemoveStaysMeasured(entries, q, measure);
      entries := Remove(entries, q);
      if found.Some? {
        totalBytes := totalBytes - found.value.sizeBytes;
      }
    }

    /** `set`: cache a payload, making room from the oldest end. A payload over the whole budget is returned
        but not kept, and what the query held before is gone. */
    method Set(q: string, dataHash: string, payload: Payload, ttlMs: nat, now: Reading) returns (e: CacheEntry)
      requires Valid()
      modifies this
      ensures Valid()
      ensures e == CacheEntry(dataHash, payload, now, ttlMs, measure(payload))
      ensures entries == AfterSet(old(entries), q, e, budget) == StoreWithin(old(entries), q, e, SizeOf, budget, 256)
      ensures |entries| <= 256 && Get(entries, q) == if e.sizeBytes > budget then None else Some(e)
    {
      e := CacheEntry(dataHash, payload, now, ttlMs, measure(payload));
      SetStaysMeasured(entries, q, e, budget, measure);
      SetStaysSmall(entries, q, e, budget);
      SetLookup(entries, q, e, budget);
      entries, totalBytes := StoreCounted(entries, totalBytes, q, e, SizeOf, budget, MAX_ENTRIES);
    }

    /** `invalidate`: drop the entry and every response rendered from it. */
    method Invalidate(q: string)
      requires Valid()
      modifies this, rendered
      ensures Valid() && entries == Remove(old(entries), q)
      ensures forall j :: Get(entries, j) == if j == q then None else Get(old(entries), j)
      ensures rendered.entries == RenderedCache.WithoutPrefix(old(rendered.entries), q + ['|'])
    {
      LookupsAfterRemove(entries, q);
      Drop(q);
      rendered.InvalidateQuery(q);
    }

    /** `patch_charts`: redraw the charts inside a cached result. `build` gives None where the source raises;
        then the entry is dropped. */
    method PatchCharts(q: string, build: seq<string> -> Option<seq<ChartSpec>>) returns (patched: bool)
      requires Valid()
      modifies this, rendered
      ensures Valid() && entries == AfterPatch(old(entries), q, build, measure)
      ensures patched <==> Get(old(entries), q).Some? && build(Get(old(entries), q).value.payload.columns).Some?
      ensures rendered.entries == RenderedCache.WithoutPrefix(old(rendered.entries), q + ['|'])
    {
      patched := false;
      var found := Get(entries, q);
      if found.Some? {
        var charts := build(found.value.payload.columns);
        if charts.None? {
          Drop(q);
        } else {
          var payload := found.value.payload.(charts := charts.value);
          var sizeBytes := measure(payload);
          var redrawn := Redrawn(found.value, charts.value, sizeBytes);
          ReplaceWeighs(entries, q, redrawn, SizeOf);
          ReplaceStaysMeasured(entries, q, redrawn, measure);
          entries := Replace(entries, q, redrawn);
          totalBytes := totalBytes + sizeBytes - found.value.sizeBytes;
          patched := true;
        }
      }
      rendered.InvalidateQuery(q);
    }
  }

  // --- what every operation keeps ------------------------------------------------------

  lemma RemoveStaysMeasured(entries: Entries, q: string, measure: Payload -> nat)
    requires Measured(entries, measure)
    ensures Measured(Remove(entries, q), measure) && |Remove(entries, q)| <= |entries|
  {
  }

  lemma TouchStaysMeasured(entries: Entries, q: string, measure: Payload -> nat)
    requires Measured(entries, measure)
    ensures Measured(Touch(entries, q), measure)
  {
  }

  lemma SetStaysMeasured(entries: Entries, q: string, e: CacheEntry, budget: nat, measure: Payload -> nat)
    requires Measured(entries, measure) && e.sizeBytes == measure(e.payload)
    ensures Measured(AfterSet(entries, q, e, budget), measure)
  {
    RemoveStaysMeasured(entries, q, measure);
  }

  lemma SetLookup(entries: Entries, q: string, e: CacheEntry, budget: nat)
    requires Distinct(entries)
    ensures Get(AfterSet(entries, q, e, budget), q) == if e.sizeBytes > budget then None else Some(e)
  {
    StoredLookup(entries, q, e, SizeOf, budget, MAX_ENTRIES);
  }

  lemma SetStaysSmall(entries: Entries, q: string, e: CacheEntry, budget: nat)
    requires |entries| <= MAX_ENTRIES
    ensures |AfterSet(entries, q, e, budget)| <= MAX_ENTRIES
  {
  }

  lemma {:induction false} ReplaceStaysMeasured(entries: Entries, q: string, e: CacheEntry, measure: Payload -> nat)
    requires Measured(entries, measure) && e.sizeBytes == measure(e.payload)
    ensures Measured(Replace(entries, q, e), measure)
    ensures Distinct(entries) ==> Distinct(Replace(entries, q, e))
  {
    if entries != [] && entries[0].0 != q {
      ReplaceStaysMeasured(entries[1..], q, e, measure);
    }
  }

  /** Redrawing keeps an entry's moment of storing, its TTL, its hash, rows and flags, and every other entry:
      it never makes a result younger. */
  lemma PatchKeepsAge(entries: Entries, q: string, build: seq<string> -> Option<seq<ChartSpec>>,
                      measure: Payload -> nat, j: string, now: Reading)
    requires Distinct(entries)
    ensures var before, after := Get(entries, j), Get(AfterPatch(entries, q, build, measure), j);
            && (j != q ==> after == before)
            && (after.Some? ==>
                  && before.Some? && AgeMs(after.value, now) == AgeMs(before.value, now)
                  && after.value.ttlMs == before.value.ttlMs && after.value.dataHash == before.value.dataHash
                  && after.value.payload == before.value.payload.(charts := after.value.payload.charts))
            && (j == q && before.Some? ==>
                  var charts := build(before.value.payload.columns);
                  && (after.Some? <==> charts.Some?)
                  && (after.Some? ==> after.value.payload.charts == charts.value
                                      && after.value.sizeBytes == measure(after.value.payload)))
  {
    var found := Get(entries, q);
    if found.Some? {
      var charts := build(found.value.payload.columns);
      if charts.None? {
        GetAfterRemove(entries, q, j);
      } else {
        var sizeBytes := measure(found.value.payload.(charts := charts.value));
        GetAfterReplace(entries, q, Redrawn(found.value, charts.value, sizeBytes), j);
      }
    }
  }

  /** Redrawing leaves the cache within its budget exactly when the larger charts still fit, and evicts nothing to
      make them; the next entry that is kept brings the cache back within it. */
  lemma OverBudgetUntilTheNextStore(entries: Entries, q: string, build: seq<string> -> Option<seq<ChartSpec>>,
                                    measure: Payload -> nat, budget: nat, next: string, e: CacheEntry)
    requires Get(entries, q).Some? && build(Get(entries, q).value.payload.columns).Some?
    requires e.sizeBytes <= budget
    ensures var was, after := Get(entries, q).value, AfterPatch(entries, q, build, measure);
            var grown := measure(was.payload.(charts := build(was.payload.columns).value)) - was.sizeBytes;
            && |after| == |entries|
            && (Sum(after, SizeOf) <= budget <==> Sum(entries, SizeOf) <= budget - grown)
            && Sum(AfterSet(after, next, e, budget), SizeOf) <= budget
  {
    var was := Get(entries, q).value;
    var charts := build(was.payload.columns).value;
    ReplaceWeighs(entries, q, Redrawn(was, charts, measure(was.payload.(charts := charts))), SizeOf);
  }
}
