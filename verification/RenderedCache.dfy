/** The cache of encoded poll responses. JSON encoding and gzip are uninterpreted functions. */
module RenderedCache {
  import opened Wrappers
  import opened Strings
  import opened OrderedDict
  import opened Payloads

  const MAX_ENTRIES: nat := 256
  const MIN_COMPRESS_BYTES: nat := 1024

  type Bytes = seq<bv8>

  datatype Rendered = Rendered(body: Bytes, compressed: bool)

  /** JSON encoding and gzip, which this model does not look inside. */
  datatype Codec = Codec(dumps: Body -> Bytes, gzip: Bytes -> Bytes)

  function SizeOf(r: Rendered): nat { |r.body| }

  // --- keys -----------------------------------------------------------------

  function KeyFor(queryId: string, dataHash: string, pollIntervalMs: int, fromCache: bool, executedAt: int): string
  {
    queryId + ['|'] + (dataHash + ['|'] + (IntToString(pollIntervalMs) + ['|']
    + ((if fromCache then "1" else "0") + ['|'] + IntToString(executedAt))))
  }

  function KeyOf(queryId: string, body: Body): string
  {
    KeyFor(queryId, body.payload.dataHash, body.payload.pollIntervalMs, body.fromCache, body.payload.executedAt)
  }

  /** Fields without the separator can be read back from a key. */
  lemma KeyForInjective(q: string, h: string, i: int, c: bool, t: int, q': string, h': string, i': int, c': bool, t': int)
    requires '|' !in q && '|' !in h && '|' !in q' && '|' !in h'
    requires KeyFor(q, h, i, c, t) == KeyFor(q', h', i', c', t')
    ensures q == q' && h == h' && i == i' && c == c' && t == t'
  {
    var f, f' := if c then "1" else "0", if c' then "1" else "0";
    var z, z' := f + ['|'] + IntToString(t), f' + ['|'] + IntToString(t');
    var y, y' := IntToString(i) + ['|'] + z, IntToString(i') + ['|'] + z';
    SplitAtSeparator(q, h + ['|'] + y, q', h' + ['|'] + y', '|');
    SplitAtSeparator(h, y, h', y', '|');
    SplitAtSeparator(IntToString(i), z, IntToString(i'), z', '|');
    SplitAtSeparator(f, IntToString(t), f', IntToString(t'), '|');
    IntToStringInjective(i, i');
    IntToStringInjective(t, t');
  }

  /** Two bodies share a key only with the same hash, interval, origin and moment of execution. */
  lemma KeyOfNamesTheBody(q: string, b: Body, q': string, b': Body)
    requires '|' !in q && '|' !in q' && '|' !in b.payload.dataHash && '|' !in b'.payload.dataHash
    ensures KeyOf(q, b) == KeyOf(q', b')
            <==> q == q' && b.fromCache == b'.fromCache && b.payload.dataHash == b'.payload.dataHash
                 && b.payload.pollIntervalMs == b'.payload.pollIntervalMs && b.payload.executedAt == b'.payload.executedAt
  {
    if KeyOf(q, b) == KeyOf(q', b') {
      KeyForInjective(q, b.payload.dataHash, b.payload.pollIntervalMs, b.fromCache, b.payload.executedAt,
                      q', b'.payload.dataHash, b'.payload.pollIntervalMs, b'.fromCache, b'.payload.executedAt);
    }
  }

  /** A key starts with one query's prefix and no other's. */
  lemma PrefixIsQuery(q: string, queryId: string, h: string, i: int, c: bool, t: int)
    requires '|' !in q && '|' !in queryId
    ensures q + ['|'] <= KeyFor(queryId, h, i, c, t) <==> q == queryId
  {
    var key := KeyFor(queryId, h, i, c, t);
    if q + ['|'] <= key {
      SplitAtSeparator(q, key[|q| + 1..], queryId, key[|queryId| + 1..], '|');
    }
  }

  // --- the cache on values ---------------------------------------------------

  function Render(codec: Codec, body: Body): Rendered
  {
    var raw := codec.dumps(body);
    if |raw| < MIN_COMPRESS_BYTES then Rendered(raw, false) else Rendered(codec.gzip(raw), true)
  }

  function Stored(entries: seq<(string, Rendered)>, key: string, r: Rendered, budget: nat): seq<(string, Rendered)>
  {
    StoreWithin(entries, key, r, SizeOf, budget, MAX_ENTRIES)
  }

  function WithoutPrefix(entries: seq<(string, Rendered)>, prefix: string): seq<(string, Rendered)>
  {
    Filter(entries, (key: string) => !(prefix <= key))
  }

  // --- the cache in place ------------------------------------------------------

  class Cache {
    const codec: Codec
    const budget: nat
    var entries: seq<(string, Rendered)>
    var totalBytes: int
    var hits: nat
    var misses: nat

    /** The byte counter is exact, the entries are few, keys are not repeated, and the budget holds. */
    ghost predicate Valid()
      reads this
    {
      Distinct(entries) && totalBytes == Sum(entries, SizeOf) && Fits(entries, SizeOf, budget, MAX_ENTRIES)
    }

    constructor (codec: Codec, budget: nat)
      ensures Valid() && entries == [] && hits == 0 && misses == 0
      ensures this.codec == codec && this.budget == budget
    {
      this.codec, this.budget := codec, budget;
      entries, totalBytes, hits, misses := [], 0, 0, 0;
    }

    method Lookup(key: string) returns (found: Option<Rendered>)
      requires Valid()
      modifies this
      ensures Valid()
      ensures found == Get(old(entries), key) && entries == Touch(old(entries), key)
      ensures hits + misses == old(hits) + old(misses) + 1
      ensures hits == old(hits) + (if found.Some? then 1 else 0)
    {
      found := Get(entries, key);
      if found.None? {
        misses := misses + 1;
        return;
      }
      hits := hits + 1;
      TouchChangesOrderOnly(entries, key, SizeOf, key);
      entries := Put(entries, key, found.value);
    }

    /** `store`: hold a response, then drop from the oldest end until the rest fits. A response larger than the
        whole budget is handed back unstored, and its old entry is gone. */
    method Store(key: string, rendered: Rendered) returns (r: Rendered)
      requires Valid()
      modifies this
      ensures Valid()
      ensures r == rendered && entries == Stored(old(entries), key, rendered, budget)
      ensures entries == StoreWithin(old(entries), key, rendered, SizeOf, budget, 256)
      ensures Get(entries, key) == if |rendered.body| > budget then None else Some(rendered)
      ensures hits == old(hits) && misses == old(misses)
    {
      StoredFits(entries, key, rendered, budget);
      StoredLookup(entries, key, rendered, SizeOf, budget, MAX_ENTRIES);
      entries, totalBytes := StoreCounted(entries, totalBytes, key, rendered, SizeOf, budget, MAX_ENTRIES);
      r := rendered;
    }

    /** `get_or_render`: the held bytes, or freshly rendered ones that are then held. */
    method GetOrRender(key: string, body: Body) returns (r: Rendered)
      requires Valid()
      modifies this
      ensures Valid()
      ensures Get(old(entries), key).Some? ==>
                r == Get(old(entries), key).value && entries == Touch(old(entries), key)
      ensures Get(old(entries), key).None? ==>
                && r == (var raw := codec.dumps(body);
                         if |raw| < 1024 then Rendered(raw, false) else Rendered(codec.gzip(raw), true))
                && r == Render(codec, body) && entries == Stored(old(entries), key, r, budget)
    {
      var found := Lookup(key);
      if found.Some? {
        return found.value;
      }
      r := Store(key, Render(codec, body));
    }

    /** `invalidate_query`: drop every response of one query. */
    method InvalidateQuery(queryId: string)
      requires Valid()
      modifies this
      ensures Valid()
      ensures entries == WithoutPrefix(old(entries), queryId + ['|'])
      ensures forall k :: Get(entries, k) == if queryId + ['|'] <= k then None else Get(old(entries), k)
      ensures hits == old(hits) && misses == old(misses)
    {
      var prefix := queryId + ['|'];
      FilterKeepsDistinct(entries, (key: string) => !(prefix <= key));
      FilterWeighsLess(entries, (key: string) => !(prefix <= key), SizeOf);
      WithoutPrefixLookups(entries, prefix);
      entries, totalBytes := DropPrefix(entries, totalBytes, prefix);
    }
  }

  lemma WithoutPrefixLookups(entries: seq<(string, Rendered)>, prefix: string)
    requires Distinct(entries)
    ensures forall k :: Get(WithoutPrefix(entries, prefix), k) == if prefix <= k then None else Get(entries, k)
  {
    forall k ensures Get(WithoutPrefix(entries, prefix), k) == if prefix <= k then None else Get(entries, k) {
      GetAfterFilter(entries, (key: string) => !(prefix <= key), k);
    }
  }

  /** The loop over the keys that start with a prefix, giving back the bytes of each. */
  method DropPrefix(entries: seq<(string, Rendered)>, total: int, prefix: string)
    returns (kept: seq<(string, Rendered)>, left: int)
    requires total == Sum(entries, SizeOf)
    ensures kept == WithoutPrefix(entries, prefix) && left == Sum(kept, SizeOf)
  {
    kept, left := [], total;
    for n := 0 to |entries|
      invariant kept + WithoutPrefix(entries[n..], prefix) == WithoutPrefix(entries, prefix)
      invariant left == Sum(kept, SizeOf) + Sum(entries[n..], SizeOf)
    {
      var (key, r) := entries[n];
      assert entries[n..][1..] == entries[n + 1..];
      if prefix <= key {
        left := left - SizeOf(r);
      } else {
        SumAppend(kept, [entries[n]], SizeOf);
        kept := kept + [entries[n]];
      }
    }
    assert entries[|entries|..] == [];
  }

  lemma StoredFits(entries: seq<(string, Rendered)>, key: string, r: Rendered, budget: nat)
    requires Distinct(entries) && Fits(entries, SizeOf, budget, MAX_ENTRIES)
    ensures Fits(Stored(entries, key, r, budget), SizeOf, budget, MAX_ENTRIES)
  {
    RemoveWeighs(entries, key, SizeOf);
  }
}
