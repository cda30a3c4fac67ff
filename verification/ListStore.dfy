/** Named lists: saving one, and the cache of member sets that lookups share under any interleaving. */
module ListStore {
  import opened Wrappers
  import opened OrderedDict
  import opened ListMatching
  import ResultCache

  const MAX_CACHED_LISTS: nat := 32

  datatype ListRow = ListRow(name: string, nameKey: string, description: Option<string>, version: int, items: seq<string>)

  datatype ListError = NoName | TooMany(received: nat) | NameTaken

  /** How many items were received, and how many were kept. */
  datatype SaveReport = SaveReport(received: nat, kept: nat)

  type CacheKey = (string, int)

  function NoWeight(m: set<Member>): nat { 0 }

  /** Assign under the key, move it to the newest end, then pop the oldest while more than 32 are held. */
  method Stored(held: seq<(CacheKey, set<Member>)>, key: CacheKey, members: set<Member>)
    returns (kept: seq<(CacheKey, set<Member>)>)
    requires Distinct(held)
    ensures kept == StoreWithin(held, key, members, NoWeight, 0, MAX_CACHED_LISTS)
    ensures Distinct(kept) && |kept| <= MAX_CACHED_LISTS && Get(kept, key) == Some(members)
  {
    StoringEndsWithinBudget(held, key, members, NoWeight, 0, MAX_CACHED_LISTS);
    PutKeepsDistinct(held, key, members);
    var left;
    NothingWeighs(Put(held, key, members));
    kept, left := EvictOldest(Put(held, key, members), 0, NoWeight, 0, MAX_CACHED_LISTS);
  }

  // --- the member-set cache ---------------------------------------------------------------

  /** `cached_members`: an OrderedDict bounded to 32 sets, keyed by list and version. */
  class MemberCache {
    var entries: seq<(CacheKey, set<Member>)>

    ghost predicate Valid()
      reads this
    {
      Distinct(entries) && |entries| <= MAX_CACHED_LISTS
    }

    constructor ()
      ensures Valid() && entries == []
    {
      entries := [];
    }

    /** The first lock section: a hit is moved to the newest end. */
    method Consult(key: CacheKey) returns (hit: Option<set<Member>>)
      requires Valid()
      modifies this
      ensures Valid() && hit == Get(old(entries), key) && entries == Touch(old(entries), key)
    {
      hit := Get(entries, key);
      if hit.Some? {
        TouchChangesOrderOnly(entries, key, NoWeight, key);
        entries := Put(entries, key, hit.value);
      }
    }

    /** The second lock section: remember, then drop the oldest beyond 32. */
    method Remember(key: CacheKey, members: set<Member>)
      requires Valid()
      modifies this
      ensures Valid() && entries == StoreWithin(old(entries), key, members, NoWeight, 0, 32)
      ensures Get(entries, key) == Some(members)
    {
      entries := Stored(entries, key, members);
    }

    /** The whole lookup when nobody interleaves; `items` is what loading the list gives. */
    method CachedMembers(ops: TextOps, list: string, version: int, items: seq<string>) returns (members: set<Member>)
      requires Valid() && Lawful(ops)
      modifies this
      ensures Valid()
      ensures members == if Get(old(entries), (list, version)).Some? then Get(old(entries), (list, version)).value
                         else MembersOf(ops, items)
    {
      var hit := Consult((list, version));
      if hit.Some? {
        return hit.value;
      }
      members := MembersFromItems(ops, items);
      Remember((list, version), members);
    }
  }

  lemma {:induction false} NothingWeighs(d: seq<(CacheKey, set<Member>)>)
    ensures Sum(d, NoWeight) == 0
  {
    if d != [] {
      NothingWeighs(d[1..]);
    }
  }

  // --- saving a list ------------------------------------------------------------------------

  /** No two lists share a name key. */
  ghost predicate UniqueNames(rows: map<string, ListRow>)
  {
    forall a, b :: a in rows && b in rows && rows[a].nameKey == rows[b].nameKey ==> a == b
  }

  class Lists {
    const ops: TextOps
    const nameKey: string -> string
    const limit: nat
    const results: ResultCache.Cache
    var rows: map<string, ListRow>

    ghost predicate Valid()
      reads this, results, results.rendered
    {
      Lawful(ops) && UniqueNames(rows) && results.Valid()
    }

    constructor (ops: TextOps, nameKey: string -> string, limit: nat, results: ResultCache.Cache)
      requires Lawful(ops) && results.Valid()
      ensures Valid() && rows == map[]
      ensures this.ops == ops && this.nameKey == nameKey && this.limit == limit && this.results == results
    {
      this.ops, this.nameKey, this.limit, this.results := ops, nameKey, limit, results;
      rows := map[];
    }

    /** `update_list`: replace name, description and items under the next version, then drop every cached result
        of the queries in `using`, whose rules read the list. A refused save changes nothing. */
    method UpdateList(id: string, name: string, description: string, items: seq<string>, using: seq<string>)
      returns (r: Result<SaveReport, ListError>)
      requires Valid() && id in rows
      modifies this`rows, results, results.rendered
      ensures Valid()
      ensures r.Err? ==> rows == old(rows) && results.entries == old(results.entries)
      ensures r.Err? <==> || ops.strip(name) == "" || |items| > limit
                          || exists other :: other in old(rows) && other != id && old(rows)[other].nameKey == nameKey(ops.strip(name))
      ensures r.Ok? ==>
                && rows.Keys == old(rows).Keys && (forall other :: other in rows && other != id ==> rows[other] == old(rows)[other])
                && rows[id].name == ops.strip(name) && rows[id].nameKey == nameKey(ops.strip(name))
                && rows[id].description == (if ops.strip(description) == "" then None else Some(ops.strip(description)))
                && rows[id].version == old(rows)[id].version + 1
                && rows[id].items == Cleaned(ops, items) && MembersOf(ops, rows[id].items) == MembersOf(ops, items)
                && r.value == SaveReport(|items|, |rows[id].items|)
      ensures r.Ok? ==> NoneHeld(results.entries, using) && OthersStay(old(results.entries), results.entries, using)
    {
      var trimmed := ops.strip(name);
      if trimmed == "" {
        return Err(NoName);
      }
      var cleaned := CleanItems(ops, items, limit);
      if cleaned.Err? {
        return Err(TooMany(cleaned.error));
      }
      if exists other :: other in rows && other != id && rows[other].nameKey == nameKey(trimmed) {
        return Err(NameTaken);
      }
      var text := ops.strip(description);
      rows := rows[id := ListRow(trimmed, nameKey(trimmed), if text == "" then None else Some(text),
                                 rows[id].version + 1, cleaned.value)];
      DropResults(using);
      r := Ok(SaveReport(|items|, |cleaned.value|));
    }

    method DropResults(using: seq<string>)
      requires results.Valid()
      modifies results, results.rendered
      ensures results.Valid()
      ensures NoneHeld(results.entries, using) && OthersStay(old(results.entries), results.entries, using)
    {
      for n := 0 to |using|
        invariant results.Valid()
        invariant NoneHeld(results.entries, using[..n]) && OthersStay(old(results.entries), results.entries, using[..n])
      {
        RemovedToo(old(results.entries), results.entries, using[..n], using[n]);
        assert using[..n + 1] == using[..n] + [using[n]];
        results.Invalidate(using[n]);
      }
      assert using[..|using|] == using;
    }
  }

  ghost predicate NoneHeld<V>(d: seq<(string, V)>, ids: seq<string>)
  {
    forall k :: 0 <= k < |ids| ==> Get(d, ids[k]).None?
  }

  /** Whatever is held under any other id is held still. */
  ghost predicate OthersStay<V>(was: seq<(string, V)>, now: seq<(string, V)>, ids: seq<string>)
  {
    forall id :: id !in ids ==> Get(now, id) == Get(was, id)
  }

  lemma RemovedToo<V>(was: seq<(string, V)>, now: seq<(string, V)>, ids: seq<string>, id: string)
    requires Distinct(now) && NoneHeld(now, ids) && OthersStay(was, now, ids)
    ensures NoneHeld(Remove(now, id), ids + [id]) && OthersStay(was, Remove(now, id), ids + [id])
  {
    forall k | 0 <= k <= |ids| ensures Get(Remove(now, id), (ids + [id])[k]).None? {
      GetAfterRemove(now, id, (ids + [id])[k]);
    }
    forall other | other !in ids + [id] ensures Get(Remove(now, id), other) == Get(was, other) {
      GetAfterRemove(now, id, other);
    }
  }
}
