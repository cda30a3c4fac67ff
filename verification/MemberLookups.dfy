/** Lookups of member sets interleaved with list saves. A lookup reads the list's version, consults the cache,
    loads the items and stores the set in four separate steps; anything may happen between them. */
module MemberLookups {
  import opened Wrappers
  import opened OrderedDict
  import opened ListMatching
  import opened ListStore

  /** A stored list, with every submission it ever received, oldest first, before cleaning. */
  datatype Stored = Stored(version: int, items: seq<string>, submitted: seq<seq<string>>)

  datatype Lookup =
    | Read(list: string, version: int)
    | Missed(list: string, version: int)
    | Loaded(list: string, version: int, items: seq<string>)
    | Done(list: string, version: int, members: set<Member>)

  datatype State = State(lists: map<string, Stored>, lookups: map<nat, Lookup>, cache: seq<(CacheKey, set<Member>)>)

  datatype Step =
    | Create(id: string, items: seq<string>)
    | Save(id: string, items: seq<string>)
    | ReadVersion(p: nat, id: string)
    | Consult(p: nat)
    | Load(p: nat)
    | Store(p: nat)
    | ClearCache

  const Empty := State(map[], map[], [])

  /** What a save makes of a stored list. */
  ghost function Saved(ops: TextOps, was: Stored, items: seq<string>): Stored
    requires Lawful(ops)
  {
    Stored(was.version + 1, Cleaned(ops, items), was.submitted + [items])
  }

  /** One step; a step that is not possible in `s` changes nothing. */
  ghost function After(ops: TextOps, s: State, step: Step): State
    requires Lawful(ops)
  {
    match step
    case Create(id, items) =>
      if id in s.lists then s else s.(lists := s.lists[id := Stored(1, Cleaned(ops, items), [items])])
    case Save(id, items) =>
      if id !in s.lists then s else
      s.(lists := s.lists[id := Saved(ops, s.lists[id], items)])
    case ReadVersion(p, id) =>
      if id !in s.lists then s else s.(lookups := s.lookups[p := Read(id, s.lists[id].version)])
    case Consult(p) =>
      if p !in s.lookups || !s.lookups[p].Read? then s else
      var l := s.lookups[p];
      var hit := Get(s.cache, (l.list, l.version));
      s.(lookups := s.lookups[p := if hit.Some? then Done(l.list, l.version, hit.value) else Missed(l.list, l.version)],
         cache := Touch(s.cache, (l.list, l.version)))
    case Load(p) =>
      if p !in s.lookups || !s.lookups[p].Missed? || s.lookups[p].list !in s.lists then s else
      var l := s.lookups[p];
      s.(lookups := s.lookups[p := Loaded(l.list, l.version, s.lists[l.list].items)])
    case Store(p) =>
      if p !in s.lookups || !s.lookups[p].Loaded? then s else
      var l := s.lookups[p];
      var members := MembersOf(ops, l.items);
      s.(lookups := s.lookups[p := Done(l.list, l.version, members)],
         cache := StoreWithin(s.cache, (l.list, l.version), members, NoWeight, 0, MAX_CACHED_LISTS))
    case ClearCache => s.(cache := [])
  }

  ghost function Run(ops: TextOps, steps: seq<Step>): State
    requires Lawful(ops)
  {
    if steps == [] then Empty else After(ops, Run(ops, steps[..|steps| - 1]), steps[|steps| - 1])
  }

  // --- what every step keeps ----------------------------------------------------------------

  /** `members` is what one submission matched, and that submission is version `v` or a later one. */
  ghost predicate BuiltFrom(ops: TextOps, lists: map<string, Stored>, list: string, v: int, members: set<Member>)
  {
    list in lists && 1 <= v && exists w :: v <= w && Matches(ops, lists[list], w, members)
  }

  /** What version `w` of the list matches, as it was submitted, repeats and all. */
  ghost function Exact(ops: TextOps, l: Stored, w: int): set<Member>
    requires 1 <= w <= |l.submitted|
  {
    MembersOf(ops, l.submitted[w - 1])
  }

  /** `members` is what version `w` of the list, as submitted, matches. */
  ghost predicate Matches(ops: TextOps, l: Stored, w: int, members: set<Member>)
  {
    1 <= w <= |l.submitted| && members == Exact(ops, l, w)
  }

  ghost predicate StoredWell(ops: TextOps, l: Stored)
    requires Lawful(ops)
  {
    l.submitted != [] && l.version == |l.submitted| && l.items == Cleaned(ops, l.submitted[|l.submitted| - 1])
  }

  ghost predicate LookupWell(ops: TextOps, lists: map<string, Stored>, l: Lookup)
  {
    match l
    case Read(list, v) => list in lists && 1 <= v <= lists[list].version
    case Missed(list, v) => list in lists && 1 <= v <= lists[list].version
    case Loaded(list, v, items) => BuiltFrom(ops, lists, list, v, MembersOf(ops, items))
    case Done(list, v, members) => BuiltFrom(ops, lists, list, v, members)
  }

  ghost predicate ListsWell(ops: TextOps, lists: map<string, Stored>)
    requires Lawful(ops)
  {
    forall id :: id in lists ==> StoredWell(ops, lists[id])
  }

  ghost predicate LookupsWell(ops: TextOps, lists: map<string, Stored>, lookups: map<nat, Lookup>)
  {
    forall p :: p in lookups ==> LookupWell(ops, lists, lookups[p])
  }

  ghost predicate CacheWell(ops: TextOps, lists: map<string, Stored>, cache: seq<(CacheKey, set<Member>)>)
  {
    forall n :: 0 <= n < |cache| ==> EntryWell(ops, lists, cache[n])
  }

  ghost predicate EntryWell(ops: TextOps, lists: map<string, Stored>, e: (CacheKey, set<Member>))
  {
    BuiltFrom(ops, lists, e.0.0, e.0.1, e.1)
  }

  ghost predicate Inv(ops: TextOps, s: State)
    requires Lawful(ops)
  {
    && ListsWell(ops, s.lists) && LookupsWell(ops, s.lists, s.lookups)
    && CacheWell(ops, s.lists, s.cache) && Distinct(s.cache) && |s.cache| <= MAX_CACHED_LISTS
  }

  /** `now` holds every list of `was`, with at least the same submissions. */
  ghost predicate Grows(was: map<string, Stored>, now: map<string, Stored>)
  {
    forall id :: id in was ==>
      && id in now && was[id].version <= now[id].version && |was[id].submitted| <= |now[id].submitted|
      && now[id].submitted[..|was[id].submitted|] == was[id].submitted
  }

  lemma BuiltFromGrows(ops: TextOps, was: map<string, Stored>, now: map<string, Stored>, list: string, v: int, m: set<Member>)
    requires Grows(was, now) && BuiltFrom(ops, was, list, v, m)
    ensures BuiltFrom(ops, now, list, v, m)
  {
    var w :| v <= w && Matches(ops, was[list], w, m);
    assert now[list].submitted[w - 1] == was[list].submitted[w - 1];
    assert Matches(ops, now[list], w, m);
  }

  lemma LookupGrows(ops: TextOps, was: map<string, Stored>, now: map<string, Stored>, l: Lookup)
    requires Grows(was, now) && LookupWell(ops, was, l)
    ensures LookupWell(ops, now, l)
  {
    match l
    case Loaded(list, v, items) => BuiltFromGrows(ops, was, now, list, v, MembersOf(ops, items));
    case Done(list, v, members) => BuiltFromGrows(ops, was, now, list, v, members);
    case _ =>
  }

  lemma WritingKeepsInv(ops: TextOps, s: State, id: string, l: Stored)
    requires Lawful(ops) && Inv(ops, s) && StoredWell(ops, l) && Grows(s.lists, s.lists[id := l])
    ensures Inv(ops, s.(lists := s.lists[id := l]))
  {
    var now := s.lists[id := l];
    forall p | p in s.lookups ensures LookupWell(ops, now, s.lookups[p]) {
      LookupGrows(ops, s.lists, now, s.lookups[p]);
    }
    forall n | 0 <= n < |s.cache| ensures EntryWell(ops, now, s.cache[n]) {
      assert EntryWell(ops, s.lists, s.cache[n]);
      BuiltFromGrows(ops, s.lists, now, s.cache[n].0.0, s.cache[n].0.1, s.cache[n].1);
    }
  }

  lemma SavingGrows(lists: map<string, Stored>, id: string, items: seq<string>, kept: seq<string>)
    requires id in lists
    ensures Grows(lists, lists[id := Stored(lists[id].version + 1, kept, lists[id].submitted + [items])])
  {
  }

  /** What the stored items match is what the last submission matched. */
  lemma CurrentItems(ops: TextOps, lists: map<string, Stored>, list: string, v: int)
    requires Lawful(ops) && list in lists && StoredWell(ops, lists[list]) && 1 <= v <= lists[list].version
    ensures BuiltFrom(ops, lists, list, v, MembersOf(ops, lists[list].items))
  {
    CleanedMatchesTheSame(ops, lists[list].submitted[|lists[list].submitted| - 1]);
    assert Matches(ops, lists[list], lists[list].version, MembersOf(ops, lists[list].items));
  }

  lemma HitIsWell(ops: TextOps, s: State, key: CacheKey)
    requires CacheWell(ops, s.lists, s.cache) && Get(s.cache, key).Some?
    ensures BuiltFrom(ops, s.lists, key.0, key.1, Get(s.cache, key).value)
  {
  }

  lemma MovingKeepsInv(ops: TextOps, s: State, p: nat, l: Lookup, cache: seq<(CacheKey, set<Member>)>)
    requires Lawful(ops) && Inv(ops, s) && LookupWell(ops, s.lists, l)
    requires CacheWell(ops, s.lists, cache) && Distinct(cache) && |cache| <= MAX_CACHED_LISTS
    ensures Inv(ops, s.(lookups := s.lookups[p := l], cache := cache))
  {
  }

  lemma ConsultKeepsInv(ops: TextOps, s: State, p: nat)
    requires Lawful(ops) && Inv(ops, s) && p in s.lookups && s.lookups[p].Read?
    ensures Inv(ops, After(ops, s, Consult(p)))
  {
    var l := s.lookups[p];
    var key := (l.list, l.version);
    var hit := Get(s.cache, key);
    var found := if hit.Some? then Done(l.list, l.version, hit.value) else Missed(l.list, l.version);
    var next := s.(lookups := s.lookups[p := found], cache := Touch(s.cache, key));
    assert LookupWell(ops, s.lists, l);
    TouchKeepsWell(ops, s, key);
    if hit.Some? {
      HitIsWell(ops, s, key);
    }
    MovingKeepsInv(ops, s, p, found, Touch(s.cache, key));
    assert Inv(ops, next);
    assert After(ops, s, Consult(p)) == next by { ConsultIs(ops, s, p); }
  }

  lemma ConsultIs(ops: TextOps, s: State, p: nat)
    requires Lawful(ops) && p in s.lookups && s.lookups[p].Read?
    ensures var l := s.lookups[p];
            var key := (l.list, l.version);
            var hit := Get(s.cache, key);
            After(ops, s, Consult(p))
            == s.(lookups := s.lookups[p := if hit.Some? then Done(l.list, l.version, hit.value) else Missed(l.list, l.version)],
                  cache := Touch(s.cache, key))
  {
  }

  lemma TouchKeepsWell(ops: TextOps, s: State, key: CacheKey)
    requires CacheWell(ops, s.lists, s.cache) && Distinct(s.cache)
    ensures CacheWell(ops, s.lists, Touch(s.cache, key))
    ensures Distinct(Touch(s.cache, key)) && |Touch(s.cache, key)| == |s.cache|
  {
    TouchChangesOrderOnly(s.cache, key, NoWeight, key);
    if Get(s.cache, key).Some? {
      HitIsWell(ops, s, key);
      PuttingKeepsWell(ops, s.lists, s.cache, key, Get(s.cache, key).value);
    }
  }

  lemma PuttingKeepsWell(ops: TextOps, lists: map<string, Stored>, cache: seq<(CacheKey, set<Member>)>, key: CacheKey, m: set<Member>)
    requires CacheWell(ops, lists, cache) && BuiltFrom(ops, lists, key.0, key.1, m)
    ensures CacheWell(ops, lists, Put(cache, key, m))
  {
  }

  lemma StoreIs(ops: TextOps, s: State, p: nat)
    requires Lawful(ops) && p in s.lookups && s.lookups[p].Loaded?
    ensures var l := s.lookups[p];
            var members := MembersOf(ops, l.items);
            After(ops, s, Store(p))
            == s.(lookups := s.lookups[p := Done(l.list, l.version, members)],
                  cache := StoreWithin(s.cache, (l.list, l.version), members, NoWeight, 0, MAX_CACHED_LISTS))
  {
  }

  lemma StoreKeepsInv(ops: TextOps, s: State, p: nat)
    requires Lawful(ops) && Inv(ops, s) && p in s.lookups && s.lookups[p].Loaded?
    ensures Inv(ops, After(ops, s, Store(p)))
  {
    var l := s.lookups[p];
    var key, members := (l.list, l.version), MembersOf(ops, l.items);
    assert LookupWell(ops, s.lists, l);
    StoringKeepsWell(ops, s.lists, s.cache, key, members);
    var kept := StoreWithin(s.cache, key, members, NoWeight, 0, MAX_CACHED_LISTS);
    var next := s.(lookups := s.lookups[p := Done(l.list, l.version, members)], cache := kept);
    MovingKeepsInv(ops, s, p, Done(l.list, l.version, members), kept);
    assert Inv(ops, next);
    assert After(ops, s, Store(p)) == next by { StoreIs(ops, s, p); }
  }

  lemma StoringKeepsWell(ops: TextOps, lists: map<string, Stored>, cache: seq<(CacheKey, set<Member>)>, key: CacheKey, m: set<Member>)
    requires CacheWell(ops, lists, cache) && BuiltFrom(ops, lists, key.0, key.1, m) && Distinct(cache)
    ensures var kept := StoreWithin(cache, key, m, NoWeight, 0, MAX_CACHED_LISTS);
            CacheWell(ops, lists, kept) && Distinct(kept) && |kept| <= MAX_CACHED_LISTS
  {
    PuttingKeepsWell(ops, lists, cache, key, m);
    StoringKeepsOthers(cache, key, m, NoWeight, 0, MAX_CACHED_LISTS, key);
    var full, kept := Put(cache, key, m), StoreWithin(cache, key, m, NoWeight, 0, MAX_CACHED_LISTS);
    assert kept == Evict(full, NoWeight, 0, MAX_CACHED_LISTS);
    SuffixKeepsWell(ops, lists, full, |full| - |kept|);
  }

  lemma SuffixKeepsWell(ops: TextOps, lists: map<string, Stored>, cache: seq<(CacheKey, set<Member>)>, cut: nat)
    requires CacheWell(ops, lists, cache) && cut <= |cache|
    ensures CacheWell(ops, lists, cache[cut..])
  {
  }

  /** What the other steps of a lookup read: the list's version of that moment, and the items stored at that one. */
  lemma LookupsReadTheStore(ops: TextOps, s: State, p: nat, id: string, items: seq<string>)
    requires Lawful(ops)
    ensures id in s.lists ==> After(ops, s, ReadVersion(p, id)) == s.(lookups := s.lookups[p := Read(id, s.lists[id].version)])
    ensures p in s.lookups && s.lookups[p].Missed? && s.lookups[p].list in s.lists ==>
              var l := s.lookups[p];
              After(ops, s, Load(p)) == s.(lookups := s.lookups[p := Loaded(l.list, l.version, s.lists[l.list].items)])
    ensures id !in s.lists ==>
              After(ops, s, Create(id, items)) == s.(lists := s.lists[id := Stored(1, Cleaned(ops, items), [items])])
  {
  }

  lemma SaveKeepsInv(ops: TextOps, s: State, id: string, items: seq<string>)
    requires Lawful(ops) && Inv(ops, s) && id in s.lists
    ensures Inv(ops, After(ops, s, Save(id, items)))
  {
    var was := s.lists[id];
    assert StoredWell(ops, was);
    SavingGrows(s.lists, id, items, Cleaned(ops, items));
    SavedWell(ops, was, items);
    WritingKeepsInv(ops, s, id, Saved(ops, was, items));
    SaveIs(ops, s, id, items);
  }

  lemma SavedWell(ops: TextOps, was: Stored, items: seq<string>)
    requires Lawful(ops) && StoredWell(ops, was)
    ensures StoredWell(ops, Saved(ops, was, items))
  {
  }

  lemma SaveIs(ops: TextOps, s: State, id: string, items: seq<string>)
    requires Lawful(ops) && id in s.lists
    ensures After(ops, s, Save(id, items)) == s.(lists := s.lists[id := Saved(ops, s.lists[id], items)])
  {
  }

  lemma LoadKeepsInv(ops: TextOps, s: State, p: nat)
    requires Lawful(ops) && Inv(ops, s) && p in s.lookups && s.lookups[p].Missed?
    ensures Inv(ops, After(ops, s, Load(p)))
  {
    var l := s.lookups[p];
    assert LookupWell(ops, s.lists, l);
    assert StoredWell(ops, s.lists[l.list]);
    CurrentItems(ops, s.lists, l.list, l.version);
    MovingKeepsInv(ops, s, p, Loaded(l.list, l.version, s.lists[l.list].items), s.cache);
  }

  lemma StepKeepsInv(ops: TextOps, s: State, step: Step)
    requires Lawful(ops) && Inv(ops, s)
    ensures Inv(ops, After(ops, s, step))
  {
    match step
    case Create(id, items) =>
      if id !in s.lists {
        WritingKeepsInv(ops, s, id, Stored(1, Cleaned(ops, items), [items]));
      }
    case Save(id, items) =>
      if id in s.lists {
        SaveKeepsInv(ops, s, id, items);
      }
    case ReadVersion(p, id) =>
      if id in s.lists {
        assert StoredWell(ops, s.lists[id]);
        MovingKeepsInv(ops, s, p, Read(id, s.lists[id].version), s.cache);
      }
    case Consult(p) =>
      if p in s.lookups && s.lookups[p].Read? {
        ConsultKeepsInv(ops, s, p);
      }
    case Load(p) =>
      if p in s.lookups && s.lookups[p].Missed? {
        LoadKeepsInv(ops, s, p);
      }
    case Store(p) =>
      if p in s.lookups && s.lookups[p].Loaded? {
        StoreKeepsInv(ops, s, p);
      }
    case ClearCache =>
  }

  lemma {:induction false} RunKeepsInv(ops: TextOps, steps: seq<Step>)
    requires Lawful(ops)
    ensures Inv(ops, Run(ops, steps))
  {
    if steps != [] {
      RunKeepsInv(ops, steps[..|steps| - 1]);
      StepKeepsInv(ops, Run(ops, steps[..|steps| - 1]), steps[|steps| - 1]);
    }
  }

  // --- the properties ------------------------------------------------------------------------

  /** After any interleaving, what a lookup got, and what the cache holds, under version `v` matches a submission
      that is version `v` or later: never an older one. */
  lemma NeverBuiltFromOlderItems(ops: TextOps, steps: seq<Step>, p: nat, n: nat)
    requires Lawful(ops)
    ensures var s := Run(ops, steps);
            && (p in s.lookups && s.lookups[p].Done?
                ==> BuiltFrom(ops, s.lists, s.lookups[p].list, s.lookups[p].version, s.lookups[p].members))
            && (n < |s.cache| ==> BuiltFrom(ops, s.lists, s.cache[n].0.0, s.cache[n].0.1, s.cache[n].1))
  {
    RunKeepsInv(ops, steps);
    var s := Run(ops, steps);
    assert p in s.lookups ==> LookupWell(ops, s.lists, s.lookups[p]);
    assert n < |s.cache| ==> EntryWell(ops, s.lists, s.cache[n]);
  }

  /** After any interleaving, a lookup at the list's current version got exactly what the items as last submitted
      match, repeats and all, although cleaned items were stored. */
  lemma CurrentLookupsAreExact(ops: TextOps, steps: seq<Step>, p: nat, id: string)
    requires Lawful(ops)
    requires var s := Run(ops, steps);
             id in s.lists && p in s.lookups && s.lookups[p].Done? && s.lookups[p].list == id
             && s.lookups[p].version == s.lists[id].version
    ensures var s := Run(ops, steps);
            1 <= s.lists[id].version == |s.lists[id].submitted| && s.lookups[p].members == Exact(ops, s.lists[id], s.lists[id].version)
  {
    RunKeepsInv(ops, steps);
    var s := Run(ops, steps);
    assert StoredWell(ops, s.lists[id]);
    assert LookupWell(ops, s.lists, s.lookups[p]);
    BuiltFromLast(ops, s.lists, id, s.lookups[p].members);
  }

  /** And so would any later lookup that hits the cache at that version. */
  lemma CurrentHitsAreExact(ops: TextOps, steps: seq<Step>, id: string)
    requires Lawful(ops)
    requires var s := Run(ops, steps); id in s.lists && Get(s.cache, (id, s.lists[id].version)).Some?
    ensures var s := Run(ops, steps);
            && 1 <= s.lists[id].version == |s.lists[id].submitted|
            && Get(s.cache, (id, s.lists[id].version)).value == Exact(ops, s.lists[id], s.lists[id].version)
  {
    RunKeepsInv(ops, steps);
    var s := Run(ops, steps);
    var key := (id, s.lists[id].version);
    assert StoredWell(ops, s.lists[id]);
    HitIsWell(ops, s, key);
    BuiltFromLast(ops, s.lists, id, Get(s.cache, key).value);
  }

  /** At the current version only the last submission is left to have been built from. */
  lemma BuiltFromLast(ops: TextOps, lists: map<string, Stored>, id: string, members: set<Member>)
    requires id in lists && lists[id].submitted != [] && lists[id].version == |lists[id].submitted|
    requires BuiltFrom(ops, lists, id, lists[id].version, members)
    ensures members == Exact(ops, lists[id], lists[id].version)
  {
    var w :| lists[id].version <= w && Matches(ops, lists[id], w, members);
    assert w == |lists[id].submitted|;
  }
}
