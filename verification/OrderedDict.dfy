/** A dictionary in insertion order, oldest entry first, with least-recently-used eviction by weight and count.
    Three caches of the service are built on it. */
module OrderedDict {
  import opened Wrappers

  ghost predicate Distinct<K, V>(d: seq<(K, V)>)
  {
    forall i, j :: 0 <= i < j < |d| ==> d[i].0 != d[j].0
  }

  function Get<K(==), V>(d: seq<(K, V)>, k: K): (v: Option<V>)
    ensures v.None? ==> forall i :: 0 <= i < |d| ==> d[i].0 != k
    ensures v.Some? ==> exists i :: 0 <= i < |d| && d[i] == (k, v.value)
  {
    if d == [] then None
    else if d[0].0 == k then Some(d[0].1)
    else Get(d[1..], k)
  }

  function Remove<K(==), V>(d: seq<(K, V)>, k: K): (r: seq<(K, V)>)
    ensures |r| <= |d|
    ensures forall i :: 0 <= i < |r| ==> r[i] in d && r[i].0 != k
    ensures forall e :: e in d && e.0 != k ==> e in r
  {
    if d == [] then []
    else if d[0].0 == k then Remove(d[1..], k)
    else [d[0]] + Remove(d[1..], k)
  }

  /** Store at the most recently used end, replacing any entry under the same key. */
  function Put<K(==), V>(d: seq<(K, V)>, k: K, v: V): seq<(K, V)>
  {
    Remove(d, k) + [(k, v)]
  }

  function Sum<K, V>(d: seq<(K, V)>, size: V -> nat): nat
  {
    if d == [] then 0 else size(d[0].1) + Sum(d[1..], size)
  }

  predicate Fits<K, V>(d: seq<(K, V)>, size: V -> nat, budget: nat, limit: nat)
  {
    Sum(d, size) <= budget && |d| <= limit
  }

  /** Drop from the oldest end until the rest fits: exactly the shortest prefix that has to go. */
  function Evict<K, V>(d: seq<(K, V)>, size: V -> nat, budget: nat, limit: nat): (r: seq<(K, V)>)
    ensures |r| <= |d| && r == d[|d| - |r|..]
    ensures Fits(r, size, budget, limit)
    ensures forall j :: 0 <= j < |d| - |r| ==> !Fits(d[j..], size, budget, limit)
  {
    if d == [] || Fits(d, size, budget, limit) then
      d
    else
      var r := Evict(d[1..], size, budget, limit);
      assert forall j :: 1 <= j <= |d| ==> d[j..] == d[1..][j - 1..];
      r
  }

  lemma {:induction false} SumAppend<K, V>(a: seq<(K, V)>, b: seq<(K, V)>, size: V -> nat)
    ensures Sum(a + b, size) == Sum(a, size) + Sum(b, size)
  {
    if a == [] {
      assert a + b == b;
    } else {
      SumAppend(a[1..], b, size);
      assert (a + b)[1..] == a[1..] + b;
    }
  }

  lemma {:induction false} RemoveAbsent<K, V>(d: seq<(K, V)>, k: K)
    requires forall i :: 0 <= i < |d| ==> d[i].0 != k
    ensures Remove(d, k) == d
  {
    if d != [] {
      RemoveAbsent(d[1..], k);
    }
  }

  lemma {:induction false} RemoveKeepsDistinct<K, V>(d: seq<(K, V)>, k: K)
    requires Distinct(d)
    ensures Distinct(Remove(d, k))
  {
    if d != [] {
      RemoveKeepsDistinct(d[1..], k);
      var r := Remove(d[1..], k);
      if d[0].0 != k {
        forall i | 0 <= i < |r| ensures r[i].0 != d[0].0 {
          assert r[i] in d[1..];
        }
      }
    }
  }

  lemma {:induction false} RemoveCounts<K, V>(d: seq<(K, V)>, k: K)
    requires Distinct(d)
    ensures |Remove(d, k)| == |d| - (if Get(d, k).Some? then 1 else 0)
    ensures Get(d, k).None? ==> Remove(d, k) == d
  {
    if d != [] {
      if d[0].0 == k {
        RemoveAbsent(d[1..], k);
      } else {
        RemoveCounts(d[1..], k);
      }
    }
  }

  lemma {:induction false} RemoveWeighs<K, V>(d: seq<(K, V)>, k: K, size: V -> nat)
    requires Distinct(d)
    ensures Sum(Remove(d, k), size) == Sum(d, size) - (if Get(d, k).Some? then size(Get(d, k).value) else 0)
  {
    if d != [] {
      if d[0].0 == k {
        RemoveAbsent(d[1..], k);
      } else {
        RemoveWeighs(d[1..], k, size);
      }
    }
  }

  lemma PutKeepsDistinct<K, V>(d: seq<(K, V)>, k: K, v: V)
    requires Distinct(d)
    ensures Distinct(Put(d, k, v)) && |Put(d, k, v)| <= |d| + 1
  {
    RemoveKeepsDistinct(d, k);
    RemoveCounts(d, k);
  }

  /** What a lookup finds, for a dictionary without repeated keys. */
  lemma {:induction false} GetIff<K, V>(d: seq<(K, V)>, k: K, v: V)
    requires Distinct(d)
    ensures Get(d, k) == Some(v) <==> (k, v) in d
  {
  }

  lemma GetAfterPut<K, V>(d: seq<(K, V)>, k: K, v: V, j: K)
    requires Distinct(d)
    ensures Get(Put(d, k, v), j) == if j == k then Some(v) else Get(d, j)
  {
    PutKeepsDistinct(d, k, v);
    var r := Put(d, k, v);
    assert r[|r| - 1] == (k, v);
    GetIff(r, k, v);
    if j != k {
      if Get(d, j).Some? {
        GetIff(d, j, Get(d, j).value);
        GetIff(r, j, Get(d, j).value);
      } else if Get(r, j).Some? {
        GetIff(r, j, Get(r, j).value);
        GetIff(d, j, Get(r, j).value);
      }
    }
  }

  lemma GetAfterRemove<K, V>(d: seq<(K, V)>, k: K, j: K)
    requires Distinct(d)
    ensures Get(Remove(d, k), j) == if j == k then None else Get(d, j)
  {
  }

  /** Eviction never changes what a surviving key holds. */
  lemma EvictOnlyDrops<K, V>(d: seq<(K, V)>, size: V -> nat, budget: nat, limit: nat, k: K)
    requires Distinct(d)
    ensures var r := Evict(d, size, budget, limit);
            Distinct(r) && (Get(r, k).None? || Get(r, k) == Get(d, k))
  {
    SuffixLookup(d, |d| - |Evict(d, size, budget, limit)|, k);
  }

  lemma {:induction false} SuffixLookup<K, V>(d: seq<(K, V)>, cut: nat, k: K)
    requires Distinct(d) && cut <= |d|
    ensures Distinct(d[cut..])
    ensures Get(d[cut..], k).None? || Get(d[cut..], k) == Get(d, k)
  {
  }

  /** The newest entry survives when it fits alone. */
  lemma NewestSurvives<K, V>(d: seq<(K, V)>, size: V -> nat, budget: nat, limit: nat)
    requires d != [] && size(d[|d| - 1].1) <= budget && limit >= 1
    ensures var r := Evict(d, size, budget, limit); r != [] && r[|r| - 1] == d[|d| - 1]
  {
  }

  /** One turn of an eviction loop. */
  lemma PopOldest<K, V>(d: seq<(K, V)>, size: V -> nat, budget: nat, limit: nat)
    requires d != [] && Distinct(d)
    ensures Distinct(d[1..]) && Sum(d, size) == size(d[0].1) + Sum(d[1..], size)
    ensures !Fits(d, size, budget, limit) ==> Evict(d, size, budget, limit) == Evict(d[1..], size, budget, limit)
  {
  }

  /** The eviction loop both caches run: pop the oldest entry and give back its bytes until the rest fits. */
  method EvictOldest<K, V>(d: seq<(K, V)>, total: int, size: V -> nat, budget: nat, limit: nat)
    returns (kept: seq<(K, V)>, left: int)
    requires Distinct(d) && total == Sum(d, size)
    ensures kept == Evict(d, size, budget, limit) && Distinct(kept) && left == Sum(kept, size)
  {
    kept, left := d, total;
    while kept != [] && (left > budget || |kept| > limit)
      invariant Distinct(kept) && left == Sum(kept, size)
      invariant Evict(kept, size, budget, limit) == Evict(d, size, budget, limit)
      decreases |kept|
    {
      PopOldest(kept, size, budget, limit);
      left := left - size(kept[0].1);
      kept := kept[1..];
    }
  }

  /** Storing within a budget: an entry larger than the whole budget is not kept, and its old value is gone;
      otherwise the entry goes to the newest end and the oldest make room. */
  function StoreWithin<K(==), V>(d: seq<(K, V)>, k: K, v: V, size: V -> nat, budget: nat, limit: nat): seq<(K, V)>
  {
    if size(v) > budget then Remove(d, k) else Evict(Put(d, k, v), size, budget, limit)
  }

  /** The storing code both caches share, with its running byte counter. */
  method StoreCounted<K(==), V>(d: seq<(K, V)>, total: int, k: K, v: V, size: V -> nat, budget: nat, limit: nat)
    returns (kept: seq<(K, V)>, left: int)
    requires Distinct(d) && total == Sum(d, size)
    ensures kept == StoreWithin(d, k, v, size, budget, limit)
    ensures Distinct(kept) && left == Sum(kept, size)
  {
    var existing := Get(d, k);
    RemoveWeighs(d, k, size);
    RemoveKeepsDistinct(d, k);
    left := if existing.Some? then total - size(existing.value) else total;
    kept := Remove(d, k);
    if size(v) > budget {
      return;
    }
    PutKeepsDistinct(d, k, v);
    SumAppend(kept, [(k, v)], size);
    left := left + size(v);
    kept := kept + [(k, v)];
    kept, left := EvictOldest(kept, left, size, budget, limit);
  }

  /** `r` is what is left of `full` after dropping the shortest oldest part that makes the rest fit. */
  ghost predicate ShortestDropped<K, V>(full: seq<(K, V)>, r: seq<(K, V)>, size: V -> nat, budget: nat, limit: nat)
  {
    && |r| <= |full| && r == full[|full| - |r|..] && Fits(r, size, budget, limit)
    && forall j :: 0 <= j < |full| - |r| ==> !Fits(full[j..], size, budget, limit)
  }

  lemma EvictDropsShortest<K, V>(full: seq<(K, V)>, size: V -> nat, budget: nat, limit: nat)
    ensures ShortestDropped(full, Evict(full, size, budget, limit), size, budget, limit)
  {
  }

  /** A stored entry ends up newest, within the budget, and displaces only the shortest oldest prefix needed. */
  lemma StoringEndsWithinBudget<K, V>(d: seq<(K, V)>, k: K, v: V, size: V -> nat, budget: nat, limit: nat)
    requires Distinct(d) && size(v) <= budget && limit >= 1
    ensures var r := StoreWithin(d, k, v, size, budget, limit);
            && r != [] && r[|r| - 1] == (k, v) && Get(r, k) == Some(v)
            && ShortestDropped(Put(d, k, v), r, size, budget, limit)
  {
    EvictDropsShortest(Put(d, k, v), size, budget, limit);
    StoredIsNewest(d, k, v, size, budget, limit);
  }

  lemma StoredIsNewest<K, V>(d: seq<(K, V)>, k: K, v: V, size: V -> nat, budget: nat, limit: nat)
    requires Distinct(d) && size(v) <= budget && limit >= 1
    ensures var r := Evict(Put(d, k, v), size, budget, limit);
            r != [] && r[|r| - 1] == (k, v) && Get(r, k) == Some(v)
  {
    var full := Put(d, k, v);
    PutKeepsDistinct(d, k, v);
    NewestSurvives(full, size, budget, limit);
    EvictOnlyDrops(full, size, budget, limit, k);
    NewestIsFound(Evict(full, size, budget, limit), k, v);
  }

  lemma NewestIsFound<K, V>(d: seq<(K, V)>, k: K, v: V)
    requires Distinct(d) && d != [] && d[|d| - 1] == (k, v)
    ensures Get(d, k) == Some(v)
  {
    GetIff(d, k, v);
  }

  /** What is found under the stored key afterwards: the new value, or nothing when it is larger than the budget. */
  lemma StoredLookup<K, V>(d: seq<(K, V)>, k: K, v: V, size: V -> nat, budget: nat, limit: nat)
    requires Distinct(d) && limit >= 1
    ensures Get(StoreWithin(d, k, v, size, budget, limit), k) == if size(v) > budget then None else Some(v)
  {
    if size(v) > budget {
      GetAfterRemove(d, k, k);
    } else {
      StoredIsNewest(d, k, v, size, budget, limit);
    }
  }

  /** Other keys keep what they held or are evicted. */
  lemma StoringKeepsOthers<K, V>(d: seq<(K, V)>, k: K, v: V, size: V -> nat, budget: nat, limit: nat, j: K)
    requires Distinct(d)
    ensures var r := StoreWithin(d, k, v, size, budget, limit);
            && Distinct(r)
            && (j != k ==> Get(r, j).None? || Get(r, j) == Get(d, j))
            && (Get(r, k).None? || Get(r, k) == Some(v))
  {
    if size(v) > budget {
      GetAfterRemove(d, k, j);
      GetAfterRemove(d, k, k);
      RemoveKeepsDistinct(d, k);
    } else {
      EvictingKeepsOthers(d, k, v, size, budget, limit, j);
      EvictingKeepsOthers(d, k, v, size, budget, limit, k);
    }
  }

  lemma EvictingKeepsOthers<K, V>(d: seq<(K, V)>, k: K, v: V, size: V -> nat, budget: nat, limit: nat, j: K)
    requires Distinct(d)
    ensures var r := Evict(Put(d, k, v), size, budget, limit);
            Distinct(r) && (Get(r, j).None? || Get(r, j) == if j == k then Some(v) else Get(d, j))
  {
    PutKeepsDistinct(d, k, v);
    GetAfterPut(d, k, v, j);
    EvictOnlyDrops(Put(d, k, v), size, budget, limit, j);
  }

  /** Removing closes the gap and moves nothing else. */
  lemma {:induction false} RemoveClosesTheGap<K, V>(d: seq<(K, V)>, i: nat)
    requires Distinct(d) && i < |d|
    ensures Remove(d, d[i].0) == d[..i] + d[i + 1..]
  {
    if i == 0 {
      RemoveAbsent(d[1..], d[0].0);
    } else {
      var rest, k := d[1..], d[i].0;
      assert rest[i - 1] == d[i];
      RemoveClosesTheGap(rest, i - 1);
      assert Remove(d, k) == [d[0]] + Remove(rest, k);
      GapOfTail(d, i);
    }
  }

  lemma GapOfTail<T>(d: seq<T>, i: nat)
    requires 0 < i < |d|
    ensures [d[0]] + (d[1..][..i - 1] + d[1..][i..]) == d[..i] + d[i + 1..]
  {
  }

  /** A key held already moves to the newest end with its new value, a new key is added there, and nothing else moves. */
  lemma PutGoesNewest<K, V>(d: seq<(K, V)>, k: K, v: V)
    requires Distinct(d)
    ensures Get(d, k).None? ==> Put(d, k, v) == d + [(k, v)]
    ensures forall i :: 0 <= i < |d| && d[i].0 == k ==> Put(d, k, v) == d[..i] + d[i + 1..] + [(k, v)]
  {
    if Get(d, k).None? {
      RemoveAbsent(d, k);
    }
    forall i | 0 <= i < |d| && d[i].0 == k ensures Put(d, k, v) == d[..i] + d[i + 1..] + [(k, v)] {
      RemoveClosesTheGap(d, i);
    }
  }

  /** A key that is looked up moves to the newest end as it is; one that is not held moves nothing. */
  lemma TouchMovesToNewest<K, V>(d: seq<(K, V)>, k: K)
    requires Distinct(d)
    ensures Get(d, k).None? ==> Touch(d, k) == d
    ensures forall i :: 0 <= i < |d| && d[i].0 == k ==> Touch(d, k) == d[..i] + d[i + 1..] + [d[i]]
  {
    forall i | 0 <= i < |d| && d[i].0 == k ensures Touch(d, k) == d[..i] + d[i + 1..] + [d[i]] {
      GetIff(d, k, d[i].1);
      PutGoesNewest(d, k, d[i].1);
    }
  }

  /** Moving an entry to the newest end changes no lookup, no count and no weight. */
  function Touch<K(==), V>(d: seq<(K, V)>, k: K): seq<(K, V)>
  {
    var found := Get(d, k);
    if found.None? then d else Put(d, k, found.value)
  }

  lemma TouchChangesOrderOnly<K, V>(d: seq<(K, V)>, k: K, size: V -> nat, j: K)
    requires Distinct(d)
    ensures var r := Touch(d, k);
            Distinct(r) && |r| == |d| && Sum(r, size) == Sum(d, size) && Get(r, j) == Get(d, j)
  {
    var found := Get(d, k);
    if found.Some? {
      PutKeepsDistinct(d, k, found.value);
      RemoveCounts(d, k);
      RemoveWeighs(d, k, size);
      SumAppend(Remove(d, k), [(k, found.value)], size);
      GetAfterPut(d, k, found.value, j);
    }
  }

  /** Only the removed key is lost. */
  lemma LookupsAfterRemove<K(!new), V>(d: seq<(K, V)>, k: K)
    requires Distinct(d)
    ensures forall j :: Get(Remove(d, k), j) == if j == k then None else Get(d, j)
  {
    forall j ensures Get(Remove(d, k), j) == if j == k then None else Get(d, j) {
      GetAfterRemove(d, k, j);
    }
  }

  function Filter<K, V>(d: seq<(K, V)>, keep: K -> bool): (r: seq<(K, V)>)
    ensures |r| <= |d|
    ensures forall i :: 0 <= i < |r| ==> r[i] in d && keep(r[i].0)
  {
    if d == [] then []
    else (if keep(d[0].0) then [d[0]] else []) + Filter(d[1..], keep)
  }

  lemma {:induction false} FilterKeepsDistinct<K, V>(d: seq<(K, V)>, keep: K -> bool)
    requires Distinct(d)
    ensures Distinct(Filter(d, keep))
  {
    if d != [] {
      FilterKeepsDistinct(d[1..], keep);
      var r := Filter(d[1..], keep);
      forall i | 0 <= i < |r| ensures r[i].0 != d[0].0 {
        assert r[i] in d[1..];
      }
    }
  }

  lemma {:induction false} FilterWeighsLess<K, V>(d: seq<(K, V)>, keep: K -> bool, size: V -> nat)
    ensures Sum(Filter(d, keep), size) <= Sum(d, size)
  {
    if d != [] {
      FilterWeighsLess(d[1..], keep, size);
      assert ([d[0]] + Filter(d[1..], keep))[1..] == Filter(d[1..], keep);
      assert keep(d[0].0) || Filter(d, keep) == Filter(d[1..], keep);
    }
  }

  lemma {:induction false} GetAfterFilter<K, V>(d: seq<(K, V)>, keep: K -> bool, k: K)
    requires Distinct(d)
    ensures Get(Filter(d, keep), k) == if keep(k) then Get(d, k) else None
  {
    if d != [] {
      GetAfterFilter(d[1..], keep, k);
      if keep(d[0].0) {
        assert Filter(d, keep)[1..] == Filter(d[1..], keep);
      } else {
        assert Filter(d, keep) == Filter(d[1..], keep);
      }
    }
  }

  /** Assigning under a key already held keeps its place. */
  function Replace<K(==), V>(d: seq<(K, V)>, k: K, v: V): (r: seq<(K, V)>)
    ensures |r| == |d|
    ensures forall i :: 0 <= i < |d| ==> r[i].0 == d[i].0
  {
    if d == [] then []
    else if d[0].0 == k then [(k, v)] + d[1..]
    else [d[0]] + Replace(d[1..], k, v)
  }

  lemma {:induction false} ReplaceWeighs<K, V>(d: seq<(K, V)>, k: K, v: V, size: V -> nat)
    requires Get(d, k).Some?
    ensures Sum(Replace(d, k, v), size) == Sum(d, size) - size(Get(d, k).value) + size(v)
  {
    if d[0].0 == k {
      assert ([(k, v)] + d[1..])[1..] == d[1..];
    } else {
      ReplaceWeighs(d[1..], k, v, size);
      assert ([d[0]] + Replace(d[1..], k, v))[1..] == Replace(d[1..], k, v);
    }
  }

  lemma {:induction false} GetAfterReplace<K, V>(d: seq<(K, V)>, k: K, v: V, j: K)
    requires Get(d, k).Some?
    ensures Get(Replace(d, k, v), j) == if j == k then Some(v) else Get(d, j)
  {
    if d[0].0 == k {
      assert ([(k, v)] + d[1..])[1..] == d[1..];
    } else {
      GetAfterReplace(d[1..], k, v, j);
      assert ([d[0]] + Replace(d[1..], k, v))[1..] == Replace(d[1..], k, v);
    }
  }
}
