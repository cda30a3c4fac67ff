/** Chart rows, and replacing a query's whole chart set while keeping the identity of charts whose names match. */
module ChartSets {
  import opened Wrappers
  import opened ChartDefinition

  /** The columns that say who may see a chart, who asked, and who declined. */
  datatype Publishing = Publishing(
    isPublic: bool, publishedBy: Option<string>, publishedAt: Option<int>,
    requestedBy: Option<string>, requestedAt: Option<int>,
    rejectedBy: Option<string>, rejectedAt: Option<int>, rejectedReason: Option<string>)

  const Private := Publishing(false, None, None, None, None, None, None, None)

  datatype Chart = Chart(query: string, name: string, position: nat, mapping: Mapping, pub: Publishing)

  type Charts = map<string, Chart>

  datatype Spec = Spec(name: string, mapping: Mapping)

  /** The match key of a name, trimmed and lower-cased; uninterpreted here. */
  type NameKey = string -> string

  ghost predicate DistinctNames(key: NameKey, charts: Charts, q: string)
  {
    forall a, b ::
      (a in charts && b in charts && charts[a].query == q && charts[b].query == q && key(charts[a].name) == key(charts[b].name))
      ==> a == b
  }

  /** What the request's validation guarantees of the submitted set. */
  ghost predicate DistinctSpecs(key: NameKey, specs: seq<Spec>)
  {
    forall i, j :: 0 <= i < j < |specs| ==> key(specs[i].name) != key(specs[j].name)
  }

  /** The charts of a query by match key. */
  function Existing(key: NameKey, charts: Charts, q: string): map<string, string>
    requires DistinctNames(key, charts, q)
  {
    map id | id in charts && charts[id].query == q :: key(charts[id].name) := id
  }

  /** Identifiers of the submitted set: the existing chart's where the name matches, otherwise a new one. */
  function IdFor(key: NameKey, charts: Charts, q: string, spec: Spec, freshId: string): string
    requires DistinctNames(key, charts, q)
  {
    var existing := Existing(key, charts, q);
    if key(spec.name) in existing then existing[key(spec.name)] else freshId
  }

  function Built(charts: Charts, q: string, id: string, spec: Spec, position: nat): Chart
  {
    if id in charts then charts[id].(name := spec.name, position := position, mapping := spec.mapping)
    else Chart(q, spec.name, position, spec.mapping, Private)
  }

  ghost predicate FreshIds(charts: Charts, ids: seq<string>)
  {
    (forall i :: 0 <= i < |ids| ==> ids[i] !in charts) && forall i, j :: 0 <= i < j < |ids| ==> ids[i] != ids[j]
  }

  /** The table after replacing: other queries' charts, and one chart per submitted spec. */
  function Replaced(key: NameKey, charts: Charts, q: string, specs: seq<Spec>, ids: seq<string>): Charts
    requires DistinctNames(key, charts, q) && |ids| == |specs|
  {
    (map id | id in charts && charts[id].query != q :: charts[id]) + BuiltUpTo(key, charts, q, specs, ids)
  }

  function BuiltUpTo(key: NameKey, charts: Charts, q: string, specs: seq<Spec>, ids: seq<string>): Charts
    requires DistinctNames(key, charts, q) && |ids| == |specs|
  {
    if specs == [] then map[]
    else
      var n := |specs| - 1;
      var id := IdFor(key, charts, q, specs[n], ids[n]);
      BuiltUpTo(key, charts, q, specs[..n], ids[..n])[id := Built(charts, q, id, specs[n], n)]
  }

  /** `replace_charts`: match by name and update in place, add what is new, remove what is no longer named. */
  method ReplaceCharts(key: NameKey, charts: Charts, q: string, specs: seq<Spec>, ids: seq<string>) returns (r: Charts)
    requires DistinctNames(key, charts, q) && |ids| == |specs|
    ensures r == Replaced(key, charts, q, specs, ids)
  {
    var existing := Existing(key, charts, q);
    var built: Charts := map[];
    for n := 0 to |specs|
      invariant built == BuiltUpTo(key, charts, q, specs[..n], ids[..n])
    {
      var spec := specs[n];
      assert specs[..n + 1][..n] == specs[..n] && ids[..n + 1][..n] == ids[..n];
      var k := key(spec.name);
      var id := if k in existing then existing[k] else ids[n];
      built := built[id := Built(charts, q, id, spec, n)];
    }
    assert specs[..|specs|] == specs && ids[..|specs|] == ids;
    r := (map id | id in charts && charts[id].query != q :: charts[id]) + built;
  }

  // --- identity ---------------------------------------------------------------------------

  lemma ExistingIs(key: NameKey, charts: Charts, q: string, id: string)
    requires DistinctNames(key, charts, q)
    ensures id in charts && charts[id].query == q ==>
              key(charts[id].name) in Existing(key, charts, q) && Existing(key, charts, q)[key(charts[id].name)] == id
    ensures forall k :: k in Existing(key, charts, q) ==>
              var e := Existing(key, charts, q)[k]; e in charts && charts[e].query == q && key(charts[e].name) == k
  {
  }

  lemma IdsAreDistinct(key: NameKey, charts: Charts, q: string, specs: seq<Spec>, ids: seq<string>, i: nat, j: nat)
    requires DistinctNames(key, charts, q) && DistinctSpecs(key, specs) && |ids| == |specs| && FreshIds(charts, ids)
    requires i < j < |specs|
    ensures IdFor(key, charts, q, specs[i], ids[i]) != IdFor(key, charts, q, specs[j], ids[j])
  {
  }

  lemma {:induction false} BuiltAt(key: NameKey, charts: Charts, q: string, specs: seq<Spec>, ids: seq<string>, k: nat)
    requires DistinctNames(key, charts, q) && DistinctSpecs(key, specs) && |ids| == |specs| && FreshIds(charts, ids)
    requires k < |specs|
    ensures var id, b := IdFor(key, charts, q, specs[k], ids[k]), BuiltUpTo(key, charts, q, specs, ids);
            id in b && b[id] == Built(charts, q, id, specs[k], k)
  {
    var n := |specs| - 1;
    var last := IdFor(key, charts, q, specs[n], ids[n]);
    assert BuiltUpTo(key, charts, q, specs, ids)
           == BuiltUpTo(key, charts, q, specs[..n], ids[..n])[last := Built(charts, q, last, specs[n], n)];
    if k < n {
      FrontIsDistinct(key, charts, specs, ids);
      BuiltAt(key, charts, q, specs[..n], ids[..n], k);
      IdsAreDistinct(key, charts, q, specs, ids, k, n);
    }
  }

  lemma FrontIsDistinct(key: NameKey, charts: Charts, specs: seq<Spec>, ids: seq<string>)
    requires specs != [] && DistinctSpecs(key, specs) && |ids| == |specs| && FreshIds(charts, ids)
    ensures DistinctSpecs(key, specs[..|specs| - 1]) && FreshIds(charts, ids[..|specs| - 1])
  {
  }

  lemma {:induction false} BuiltOnly(key: NameKey, charts: Charts, q: string, specs: seq<Spec>, ids: seq<string>, id: string)
    requires DistinctNames(key, charts, q) && |ids| == |specs|
    requires id in BuiltUpTo(key, charts, q, specs, ids)
    ensures exists k :: 0 <= k < |specs| && IdFor(key, charts, q, specs[k], ids[k]) == id
  {
    var n := |specs| - 1;
    if IdFor(key, charts, q, specs[n], ids[n]) != id {
      BuiltOnly(key, charts, q, specs[..n], ids[..n], id);
      var k :| 0 <= k < n && IdFor(key, charts, q, specs[..n][k], ids[..n][k]) == id;
      assert specs[k] == specs[..n][k] && ids[k] == ids[..n][k];
    }
  }

  /** A submitted chart whose name matches keeps its identifier and its publishing columns; a new name gets the new
      identifier and starts private; both take the submitted name, mapping and place. */
  lemma NamesKeepIdentity(key: NameKey, charts: Charts, q: string, specs: seq<Spec>, ids: seq<string>, k: nat)
    requires DistinctNames(key, charts, q) && DistinctSpecs(key, specs) && |ids| == |specs| && FreshIds(charts, ids)
    requires k < |specs|
    ensures var r, id := Replaced(key, charts, q, specs, ids), IdFor(key, charts, q, specs[k], ids[k]);
            && id in r && r[id].query == q
            && r[id].name == specs[k].name && r[id].mapping == specs[k].mapping && r[id].position == k
            && r[id].pub == (if id in charts then charts[id].pub else Private)
    ensures forall id :: id in charts && charts[id].query == q && key(charts[id].name) == key(specs[k].name) ==>
              IdFor(key, charts, q, specs[k], ids[k]) == id
  {
    BuiltAt(key, charts, q, specs, ids, k);
    ExistingIs(key, charts, q, "");
    forall id | id in charts && charts[id].query == q && key(charts[id].name) == key(specs[k].name)
      ensures IdFor(key, charts, q, specs[k], ids[k]) == id
    {
      ExistingIs(key, charts, q, id);
    }
  }

  /** Nothing else remains of the query, other queries are untouched, and no chart appears from nowhere. */
  lemma OnlyNamedChartsRemain(key: NameKey, charts: Charts, q: string, specs: seq<Spec>, ids: seq<string>, id: string)
    requires DistinctNames(key, charts, q) && DistinctSpecs(key, specs) && |ids| == |specs| && FreshIds(charts, ids)
    ensures var r := Replaced(key, charts, q, specs, ids);
            && (id in charts && charts[id].query != q ==> id in r && r[id] == charts[id])
            && (id in r && r[id].query == q ==>
                  exists k :: 0 <= k < |specs| && IdFor(key, charts, q, specs[k], ids[k]) == id)
            && (id in r && r[id].query != q ==> id in charts && r[id] == charts[id])
            && (id in r ==> r[id].pub == (if id in charts then charts[id].pub else Private))
  {
    var b := BuiltUpTo(key, charts, q, specs, ids);
    ExistingIs(key, charts, q, id);
    if id in b {
      BuiltOnly(key, charts, q, specs, ids, id);
      var k: nat :| k < |specs| && IdFor(key, charts, q, specs[k], ids[k]) == id;
      BuiltAt(key, charts, q, specs, ids, k);
    }
  }

  /** Names stay distinct, so the next replacement can match again. */
  lemma ReplacedNamesDistinct(key: NameKey, charts: Charts, q: string, specs: seq<Spec>, ids: seq<string>)
    requires DistinctNames(key, charts, q) && DistinctSpecs(key, specs) && |ids| == |specs| && FreshIds(charts, ids)
    ensures DistinctNames(key, Replaced(key, charts, q, specs, ids), q)
  {
    var r := Replaced(key, charts, q, specs, ids);
    forall a, b | a in r && b in r && r[a].query == q && r[b].query == q && key(r[a].name) == key(r[b].name)
      ensures a == b
    {
      OnlyNamedChartsRemain(key, charts, q, specs, ids, a);
      OnlyNamedChartsRemain(key, charts, q, specs, ids, b);
      var i: nat :| i < |specs| && IdFor(key, charts, q, specs[i], ids[i]) == a;
      var j: nat :| j < |specs| && IdFor(key, charts, q, specs[j], ids[j]) == b;
      NamesKeepIdentity(key, charts, q, specs, ids, i);
      NamesKeepIdentity(key, charts, q, specs, ids, j);
    }
  }
}
