/** What an administrator reviews, and the fingerprint approval is bound to. The hash over the canonical form is an
    injective uninterpreted function. */
module ChartDefinition {
  import opened Wrappers

  /** The surge threshold is the text JSON gives it. */
  datatype Mapping = Mapping(
    chartType: string, xField: Option<string>, yField: Option<string>, seriesField: Option<string>,
    surgeThresholdPct: Option<string>)

  datatype RuleCondition = RuleCondition(
    position: int, column: string, operator: string, value: Option<string>, value2: Option<string>, listId: Option<string>)

  datatype StoredRule = StoredRule(
    position: int, name: string, severity: string, enabled: bool, conditions: seq<RuleCondition>)

  datatype QueryDefinition = QueryDefinition(sqlText: string, rowLimit: Option<int>, pollIntervalMs: Option<int>)

  /** The canonical form: rules and their conditions in position order, positions themselves left out. */
  datatype CanonicalCondition = CanonicalCondition(
    column: string, operator: string, value: Option<string>, value2: Option<string>, listId: Option<string>)
  datatype CanonicalRule = CanonicalRule(name: string, severity: string, enabled: bool, conditions: seq<CanonicalCondition>)
  datatype Canonical = Canonical(query: QueryDefinition, mapping: Mapping, rules: seq<CanonicalRule>)

  // --- a stable sort by position ------------------------------------------------------

  function Insert<T>(pos: T -> int, x: T, xs: seq<T>): seq<T>
  {
    if xs == [] then [x]
    else if pos(x) < pos(xs[0]) then [x] + xs
    else [xs[0]] + Insert(pos, x, xs[1..])
  }

  /** Elements with equal positions keep their order. */
  function SortBy<T>(pos: T -> int, xs: seq<T>): seq<T>
  {
    if xs == [] then [] else Insert(pos, xs[|xs| - 1], SortBy(pos, xs[..|xs| - 1]))
  }

  ghost predicate Rising<T>(pos: T -> int, xs: seq<T>)
  {
    forall i, j :: 0 <= i < j < |xs| ==> pos(xs[i]) <= pos(xs[j])
  }

  lemma {:induction false} InsertKeepsElements<T>(pos: T -> int, x: T, xs: seq<T>)
    ensures multiset(Insert(pos, x, xs)) == multiset(xs) + multiset{x}
  {
    if xs != [] && pos(x) >= pos(xs[0]) {
      InsertKeepsElements(pos, x, xs[1..]);
      assert xs == [xs[0]] + xs[1..];
    }
  }

  lemma {:induction false} InsertSorts<T>(pos: T -> int, x: T, xs: seq<T>)
    requires Rising(pos, xs)
    ensures Rising(pos, Insert(pos, x, xs))
    ensures xs != [] ==> pos(Insert(pos, x, xs)[0]) == if pos(x) < pos(xs[0]) then pos(x) else pos(xs[0])
  {
    if xs != [] && pos(x) >= pos(xs[0]) {
      InsertSorts(pos, x, xs[1..]);
      FirstIsLeast(pos, xs[0], Insert(pos, x, xs[1..]));
    }
  }

  lemma FirstIsLeast<T>(pos: T -> int, first: T, rest: seq<T>)
    requires Rising(pos, rest) && (rest != [] ==> pos(first) <= pos(rest[0]))
    ensures Rising(pos, [first] + rest)
  {
  }

  lemma {:induction false} SortSorts<T>(pos: T -> int, xs: seq<T>)
    ensures Rising(pos, SortBy(pos, xs)) && multiset(SortBy(pos, xs)) == multiset(xs)
  {
    if xs != [] {
      var front, last := xs[..|xs| - 1], xs[|xs| - 1];
      SortSorts(pos, front);
      InsertSorts(pos, last, SortBy(pos, front));
      InsertKeepsElements(pos, last, SortBy(pos, front));
      assert xs == front + [last];
    }
  }

  ghost predicate DistinctPositions<T>(pos: T -> int, xs: seq<T>)
  {
    forall x, y :: x in xs && y in xs && pos(x) == pos(y) ==> x == y
  }

  /** With distinct positions there is only one sorted arrangement. */
  lemma {:induction false} SortedIsUnique<T>(pos: T -> int, a: seq<T>, b: seq<T>)
    requires Rising(pos, a) && Rising(pos, b) && multiset(a) == multiset(b)
    requires DistinctPositions(pos, a)
    ensures a == b
  {
    assert |multiset(a)| == |a| && |multiset(b)| == |b|;
    if a != [] {
      SameLeast(pos, a, b);
      SortedIsUnique(pos, a[1..], b[1..]);
      assert a == [a[0]] + a[1..] && b == [b[0]] + b[1..];
    }
  }

  lemma SameLeast<T>(pos: T -> int, a: seq<T>, b: seq<T>)
    requires a != [] && b != [] && Rising(pos, a) && Rising(pos, b) && multiset(a) == multiset(b)
    requires DistinctPositions(pos, a)
    ensures a[0] == b[0] && multiset(a[1..]) == multiset(b[1..])
  {
    LeastBounds(pos, a, b);
    LeastBounds(pos, b, a);
    assert a[0] in a;
    RestOf(a);
    RestOf(b);
  }

  lemma LeastBounds<T>(pos: T -> int, a: seq<T>, b: seq<T>)
    requires a != [] && b != [] && Rising(pos, a) && multiset(a) == multiset(b)
    ensures b[0] in a && pos(a[0]) <= pos(b[0])
  {
    assert b[0] in multiset(b);
    assert b[0] in multiset(a);
  }

  lemma RestOf<T>(a: seq<T>)
    requires a != []
    ensures multiset(a[1..]) == multiset(a) - multiset{a[0]}
  {
    assert a == [a[0]] + a[1..];
  }

  // --- the fingerprint ----------------------------------------------------------------------

  function CanonicalConditionOf(c: RuleCondition): CanonicalCondition
  {
    CanonicalCondition(c.column, c.operator, c.value, c.value2, c.listId)
  }

  function CanonicalRuleOf(r: StoredRule): CanonicalRule
  {
    var sorted := SortBy((c: RuleCondition) => c.position, r.conditions);
    CanonicalRule(r.name, r.severity, r.enabled,
                  seq(|sorted|, i requires 0 <= i < |sorted| => CanonicalConditionOf(sorted[i])))
  }

  function CanonicalOf(q: QueryDefinition, m: Mapping, rules: seq<StoredRule>): Canonical
  {
    var sorted := SortBy((r: StoredRule) => r.position, rules);
    Canonical(q, m, seq(|sorted|, i requires 0 <= i < |sorted| => CanonicalRuleOf(sorted[i])))
  }

  function Fingerprint(hash: Canonical -> string, q: QueryDefinition, m: Mapping, rules: seq<StoredRule>): string
  {
    hash(CanonicalOf(q, m, rules))
  }

  ghost predicate CollisionFree(hash: Canonical -> string)
  {
    forall a, b :: hash(a) == hash(b) ==> a == b
  }

  ghost predicate SameCondition(a: RuleCondition, b: RuleCondition)
  {
    a.column == b.column && a.operator == b.operator && a.value == b.value && a.value2 == b.value2 && a.listId == b.listId
  }

  function ConditionsInOrder(r: StoredRule): seq<RuleCondition> { SortBy((c: RuleCondition) => c.position, r.conditions) }

  function RulesInOrder(rules: seq<StoredRule>): seq<StoredRule> { SortBy((r: StoredRule) => r.position, rules) }

  /** Alike in everything but the positions, conditions taken in order. */
  ghost predicate SameRule(a: StoredRule, b: StoredRule)
  {
    var cs, ds := ConditionsInOrder(a), ConditionsInOrder(b);
    && a.name == b.name && a.severity == b.severity && a.enabled == b.enabled
    && |cs| == |ds| && forall i :: 0 <= i < |cs| ==> SameCondition(cs[i], ds[i])
  }

  ghost predicate SameRules(a: seq<StoredRule>, b: seq<StoredRule>)
  {
    |a| == |b| && forall i :: 0 <= i < |a| ==> SameRule(a[i], b[i])
  }

  lemma SameCanonicalRule(a: StoredRule, b: StoredRule)
    ensures CanonicalRuleOf(a) == CanonicalRuleOf(b) <==> SameRule(a, b)
  {
    var cs, ds := ConditionsInOrder(a), ConditionsInOrder(b);
    var x, y := CanonicalRuleOf(a).conditions, CanonicalRuleOf(b).conditions;
    assert |x| == |cs| && |y| == |ds|;
    assert forall i :: 0 <= i < |cs| ==> x[i] == CanonicalConditionOf(cs[i]);
    assert forall i :: 0 <= i < |ds| ==> y[i] == CanonicalConditionOf(ds[i]);
    if SameRule(a, b) {
      assert x == y;
    }
  }

  /** Only what was reviewed decides the fingerprint, and all of it does: equal fingerprints are equal SQL, limits and
      mapping, and the same rules in the same order with the same conditions in the same order. */
  lemma FingerprintIsTheDefinition(hash: Canonical -> string, q: QueryDefinition, m: Mapping, rules: seq<StoredRule>,
                                   q': QueryDefinition, m': Mapping, rules': seq<StoredRule>)
    requires CollisionFree(hash)
    ensures Fingerprint(hash, q, m, rules) == Fingerprint(hash, q', m', rules')
            <==> q == q' && m == m' && SameRules(RulesInOrder(rules), RulesInOrder(rules'))
  {
    SameCanonicalRules(q, m, rules, q', m', rules');
  }

  lemma SameCanonicalRules(q: QueryDefinition, m: Mapping, rules: seq<StoredRule>,
                           q': QueryDefinition, m': Mapping, rules': seq<StoredRule>)
    ensures CanonicalOf(q, m, rules) == CanonicalOf(q', m', rules')
            <==> q == q' && m == m' && SameRules(RulesInOrder(rules), RulesInOrder(rules'))
  {
    var a, b := RulesInOrder(rules), RulesInOrder(rules');
    var x, y := CanonicalOf(q, m, rules).rules, CanonicalOf(q', m', rules').rules;
    assert |x| == |a| && |y| == |b|;
    forall i | 0 <= i < |a| && |a| == |b| ensures x[i] == y[i] <==> SameRule(a[i], b[i]) {
      SameCanonicalRule(a[i], b[i]);
    }
    if SameRules(a, b) {
      assert x == y;
    }
  }

  lemma ReadingOrder<T>(pos: T -> int, xs: seq<T>, ys: seq<T>)
    requires multiset(xs) == multiset(ys) && DistinctPositions(pos, xs)
    ensures SortBy(pos, xs) == SortBy(pos, ys)
  {
    var a, b := SortBy(pos, xs), SortBy(pos, ys);
    SortSorts(pos, xs);
    SortSorts(pos, ys);
    forall x | x in a ensures x in xs {
      assert x in multiset(a) && x in multiset(xs);
    }
    SortedIsUnique(pos, a, b);
  }

  /** The order in which the store hands over rules does not matter, for any hash. */
  lemma RuleReadingOrderIsIrrelevant(hash: Canonical -> string, q: QueryDefinition, m: Mapping, rules: seq<StoredRule>,
                                     rules': seq<StoredRule>)
    requires multiset(rules) == multiset(rules') && DistinctPositions((r: StoredRule) => r.position, rules)
    ensures Fingerprint(hash, q, m, rules) == Fingerprint(hash, q, m, rules')
  {
    ReadingOrder((r: StoredRule) => r.position, rules, rules');
  }

  /** Nor does the order of a rule's conditions. */
  lemma ConditionReadingOrderIsIrrelevant(r: StoredRule, conditions: seq<RuleCondition>)
    requires multiset(r.conditions) == multiset(conditions) && DistinctPositions((c: RuleCondition) => c.position, r.conditions)
    ensures CanonicalRuleOf(r.(conditions := conditions)) == CanonicalRuleOf(r)
  {
    ReadingOrder((c: RuleCondition) => c.position, r.conditions, conditions);
  }
}
