/** Applying a query's flag rules to its rows: which rows are flagged, by which rules, and the tallies. */
module FlagEngine {
  import opened Wrappers
  import opened ListMatching
  import opened FlagConditions

  datatype Severity = Low | Medium | High

  datatype Rule = Rule(id: string, name: string, severity: Severity, conditions: seq<Condition>, enabled: bool)

  type Row = seq<Value>

  datatype RowFlag = RowFlag(index: nat, ruleIds: seq<string>)

  datatype RuleHit = RuleHit(id: string, name: string, severity: Severity, matched: nat)

  /** `MatchedNothing` carries the column whose values could never equal the truth value typed, if there is one. */
  datatype Warning =
    | NoConditions(rule: string)
    | MissingColumns(rule: string, missing: set<string>)
    | MatchedNothing(rule: string, neverBoolean: Option<string>)

  datatype FlagOutcome = FlagOutcome(rows: seq<RowFlag>, rules: seq<RuleHit>, warnings: seq<Warning>)

  // --- what it means to be caught -----------------------------------------

  /** Where a column is read: the last position bearing the name. */
  function Position(columns: seq<string>, name: string): (p: Option<nat>)
    ensures p.None? <==> name !in columns
    ensures p.Some? ==> p.value < |columns| && columns[p.value] == name && name !in columns[p.value + 1..]
  {
    if columns == [] then None
    else if columns[|columns| - 1] == name then Some(|columns| - 1)
    else
      var p := Position(columns[..|columns| - 1], name);
      assert columns == columns[..|columns| - 1] + [columns[|columns| - 1]];
      p
  }

  function MissingOf(rule: Rule, columns: seq<string>): set<string>
  {
    set i | 0 <= i < |rule.conditions| && rule.conditions[i].column !in columns :: rule.conditions[i].column
  }

  predicate Usable(rule: Rule, columns: seq<string>)
  {
    rule.enabled && rule.conditions != [] && MissingOf(rule, columns) == {}
  }

  /** Every condition of the rule is true of the row. */
  predicate Catches(ops: TextOps, rule: Rule, columns: seq<string>, row: Row)
    requires |row| == |columns|
  {
    forall i :: 0 <= i < |rule.conditions| ==>
      var p := Position(columns, rule.conditions[i].column);
      p.Some? && Holds(ops, rule.conditions[i], row[p.value])
  }

  /** The rules that catch a row, in rule order. */
  function CaughtBy(ops: TextOps, rules: seq<Rule>, columns: seq<string>, row: Row): (ids: seq<string>)
    requires |row| == |columns|
  {
    if rules == [] then []
    else
      var last := rules[|rules| - 1];
      CaughtBy(ops, rules[..|rules| - 1], columns, row)
      + (if Usable(last, columns) && Catches(ops, last, columns, row) then [last.id] else [])
  }

  ghost predicate Rectangular(columns: seq<string>, rows: seq<Row>)
  {
    forall i :: 0 <= i < |rows| ==> |rows[i]| == |columns|
  }

  function FlaggedRows(ops: TextOps, rules: seq<Rule>, columns: seq<string>, rows: seq<Row>): seq<RowFlag>
    requires Rectangular(columns, rows)
  {
    if rows == [] then []
    else
      var n := |rows| - 1;
      var ids := CaughtBy(ops, rules, columns, rows[n]);
      FlaggedRows(ops, rules, columns, rows[..n]) + (if ids != [] then [RowFlag(n, ids)] else [])
  }

  /** How many times the rules bearing an id caught a row. */
  function Tally(ops: TextOps, rules: seq<Rule>, columns: seq<string>, rows: seq<Row>, id: string): nat
    requires Rectangular(columns, rows)
  {
    if rows == [] then 0
    else
      Tally(ops, rules, columns, rows[..|rows| - 1], id)
      + multiset(CaughtBy(ops, rules, columns, rows[|rows| - 1]))[id]
  }

  // --- the evaluation ------------------------------------------------------

  /** Why a rule that ran caught nothing: the first column compared with a truth value that holds none. */
  function NeverBoolean(ops: TextOps, conditions: seq<Condition>, columns: seq<string>, rows: seq<Row>): Option<string>
    requires Rectangular(columns, rows)
  {
    if conditions == [] then None
    else
      var c := conditions[0];
      var p := Position(columns, c.column);
      if (c.op.Eq? || c.op.Neq?) && AsBool(ops, Expected(c.value)).Some? && p.Some?
         && (exists i :: 0 <= i < |rows| && !rows[i][p.value].Null?)
         && (forall i :: 0 <= i < |rows| && !rows[i][p.value].Null? ==>
               !rows[i][p.value].Bool? && !IsBoolWord(ops, rows[i][p.value]))
      then Some(c.column)
      else NeverBoolean(ops, conditions[1..], columns, rows)
  }

  function SkippedHits(rules: seq<Rule>, columns: seq<string>): seq<RuleHit>
  {
    if rules == [] then []
    else
      var last := rules[|rules| - 1];
      SkippedHits(rules[..|rules| - 1], columns)
      + (if last.enabled && !Usable(last, columns) then [RuleHit(last.id, last.name, last.severity, 0)] else [])
  }

  function SkippedWarnings(rules: seq<Rule>, columns: seq<string>): seq<Warning>
  {
    if rules == [] then []
    else
      var last := rules[|rules| - 1];
      SkippedWarnings(rules[..|rules| - 1], columns)
      + (if !last.enabled then []
         else if last.conditions == [] then [NoConditions(last.name)]
         else if MissingOf(last, columns) != {} then [MissingColumns(last.name, MissingOf(last, columns))]
         else [])
  }

  function UsableRules(rules: seq<Rule>, columns: seq<string>): (usable: seq<Rule>)
    ensures forall i :: 0 <= i < |usable| ==> usable[i] in rules && Usable(usable[i], columns)
  {
    if rules == [] then []
    else
      var last := rules[|rules| - 1];
      UsableRules(rules[..|rules| - 1], columns) + (if Usable(last, columns) then [last] else [])
  }

  /** `evaluate`: rules that cannot run are set aside with a warning, the others are tried on every row. */
  method Evaluate(ops: TextOps, rules: seq<Rule>, columns: seq<string>, rows: seq<Row>) returns (outcome: FlagOutcome)
    requires Rectangular(columns, rows)
    ensures outcome == OutcomeOf(ops, rules, columns, rows)
  {
    var usable, hits, warnings := SetAside(rules, columns);
    var flagged, counts := ScanRows(ops, rules, usable, columns, rows);
    var tallies, misses := Summarise(ops, rules, usable, columns, rows, counts);
    outcome := FlagOutcome(flagged, hits + tallies, warnings + misses);
  }

  function OutcomeOf(ops: TextOps, rules: seq<Rule>, columns: seq<string>, rows: seq<Row>): FlagOutcome
    requires Rectangular(columns, rows)
  {
    var usable := UsableRules(rules, columns);
    FlagOutcome(
      FlaggedRows(ops, rules, columns, rows),
      SkippedHits(rules, columns) + Tallies(ops, usable, rules, columns, rows),
      SkippedWarnings(rules, columns) + Misses(ops, usable, rules, columns, rows))
  }

  /** The first loop: usable rules, and the tally and warning of each enabled rule that cannot run. */
  method SetAside(rules: seq<Rule>, columns: seq<string>)
    returns (usable: seq<Rule>, hits: seq<RuleHit>, warnings: seq<Warning>)
    ensures usable == UsableRules(rules, columns)
    ensures hits == SkippedHits(rules, columns) && warnings == SkippedWarnings(rules, columns)
  {
    usable, hits, warnings := [], [], [];
    for n := 0 to |rules|
      invariant usable == UsableRules(rules[..n], columns)
      invariant hits == SkippedHits(rules[..n], columns)
      invariant warnings == SkippedWarnings(rules[..n], columns)
    {
      var rule := rules[n];
      assert rules[..n + 1][..n] == rules[..n];
      if rule.enabled {
        var missing := MissingOf(rule, columns);
        if rule.conditions == [] {
          warnings := warnings + [NoConditions(rule.name)];
          hits := hits + [RuleHit(rule.id, rule.name, rule.severity, 0)];
        } else if missing != {} {
          warnings := warnings + [MissingColumns(rule.name, missing)];
          hits := hits + [RuleHit(rule.id, rule.name, rule.severity, 0)];
        } else {
          usable := usable + [rule];
        }
      }
    }
    assert rules[..|rules|] == rules;
  }

  /** The last loop: every usable rule's tally, and a warning for one that caught nothing. */
  method Summarise(ops: TextOps, rules: seq<Rule>, usable: seq<Rule>, columns: seq<string>, rows: seq<Row>,
                   counts: map<string, nat>)
    returns (tallies: seq<RuleHit>, misses: seq<Warning>)
    requires Rectangular(columns, rows)
    requires forall r :: r in usable ==> r.id in counts && counts[r.id] == Tally(ops, rules, columns, rows, r.id)
    ensures tallies == Tallies(ops, usable, rules, columns, rows)
    ensures misses == Misses(ops, usable, rules, columns, rows)
  {
    tallies, misses := [], [];
    for n := 0 to |usable|
      invariant tallies == Tallies(ops, usable[..n], rules, columns, rows)
      invariant misses == Misses(ops, usable[..n], rules, columns, rows)
    {
      var rule := usable[n];
      assert usable[..n + 1][..n] == usable[..n];
      var matched := counts[rule.id];
      tallies := tallies + [RuleHit(rule.id, rule.name, rule.severity, matched)];
      if matched == 0 {
        misses := misses + [MatchedNothing(rule.name, NeverBoolean(ops, rule.conditions, columns, rows))];
      }
    }
    assert usable[..|usable|] == usable;
  }

  function Tallies(ops: TextOps, usable: seq<Rule>, rules: seq<Rule>, columns: seq<string>, rows: seq<Row>): seq<RuleHit>
    requires Rectangular(columns, rows)
  {
    if usable == [] then []
    else
      var r := usable[|usable| - 1];
      Tallies(ops, usable[..|usable| - 1], rules, columns, rows)
      + [RuleHit(r.id, r.name, r.severity, Tally(ops, rules, columns, rows, r.id))]
  }

  function Misses(ops: TextOps, usable: seq<Rule>, rules: seq<Rule>, columns: seq<string>, rows: seq<Row>): seq<Warning>
    requires Rectangular(columns, rows)
  {
    if usable == [] then []
    else
      var r := usable[|usable| - 1];
      Misses(ops, usable[..|usable| - 1], rules, columns, rows)
      + (if Tally(ops, rules, columns, rows, r.id) == 0
         then [MatchedNothing(r.name, NeverBoolean(ops, r.conditions, columns, rows))] else [])
  }

  /** The row loop: flag each caught row and count every catch under its rule's id. */
  method ScanRows(ops: TextOps, rules: seq<Rule>, usable: seq<Rule>, columns: seq<string>, rows: seq<Row>)
    returns (flagged: seq<RowFlag>, counts: map<string, nat>)
    requires Rectangular(columns, rows) && usable == UsableRules(rules, columns)
    ensures flagged == FlaggedRows(ops, rules, columns, rows)
    ensures forall r :: r in usable ==> r.id in counts && counts[r.id] == Tally(ops, rules, columns, rows, r.id)
  {
    flagged := [];
    counts := map r | r in usable :: r.id := 0;
    var ids := counts.Keys;
    for n := 0 to |rows|
      invariant flagged == FlaggedRows(ops, rules, columns, rows[..n])
      invariant counts.Keys == ids
      invariant forall id :: id in ids ==> counts[id] == Tally(ops, rules, columns, rows[..n], id)
    {
      var hitIds;
      hitIds, counts := TryRules(ops, rules, usable, columns, rows[n], counts);
      assert rows[..n + 1][..n] == rows[..n];
      if hitIds != [] {
        flagged := flagged + [RowFlag(n, hitIds)];
      }
    }
    assert rows[..|rows|] == rows;
  }

  /** The inner loop over rules, for one row. */
  method TryRules(ops: TextOps, ghost rules: seq<Rule>, usable: seq<Rule>, columns: seq<string>, row: Row,
                  counts: map<string, nat>)
    returns (hitIds: seq<string>, counts': map<string, nat>)
    requires |row| == |columns| && usable == UsableRules(rules, columns)
    requires forall r :: r in usable ==> r.id in counts
    ensures hitIds == CaughtBy(ops, rules, columns, row)
    ensures counts'.Keys == counts.Keys
    ensures forall id :: id in counts ==> counts'[id] == counts[id] + multiset(hitIds)[id]
  {
    hitIds, counts' := [], counts;
    for k := 0 to |usable|
      invariant hitIds == CaughtBy(ops, usable[..k], columns, row)
      invariant counts'.Keys == counts.Keys
      invariant forall id :: id in counts ==> counts'[id] == counts[id] + multiset(hitIds)[id]
    {
      var rule := usable[k];
      CaughtByStep(ops, usable, columns, row, k);
      if Catches(ops, rule, columns, row) {
        hitIds := hitIds + [rule.id];
        counts' := counts'[rule.id := counts'[rule.id] + 1];
      }
    }
    assert usable[..|usable|] == usable;
    UsableCatchAlike(ops, rules, columns, row);
  }

  lemma CaughtByStep(ops: TextOps, rules: seq<Rule>, columns: seq<string>, row: Row, k: nat)
    requires |row| == |columns| && k < |rules|
    ensures CaughtBy(ops, rules[..k + 1], columns, row)
            == CaughtBy(ops, rules[..k], columns, row)
               + (if Usable(rules[k], columns) && Catches(ops, rules[k], columns, row) then [rules[k].id] else [])
  {
    assert rules[..k + 1][..k] == rules[..k];
  }

  lemma {:induction false} UsableCatchAlike(ops: TextOps, rules: seq<Rule>, columns: seq<string>, row: Row)
    requires |row| == |columns|
    ensures CaughtBy(ops, UsableRules(rules, columns), columns, row) == CaughtBy(ops, rules, columns, row)
  {
    if rules != [] {
      UsableCatchAlike(ops, rules[..|rules| - 1], columns, row);
      var last, front := rules[|rules| - 1], UsableRules(rules[..|rules| - 1], columns);
      if Usable(last, columns) {
        assert UsableRules(rules, columns) == front + [last];
        assert (front + [last])[..|front|] == front && (front + [last])[|front|] == last;
      } else {
        assert UsableRules(rules, columns) == front;
      }
    }
  }

  // --- what the outcome means ----------------------------------------------

  ghost predicate Caught(ops: TextOps, rule: Rule, columns: seq<string>, row: Row)
    requires |row| == |columns|
  {
    Usable(rule, columns) && Catches(ops, rule, columns, row)
  }

  lemma {:induction false} CaughtByHas(ops: TextOps, rules: seq<Rule>, columns: seq<string>, row: Row, id: string)
    requires |row| == |columns|
    ensures id in CaughtBy(ops, rules, columns, row)
            <==> exists k :: 0 <= k < |rules| && rules[k].id == id && Caught(ops, rules[k], columns, row)
  {
    if rules != [] {
      var front := rules[..|rules| - 1];
      CaughtByHas(ops, front, columns, row, id);
      assert forall k :: 0 <= k < |front| ==> rules[k] == front[k];
    }
  }

  ghost predicate HasFlag(flags: seq<RowFlag>, i: int)
  {
    exists a :: 0 <= a < |flags| && flags[a].index == i
  }

  ghost predicate IsFlagOf(ops: TextOps, rules: seq<Rule>, columns: seq<string>, rows: seq<Row>, flag: RowFlag)
    requires Rectangular(columns, rows)
  {
    flag.index < |rows| && flag.ruleIds != [] && flag.ruleIds == CaughtBy(ops, rules, columns, rows[flag.index])
  }

  /** Every flag lists exactly the rules that catch its row. */
  lemma {:induction false} FlagsListTheirRules(ops: TextOps, rules: seq<Rule>, columns: seq<string>, rows: seq<Row>, a: nat)
    requires Rectangular(columns, rows) && a < |FlaggedRows(ops, rules, columns, rows)|
    ensures IsFlagOf(ops, rules, columns, rows, FlaggedRows(ops, rules, columns, rows)[a])
  {
    var n := |rows| - 1;
    var before := FlaggedRows(ops, rules, columns, rows[..n]);
    if a < |before| {
      FlagsListTheirRules(ops, rules, columns, rows[..n], a);
      assert rows[..n][before[a].index] == rows[before[a].index];
    }
  }

  /** Flags come in row order, one per row. */
  lemma {:induction false} FlagsInOrder(ops: TextOps, rules: seq<Rule>, columns: seq<string>, rows: seq<Row>, a: nat, b: nat)
    requires Rectangular(columns, rows) && a < b < |FlaggedRows(ops, rules, columns, rows)|
    ensures FlaggedRows(ops, rules, columns, rows)[a].index < FlaggedRows(ops, rules, columns, rows)[b].index
  {
    var n := |rows| - 1;
    var before := FlaggedRows(ops, rules, columns, rows[..n]);
    if b < |before| {
      FlagsInOrder(ops, rules, columns, rows[..n], a, b);
    } else {
      FlagsListTheirRules(ops, rules, columns, rows[..n], a);
    }
  }

  lemma {:induction false} CaughtRowIsFlagged(ops: TextOps, rules: seq<Rule>, columns: seq<string>, rows: seq<Row>, i: nat)
    requires Rectangular(columns, rows) && i < |rows| && CaughtBy(ops, rules, columns, rows[i]) != []
    ensures HasFlag(FlaggedRows(ops, rules, columns, rows), i)
  {
    var n := |rows| - 1;
    var before, flags := FlaggedRows(ops, rules, columns, rows[..n]), FlaggedRows(ops, rules, columns, rows);
    if i < n {
      assert rows[..n][i] == rows[i];
      CaughtRowIsFlagged(ops, rules, columns, rows[..n], i);
      var a :| 0 <= a < |before| && before[a].index == i;
      assert flags[a] == before[a];
    } else {
      assert flags[|before|].index == i;
    }
  }

  /** A row is flagged exactly when some enabled, non-empty rule whose columns are all present has every
      condition true on it; its flag lists exactly those rules; flags come in row order, one per row. */
  lemma FlaggedExactly(ops: TextOps, rules: seq<Rule>, columns: seq<string>, rows: seq<Row>)
    requires Rectangular(columns, rows)
    ensures var flags := FlaggedRows(ops, rules, columns, rows);
            && (forall a, b :: 0 <= a < b < |flags| ==> flags[a].index < flags[b].index)
            && (forall a :: 0 <= a < |flags| ==> IsFlagOf(ops, rules, columns, rows, flags[a]))
            && (forall i :: 0 <= i < |rows| ==> (HasFlag(flags, i) <==> CaughtBy(ops, rules, columns, rows[i]) != []))
  {
    var flags := FlaggedRows(ops, rules, columns, rows);
    forall a, b | 0 <= a < b < |flags| ensures flags[a].index < flags[b].index {
      FlagsInOrder(ops, rules, columns, rows, a, b);
    }
    forall a | 0 <= a < |flags| ensures IsFlagOf(ops, rules, columns, rows, flags[a]) {
      FlagsListTheirRules(ops, rules, columns, rows, a);
    }
    forall i | 0 <= i < |rows| ensures HasFlag(flags, i) <==> CaughtBy(ops, rules, columns, rows[i]) != [] {
      if CaughtBy(ops, rules, columns, rows[i]) != [] {
        CaughtRowIsFlagged(ops, rules, columns, rows, i);
      }
    }
  }

  ghost function RowsCaught(ops: TextOps, rule: Rule, columns: seq<string>, rows: seq<Row>): set<int>
    requires Rectangular(columns, rows)
  {
    set i | 0 <= i < |rows| && Caught(ops, rule, columns, rows[i])
  }

  /** With distinct rule ids a rule's tally is the number of rows it caught. */
  lemma {:induction false} TallyCountsRows(ops: TextOps, rules: seq<Rule>, k: nat, columns: seq<string>, rows: seq<Row>)
    requires Rectangular(columns, rows) && k < |rules|
    requires forall i, j :: 0 <= i < j < |rules| ==> rules[i].id != rules[j].id
    ensures Tally(ops, rules, columns, rows, rules[k].id) == |RowsCaught(ops, rules[k], columns, rows)|
  {
    if rows != [] {
      var n := |rows| - 1;
      TallyCountsRows(ops, rules, k, columns, rows[..n]);
      OncePerRow(ops, rules, k, columns, rows[n]);
      CaughtOneMore(ops, rules[k], columns, rows);
    }
  }

  lemma CaughtOneMore(ops: TextOps, rule: Rule, columns: seq<string>, rows: seq<Row>)
    requires rows != [] && Rectangular(columns, rows)
    ensures |RowsCaught(ops, rule, columns, rows)|
            == |RowsCaught(ops, rule, columns, rows[..|rows| - 1])| + (if Caught(ops, rule, columns, rows[|rows| - 1]) then 1 else 0)
  {
    var n := |rows| - 1;
    assert RowsCaught(ops, rule, columns, rows)
           == RowsCaught(ops, rule, columns, rows[..n]) + (if Caught(ops, rule, columns, rows[n]) then {n} else {});
  }

  lemma {:induction false} OncePerRow(ops: TextOps, rules: seq<Rule>, k: nat, columns: seq<string>, row: Row)
    requires |row| == |columns| && k < |rules|
    requires forall i, j :: 0 <= i < j < |rules| ==> rules[i].id != rules[j].id
    ensures multiset(CaughtBy(ops, rules, columns, row))[rules[k].id]
            == if Caught(ops, rules[k], columns, row) then 1 else 0
  {
    var front := rules[..|rules| - 1];
    if k < |front| {
      OncePerRow(ops, front, k, columns, row);
    } else {
      CaughtByHas(ops, front, columns, row, rules[k].id);
    }
  }

  // --- what the summary means -------------------------------------------------------------

  /** Where a column is read: the last position bearing its name. */
  ghost predicate LastBearing(columns: seq<string>, p: nat, name: string)
  {
    p < |columns| && columns[p] == name && forall q :: p < q < |columns| ==> columns[q] != name
  }

  /** A rule can run when it is enabled, asks for something, and the result has every column it names. */
  lemma UsableMeans(rule: Rule, columns: seq<string>)
    ensures Usable(rule, columns)
            <==> rule.enabled && rule.conditions != []
                 && forall i :: 0 <= i < |rule.conditions| ==> rule.conditions[i].column in columns
  {
    if rule.enabled && rule.conditions != [] && MissingOf(rule, columns) == {} {
      forall i | 0 <= i < |rule.conditions| ensures rule.conditions[i].column in columns {
        assert rule.conditions[i].column !in MissingOf(rule, columns);
      }
    }
  }

  lemma PositionIsLast(columns: seq<string>, name: string)
    ensures Position(columns, name).Some? ==> LastBearing(columns, Position(columns, name).value, name)
  {
    var p := Position(columns, name);
    if p.Some? {
      forall q | p.value < q < |columns| ensures columns[q] != name {
        assert columns[q] == columns[p.value + 1..][q - p.value - 1];
      }
    }
  }

  ghost predicate TrueOf(ops: TextOps, c: Condition, columns: seq<string>, row: Row)
    requires |row| == |columns|
  {
    exists p: nat :: LastBearing(columns, p, c.column) && Holds(ops, c, row[p])
  }

  /** A rule that can run catches a row when each condition is true of the cell under its column. */
  lemma CaughtMeans(ops: TextOps, rule: Rule, columns: seq<string>, row: Row)
    requires |row| == |columns|
    ensures Caught(ops, rule, columns, row)
            <==> rule.enabled && rule.conditions != []
                 && forall i :: 0 <= i < |rule.conditions| ==> TrueOf(ops, rule.conditions[i], columns, row)
  {
    UsableMeans(rule, columns);
    forall i | 0 <= i < |rule.conditions|
      ensures TrueOf(ops, rule.conditions[i], columns, row)
              <==> var p := Position(columns, rule.conditions[i].column); p.Some? && Holds(ops, rule.conditions[i], row[p.value])
    {
      TrueOfPosition(ops, rule.conditions[i], columns, row);
    }
  }

  lemma TrueOfPosition(ops: TextOps, c: Condition, columns: seq<string>, row: Row)
    requires |row| == |columns|
    ensures TrueOf(ops, c, columns, row) <==> var p := Position(columns, c.column); p.Some? && Holds(ops, c, row[p.value])
    ensures TrueOf(ops, c, columns, row) ==> c.column in columns
  {
    PositionIsLast(columns, c.column);
    var p := Position(columns, c.column);
    if q: nat :| LastBearing(columns, q, c.column) && Holds(ops, c, row[q]) {
      assert columns[q] in columns;
      assert q == p.value;
    }
  }

  lemma {:induction false} UsableRulesHas(rules: seq<Rule>, columns: seq<string>, r: Rule)
    ensures r in UsableRules(rules, columns) <==> r in rules && Usable(r, columns)
  {
    if rules != [] {
      UsableRulesHas(rules[..|rules| - 1], columns, r);
      assert rules == rules[..|rules| - 1] + [rules[|rules| - 1]];
    }
  }

  /** The line the summary holds for a rule. */
  ghost function HitOf(ops: TextOps, r: Rule, rules: seq<Rule>, columns: seq<string>, rows: seq<Row>): RuleHit
    requires Rectangular(columns, rows)
  {
    RuleHit(r.id, r.name, r.severity, if Usable(r, columns) then Tally(ops, rules, columns, rows, r.id) else 0)
  }

  lemma {:induction false} SkippedHas(rules: seq<Rule>, columns: seq<string>, h: RuleHit)
    ensures h in SkippedHits(rules, columns)
            <==> exists k :: 0 <= k < |rules| && rules[k].enabled && !Usable(rules[k], columns)
                             && h == RuleHit(rules[k].id, rules[k].name, rules[k].severity, 0)
  {
    if rules != [] {
      var front := rules[..|rules| - 1];
      SkippedHas(front, columns, h);
      assert forall k :: 0 <= k < |front| ==> rules[k] == front[k];
    }
  }

  lemma {:induction false} TalliesHas(ops: TextOps, usable: seq<Rule>, rules: seq<Rule>, columns: seq<string>, rows: seq<Row>, h: RuleHit)
    requires Rectangular(columns, rows)
    ensures h in Tallies(ops, usable, rules, columns, rows)
            <==> exists r :: r in usable && h == RuleHit(r.id, r.name, r.severity, Tally(ops, rules, columns, rows, r.id))
  {
    if usable != [] {
      var n := |usable| - 1;
      TalliesHas(ops, usable[..n], rules, columns, rows, h);
      assert usable == usable[..n] + [usable[n]];
    }
  }

  /** The summary has a line for every enabled rule and for nothing else, those that caught nothing included. */
  lemma SummaryHas(ops: TextOps, rules: seq<Rule>, columns: seq<string>, rows: seq<Row>, h: RuleHit)
    requires Rectangular(columns, rows)
    ensures h in OutcomeOf(ops, rules, columns, rows).rules
            <==> exists k :: 0 <= k < |rules| && rules[k].enabled && h == HitOf(ops, rules[k], rules, columns, rows)
  {
    var usable := UsableRules(rules, columns);
    SkippedHas(rules, columns, h);
    TalliesHas(ops, usable, rules, columns, rows, h);
    if r :| r in usable && h == RuleHit(r.id, r.name, r.severity, Tally(ops, rules, columns, rows, r.id)) {
      UsableRulesHas(rules, columns, r);
    }
    if k :| 0 <= k < |rules| && rules[k].enabled && h == HitOf(ops, rules[k], rules, columns, rows) {
      UsableRulesHas(rules, columns, rules[k]);
    }
  }

  ghost function EnabledAt(rules: seq<Rule>): set<int> { set k | 0 <= k < |rules| && rules[k].enabled }

  /** And exactly one line each. */
  lemma {:induction false} SummaryLength(rules: seq<Rule>, columns: seq<string>)
    ensures |SkippedHits(rules, columns)| + |UsableRules(rules, columns)| == |EnabledAt(rules)|
  {
    if rules != [] {
      var n := |rules| - 1;
      SummaryLength(rules[..n], columns);
      assert EnabledAt(rules) == EnabledAt(rules[..n]) + (if rules[n].enabled then {n} else {});
    }
  }

  lemma {:induction false} OneTallyEach(ops: TextOps, usable: seq<Rule>, rules: seq<Rule>, columns: seq<string>, rows: seq<Row>)
    requires Rectangular(columns, rows)
    ensures |Tallies(ops, usable, rules, columns, rows)| == |usable|
  {
    if usable != [] {
      OneTallyEach(ops, usable[..|usable| - 1], rules, columns, rows);
    }
  }

  lemma SummaryHasOneLineEach(ops: TextOps, rules: seq<Rule>, columns: seq<string>, rows: seq<Row>)
    requires Rectangular(columns, rows)
    ensures |OutcomeOf(ops, rules, columns, rows).rules| == |EnabledAt(rules)|
  {
    SummaryLength(rules, columns);
    OneTallyEach(ops, UsableRules(rules, columns), rules, columns, rows);
  }

  // --- what the warnings mean ---------------------------------------------------------------

  /** The warning a rule earns, if any: it asks for nothing, names columns that are not there, or caught nothing. */
  ghost predicate Earns(ops: TextOps, r: Rule, rules: seq<Rule>, columns: seq<string>, rows: seq<Row>, w: Warning)
    requires Rectangular(columns, rows)
  {
    && r.enabled
    && if r.conditions == [] then w == NoConditions(r.name)
       else if exists i :: 0 <= i < |r.conditions| && r.conditions[i].column !in columns then
         w.MissingColumns? && w.rule == r.name
         && forall name :: name in w.missing <==>
              name !in columns && exists i :: 0 <= i < |r.conditions| && r.conditions[i].column == name
       else Tally(ops, rules, columns, rows, r.id) == 0
            && w == MatchedNothing(r.name, NeverBoolean(ops, r.conditions, columns, rows))
  }

  lemma {:induction false} SkippedWarningsHas(rules: seq<Rule>, columns: seq<string>, w: Warning)
    ensures w in SkippedWarnings(rules, columns)
            <==> exists k :: 0 <= k < |rules| && rules[k].enabled && !Usable(rules[k], columns)
                             && w == (if rules[k].conditions == [] then NoConditions(rules[k].name)
                                      else MissingColumns(rules[k].name, MissingOf(rules[k], columns)))
  {
    if rules != [] {
      var front := rules[..|rules| - 1];
      SkippedWarningsHas(front, columns, w);
      assert forall k :: 0 <= k < |front| ==> rules[k] == front[k];
    }
  }

  lemma {:induction false} MissesHas(ops: TextOps, usable: seq<Rule>, rules: seq<Rule>, columns: seq<string>, rows: seq<Row>, w: Warning)
    requires Rectangular(columns, rows)
    ensures w in Misses(ops, usable, rules, columns, rows)
            <==> exists r :: r in usable && Tally(ops, rules, columns, rows, r.id) == 0
                             && w == MatchedNothing(r.name, NeverBoolean(ops, r.conditions, columns, rows))
  {
    if usable != [] {
      var n := |usable| - 1;
      MissesHas(ops, usable[..n], rules, columns, rows, w);
      assert usable == usable[..n] + [usable[n]];
    }
  }

  lemma EarnedWhenSkipped(ops: TextOps, r: Rule, rules: seq<Rule>, columns: seq<string>, rows: seq<Row>, w: Warning)
    requires Rectangular(columns, rows) && r.enabled && !Usable(r, columns)
    ensures Earns(ops, r, rules, columns, rows, w)
            <==> w == if r.conditions == [] then NoConditions(r.name) else MissingColumns(r.name, MissingOf(r, columns))
  {
    UsableMeans(r, columns);
    if r.conditions != [] && w.MissingColumns? {
      forall name ensures name in MissingOf(r, columns) <==>
                          name !in columns && exists i :: 0 <= i < |r.conditions| && r.conditions[i].column == name
      {
      }
      if Earns(ops, r, rules, columns, rows, w) {
        assert w.missing == MissingOf(r, columns);
      }
    }
  }

  lemma EarnedWhenUsable(ops: TextOps, r: Rule, rules: seq<Rule>, columns: seq<string>, rows: seq<Row>, w: Warning)
    requires Rectangular(columns, rows) && Usable(r, columns)
    ensures Earns(ops, r, rules, columns, rows, w)
            <==> Tally(ops, rules, columns, rows, r.id) == 0
                 && w == MatchedNothing(r.name, NeverBoolean(ops, r.conditions, columns, rows))
  {
    UsableMeans(r, columns);
  }

  /** The warnings are exactly those the rules earn. */
  lemma WarningsAreEarned(ops: TextOps, rules: seq<Rule>, columns: seq<string>, rows: seq<Row>, w: Warning)
    requires Rectangular(columns, rows)
    ensures w in OutcomeOf(ops, rules, columns, rows).warnings
            <==> exists k :: 0 <= k < |rules| && Earns(ops, rules[k], rules, columns, rows, w)
  {
    var usable := UsableRules(rules, columns);
    SkippedWarningsHas(rules, columns, w);
    MissesHas(ops, usable, rules, columns, rows, w);
    if k :| 0 <= k < |rules| && rules[k].enabled && !Usable(rules[k], columns)
            && w == (if rules[k].conditions == [] then NoConditions(rules[k].name)
                     else MissingColumns(rules[k].name, MissingOf(rules[k], columns))) {
      EarnedWhenSkipped(ops, rules[k], rules, columns, rows, w);
    }
    if r :| r in usable && Tally(ops, rules, columns, rows, r.id) == 0
            && w == MatchedNothing(r.name, NeverBoolean(ops, r.conditions, columns, rows)) {
      UsableRulesHas(rules, columns, r);
      EarnedWhenUsable(ops, r, rules, columns, rows, w);
    }
    if k :| 0 <= k < |rules| && Earns(ops, rules[k], rules, columns, rows, w) {
      UsableRulesHas(rules, columns, rules[k]);
      if Usable(rules[k], columns) {
        EarnedWhenUsable(ops, rules[k], rules, columns, rows, w);
      } else {
        EarnedWhenSkipped(ops, rules[k], rules, columns, rows, w);
      }
    }
  }

  /** A condition comparing a column with a truth value where the column has cells and none of them is one. */
  ghost predicate Mistyped(ops: TextOps, c: Condition, columns: seq<string>, rows: seq<Row>)
    requires Rectangular(columns, rows)
  {
    && (c.op == Eq || c.op == Neq) && AsBool(ops, Expected(c.value)).Some?
    && exists p: nat ::
         && LastBearing(columns, p, c.column)
         && (exists i :: 0 <= i < |rows| && rows[i][p] != Null)
         && forall i :: 0 <= i < |rows| ==> !rows[i][p].Bool? && !IsBoolWord(ops, rows[i][p])
  }

  lemma MistypedAtPosition(ops: TextOps, c: Condition, columns: seq<string>, rows: seq<Row>)
    requires Rectangular(columns, rows)
    ensures Mistyped(ops, c, columns, rows)
            <==> var p := Position(columns, c.column);
                 && (c.op.Eq? || c.op.Neq?) && AsBool(ops, Expected(c.value)).Some? && p.Some?
                 && (exists i :: 0 <= i < |rows| && !rows[i][p.value].Null?)
                 && (forall i :: 0 <= i < |rows| && !rows[i][p.value].Null? ==>
                       !rows[i][p.value].Bool? && !IsBoolWord(ops, rows[i][p.value]))
  {
    PositionIsLast(columns, c.column);
  }

  /** The column named in a warning is that of the first such condition; none is named when there is none. */
  lemma {:induction false} NeverBooleanNamesTheFirst(ops: TextOps, conditions: seq<Condition>, columns: seq<string>, rows: seq<Row>)
    requires Rectangular(columns, rows)
    ensures var named := NeverBoolean(ops, conditions, columns, rows);
            if named.None? then forall i :: 0 <= i < |conditions| ==> !Mistyped(ops, conditions[i], columns, rows)
            else exists i :: 0 <= i < |conditions| && named.value == conditions[i].column && Mistyped(ops, conditions[i], columns, rows)
                             && forall j :: 0 <= j < i ==> !Mistyped(ops, conditions[j], columns, rows)
  {
    if conditions != [] {
      var rest := conditions[1..];
      MistypedAtPosition(ops, conditions[0], columns, rows);
      if !Mistyped(ops, conditions[0], columns, rows) {
        NeverBooleanNamesTheFirst(ops, rest, columns, rows);
        assert NeverBoolean(ops, conditions, columns, rows) == NeverBoolean(ops, rest, columns, rows);
        assert forall j :: 0 < j < |conditions| ==> conditions[j] == rest[j - 1];
        if NeverBoolean(ops, rest, columns, rows).Some? {
          var i :| 0 <= i < |rest| && NeverBoolean(ops, rest, columns, rows).value == rest[i].column
                   && Mistyped(ops, rest[i], columns, rows)
                   && forall j :: 0 <= j < i ==> !Mistyped(ops, rest[j], columns, rows);
          assert conditions[i + 1] == rest[i];
        }
      }
    }
  }
}
