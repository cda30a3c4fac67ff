/** The stored findings of one query: the queue is what the last run matched, and each finding remembers when
    its current streak began. Fingerprinting a row is an uninterpreted function of its values. */
module FindingsQueue {
  import opened Wrappers
  import opened ListMatching
  import opened FlagEngine

  datatype Finding = Finding(
    values: Row, columns: seq<string>, ruleIds: seq<string>, ruleNames: seq<string>, severity: Severity,
    firstSeen: int, lastSeen: int)

  function Rank(s: Severity): nat
  {
    match s case Low => 0 case Medium => 1 case High => 2
  }

  /** `_worst`: the highest severity, LOW for none. */
  method Worst(severities: seq<Severity>) returns (best: Severity)
    ensures forall s :: s in severities ==> Rank(s) <= Rank(best)
    ensures best.Low? || best in severities
    ensures best == if High in severities then High else if Medium in severities then Medium else Low
    ensures best == WorstOf(severities)
  {
    best := Low;
    for n := 0 to |severities|
      invariant forall i :: 0 <= i < n ==> Rank(severities[i]) <= Rank(best)
      invariant best.Low? || best in severities[..n]
    {
      if Rank(severities[n]) > Rank(best) {
        best := severities[n];
      }
    }
    WorstIsTheMaximum(severities, best);
  }

  function WorstOf(severities: seq<Severity>): Severity
  {
    if severities == [] then Low
    else
      var rest := WorstOf(severities[1..]);
      if Rank(severities[0]) > Rank(rest) then severities[0] else rest
  }

  lemma {:induction false} WorstIsTheMaximum(severities: seq<Severity>, best: Severity)
    requires forall s :: s in severities ==> Rank(s) <= Rank(best)
    requires best.Low? || best in severities
    ensures best == WorstOf(severities)
  {
    if severities != [] {
      var rest := WorstOf(severities[1..]);
      WorstIsTheMaximum(severities[1..], rest) by { WorstBounds(severities[1..]); }
      WorstBounds(severities[1..]);
      assert severities == [severities[0]] + severities[1..];
    }
  }

  lemma {:induction false} WorstBounds(severities: seq<Severity>)
    ensures forall s :: s in severities ==> Rank(s) <= Rank(WorstOf(severities))
    ensures WorstOf(severities).Low? || WorstOf(severities) in severities
  {
    if severities != [] {
      WorstBounds(severities[1..]);
      assert severities == [severities[0]] + severities[1..];
    }
  }

  // --- one run --------------------------------------------------------------

  datatype Match = Match(
    values: Row, columns: seq<string>, ruleIds: seq<string>, ruleNames: seq<string>, severity: Severity)

  function NameOf(rules: seq<RuleHit>, id: string): Option<RuleHit>
  {
    if rules == [] then None
    else if rules[|rules| - 1].id == id then Some(rules[|rules| - 1])
    else NameOf(rules[..|rules| - 1], id)
  }

  function KnownHits(rules: seq<RuleHit>, ids: seq<string>): seq<RuleHit>
  {
    if ids == [] then []
    else (var hit := NameOf(rules, ids[0]); if hit.Some? then [hit.value] else []) + KnownHits(rules, ids[1..])
  }

  function Names(hits: seq<RuleHit>): seq<string> { seq(|hits|, i requires 0 <= i < |hits| => hits[i].name) }

  function Severities(hits: seq<RuleHit>): seq<Severity> { seq(|hits|, i requires 0 <= i < |hits| => hits[i].severity) }

  function MatchFor(columns: seq<string>, row: Row, flag: RowFlag, rules: seq<RuleHit>): Match
  {
    var hits := KnownHits(rules, flag.ruleIds);
    Match(row, columns, flag.ruleIds, Names(hits), WorstOf(Severities(hits)))
  }

  /** What a run matched, by fingerprint; rows of equal values are one finding. */
  function MatchedBy(fp: Row -> string, columns: seq<string>, rows: seq<Row>, outcome: FlagOutcome): map<string, Match>
  {
    MatchedRows(fp, columns, rows, outcome.rows, outcome.rules)
  }

  function MatchedRows(fp: Row -> string, columns: seq<string>, rows: seq<Row>, flags: seq<RowFlag>,
                       rules: seq<RuleHit>): map<string, Match>
  {
    if flags == [] then map[]
    else
      var flag := flags[|flags| - 1];
      var before := MatchedRows(fp, columns, rows, flags[..|flags| - 1], rules);
      if flag.index < |rows| then before[fp(rows[flag.index]) := MatchFor(columns, rows[flag.index], flag, rules)]
      else before
  }

  /** The last flagged row with this fingerprint. */
  ghost predicate LastFlagged(fp: Row -> string, rows: seq<Row>, flags: seq<RowFlag>, f: string, a: nat)
  {
    && a < |flags| && flags[a].index < |rows| && fp(rows[flags[a].index]) == f
    && forall b :: a < b < |flags| && flags[b].index < |rows| ==> fp(rows[flags[b].index]) != f
  }

  /** The last line of the summary for this rule. */
  ghost predicate LineOf(rules: seq<RuleHit>, id: string, hit: RuleHit)
  {
    exists j :: 0 <= j < |rules| && rules[j] == hit && hit.id == id && forall i :: j < i < |rules| ==> rules[i].id != id
  }

  /** A match tells of one row: its values, the rules that caught it, their names one for one, and the worst of their
      severities. */
  ghost predicate Tells(m: Match, columns: seq<string>, row: Row, ids: seq<string>, rules: seq<RuleHit>)
  {
    && m.values == row && m.columns == columns && m.ruleIds == ids && |m.ruleNames| == |ids|
    && (forall k :: 0 <= k < |ids| ==> exists hit :: LineOf(rules, ids[k], hit) && m.ruleNames[k] == hit.name)
    && (forall k, hit :: 0 <= k < |ids| && LineOf(rules, ids[k], hit) ==> Rank(hit.severity) <= Rank(m.severity))
    && (m.severity == Low || exists k, hit :: 0 <= k < |ids| && LineOf(rules, ids[k], hit) && hit.severity == m.severity)
  }

  ghost predicate Summed(rules: seq<RuleHit>, id: string) { exists j :: 0 <= j < |rules| && rules[j].id == id }

  ghost predicate AllSummed(rules: seq<RuleHit>, ids: seq<string>)
  {
    forall k :: 0 <= k < |ids| ==> Summed(rules, ids[k])
  }

  lemma {:induction false} NameOfIsLineOf(rules: seq<RuleHit>, id: string, hit: RuleHit)
    ensures NameOf(rules, id) == Some(hit) <==> LineOf(rules, id, hit)
    ensures NameOf(rules, id).None? ==> forall j :: 0 <= j < |rules| ==> rules[j].id != id
  {
    if rules != [] {
      var n := |rules| - 1;
      NameOfIsLineOf(rules[..n], id, hit);
      assert forall j :: 0 <= j < n ==> rules[..n][j] == rules[j];
      if rules[n].id == id {
        assert LineOf(rules, id, rules[n]);
      }
    }
  }

  lemma {:induction false} KnownHitsAt(rules: seq<RuleHit>, ids: seq<string>)
    requires AllSummed(rules, ids)
    ensures |KnownHits(rules, ids)| == |ids|
    ensures forall k :: 0 <= k < |ids| ==> LineOf(rules, ids[k], KnownHits(rules, ids)[k])
  {
    if ids != [] {
      var hit, rest := NameOf(rules, ids[0]), KnownHits(rules, ids[1..]);
      assert forall k :: 0 <= k < |ids[1..]| ==> ids[1..][k] == ids[k + 1];
      KnownHitsAt(rules, ids[1..]);
      NameOfIsLineOf(rules, ids[0], if hit.Some? then hit.value else RuleHit("", "", Low, 0));
      assert Summed(rules, ids[0]);
      forall k | 0 <= k < |ids| ensures LineOf(rules, ids[k], KnownHits(rules, ids)[k]) {
        if k > 0 {
          assert KnownHits(rules, ids)[k] == rest[k - 1];
        }
      }
    }
  }

  lemma OneLine(rules: seq<RuleHit>, id: string, a: RuleHit, b: RuleHit)
    requires LineOf(rules, id, a) && LineOf(rules, id, b)
    ensures a == b
  {
    NameOfIsLineOf(rules, id, a);
    NameOfIsLineOf(rules, id, b);
  }

  lemma MatchForTells(columns: seq<string>, row: Row, flag: RowFlag, rules: seq<RuleHit>)
    requires AllSummed(rules, flag.ruleIds)
    ensures Tells(MatchFor(columns, row, flag, rules), columns, row, flag.ruleIds, rules)
  {
    var m, hits := MatchFor(columns, row, flag, rules), KnownHits(rules, flag.ruleIds);
    KnownHitsAt(rules, flag.ruleIds);
    WorstBounds(Severities(hits));
    forall k, hit | 0 <= k < |flag.ruleIds| && LineOf(rules, flag.ruleIds[k], hit) ensures Rank(hit.severity) <= Rank(m.severity) {
      OneLine(rules, flag.ruleIds[k], hit, hits[k]);
      assert Severities(hits)[k] in Severities(hits);
    }
    if m.severity != Low {
      var k :| 0 <= k < |hits| && Severities(hits)[k] == m.severity;
      assert LineOf(rules, flag.ruleIds[k], hits[k]);
    }
    forall k | 0 <= k < |flag.ruleIds| ensures exists hit :: LineOf(rules, flag.ruleIds[k], hit) && m.ruleNames[k] == hit.name {
      assert LineOf(rules, flag.ruleIds[k], hits[k]);
    }
  }

  /** What is stored under a fingerprint tells of the last flagged row bearing it. */
  lemma {:induction false} MatchTellsOfTheLast(fp: Row -> string, columns: seq<string>, rows: seq<Row>, flags: seq<RowFlag>,
                                               rules: seq<RuleHit>, f: string, a: nat)
    requires LastFlagged(fp, rows, flags, f, a) && AllSummed(rules, flags[a].ruleIds)
    ensures f in MatchedRows(fp, columns, rows, flags, rules)
    ensures Tells(MatchedRows(fp, columns, rows, flags, rules)[f], columns, rows[flags[a].index], flags[a].ruleIds, rules)
  {
    var n := |flags| - 1;
    if a == n {
      MatchForTells(columns, rows[flags[n].index], flags[n], rules);
    } else {
      assert flags[..n][a] == flags[a];
      assert forall b :: a < b < n ==> flags[..n][b] == flags[b];
      MatchTellsOfTheLast(fp, columns, rows, flags[..n], rules, f, a);
    }
  }

  function Fresh(found: Match, first: int, now: int): Finding
  {
    Finding(found.values, found.columns, found.ruleIds, found.ruleNames, found.severity, first, now)
  }

  /** The table after a run: exactly the matches; a kept finding keeps when it was first seen. */
  function Synced(stored: map<string, Finding>, matched: map<string, Match>, now: int): map<string, Finding>
  {
    map f | f in matched :: Fresh(matched[f], if f in stored then stored[f].firstSeen else now, now)
  }

  function Removed(stored: map<string, Finding>, fingerprints: Option<seq<string>>): map<string, Finding>
  {
    if fingerprints.None? then map[]
    else map f | f in stored && f !in fingerprints.value :: stored[f]
  }

  /** The findings table of one query. */
  class Findings {
    var stored: map<string, Finding>

    constructor ()
      ensures stored == map[]
    {
      stored := map[];
    }

    /** `sync`: make the stored findings equal what this run matched, and report how many. */
    method Sync(fp: Row -> string, columns: seq<string>, rows: seq<Row>, outcome: FlagOutcome, now: int)
      returns (count: nat)
      modifies this
      ensures stored == Synced(old(stored), MatchedBy(fp, columns, rows, outcome), now)
      ensures count == |stored|
    {
      var matched := CollectMatches(fp, columns, rows, outcome);
      var existing := stored;
      var todo := existing.Keys;
      while todo != {}
        invariant todo <= existing.Keys
        invariant forall f :: f in stored <==> f in todo || (f in existing && f in matched)
        invariant forall f :: f in todo ==> stored[f] == existing[f]
        invariant forall f :: f in stored && f !in todo ==> stored[f] == Fresh(matched[f], existing[f].firstSeen, now)
        decreases todo
      {
        var f :| f in todo;
        if f !in matched {
          stored := stored - {f};
        } else {
          stored := stored[f := Fresh(matched[f], existing[f].firstSeen, now)];
        }
        todo := todo - {f};
      }
      todo := matched.Keys;
      while todo != {}
        invariant todo <= matched.Keys
        invariant forall f :: f in stored <==> f in matched && (f in existing || f !in todo)
        invariant forall f :: f in stored ==>
          stored[f] == Fresh(matched[f], if f in existing then existing[f].firstSeen else now, now)
        decreases todo
      {
        var f :| f in todo;
        if f !in existing {
          stored := stored[f := Fresh(matched[f], now, now)];
        }
        todo := todo - {f};
      }
      assert stored == Synced(existing, matched, now);
      assert stored.Keys == matched.Keys;
      count := |matched|;
    }

    /** `delete_rows`: drop the named findings, or all of them for None, and report how many of those named were
        there. Naming none drops none. */
    method DeleteRows(fingerprints: Option<seq<string>>) returns (removed: nat)
      modifies this
      ensures forall f :: f in stored <==> f in old(stored) && fingerprints.Some? && f !in fingerprints.value
      ensures forall f :: f in stored ==> stored[f] == old(stored)[f]
      ensures removed == |set f | f in old(stored) && (fingerprints.None? || f in fingerprints.value)|
      ensures stored == Removed(old(stored), fingerprints)
    {
      var doomed := stored.Keys;
      if fingerprints.Some? {
        if fingerprints.value == [] {
          assert (set f | f in stored && (fingerprints.None? || f in fingerprints.value)) == {};
          return 0;
        }
        doomed := set f | f in stored && f in fingerprints.value;
      }
      assert doomed == set f | f in stored && (fingerprints.None? || f in fingerprints.value);
      stored, removed := stored - doomed, |doomed|;
    }
  }

  method CollectMatches(fp: Row -> string, columns: seq<string>, rows: seq<Row>, outcome: FlagOutcome)
    returns (matched: map<string, Match>)
    ensures matched == MatchedBy(fp, columns, rows, outcome)
  {
    matched := map[];
    for n := 0 to |outcome.rows|
      invariant matched == MatchedRows(fp, columns, rows, outcome.rows[..n], outcome.rules)
    {
      var flag := outcome.rows[n];
      assert outcome.rows[..n + 1][..n] == outcome.rows[..n];
      if flag.index < |rows| {
        var values := rows[flag.index];
        var hits := KnownHits(outcome.rules, flag.ruleIds);
        var severity := Worst(Severities(hits));
        matched := matched[fp(values) := Match(values, columns, flag.ruleIds, Names(hits), severity)];
      }
    }
    assert outcome.rows[..|outcome.rows|] == outcome.rows;
  }

  // --- every history --------------------------------------------------------

  datatype Event =
    | Run(rules: seq<Rule>, columns: seq<string>, rows: seq<Row>, now: int)
    | Delete(fingerprints: Option<seq<string>>)

  ghost predicate WellFormed(e: Event) { e.Run? ==> Rectangular(e.columns, e.rows) }

  function Apply(ops: TextOps, fp: Row -> string, stored: map<string, Finding>, e: Event): map<string, Finding>
    requires WellFormed(e)
  {
    match e
    case Run(rules, columns, rows, now) =>
      Synced(stored, MatchedBy(fp, columns, rows, OutcomeOf(ops, rules, columns, rows)), now)
    case Delete(fingerprints) => Removed(stored, fingerprints)
  }

  function Play(ops: TextOps, fp: Row -> string, history: seq<Event>): map<string, Finding>
    requires forall i :: 0 <= i < |history| ==> WellFormed(history[i])
  {
    if history == [] then map[]
    else Apply(ops, fp, Play(ops, fp, history[..|history| - 1]), history[|history| - 1])
  }

  /** Some row of the run with this fingerprint is caught by an enabled, non-empty rule with all columns present. */
  ghost predicate MatchedIn(ops: TextOps, fp: Row -> string, e: Event, f: string)
    requires WellFormed(e)
  {
    e.Run? && exists i :: 0 <= i < |e.rows| && fp(e.rows[i]) == f && RowCaught(ops, e, e.rows[i])
  }

  ghost predicate RowCaught(ops: TextOps, e: Event, row: Row)
    requires e.Run? && |row| == |e.columns|
  {
    exists k :: 0 <= k < |e.rules| && Caught(ops, e.rules[k], e.columns, row)
  }

  /** An event a present finding survives: a run that still matches it, or a deletion of others. */
  ghost predicate Survives(ops: TextOps, fp: Row -> string, e: Event, f: string)
    requires WellFormed(e)
  {
    match e
    case Run(_, _, _, _) => MatchedIn(ops, fp, e, f)
    case Delete(fingerprints) => fingerprints.Some? && f !in fingerprints.value
  }

  /** Event i matched the finding and everything since has kept it. */
  ghost predicate HeldSince(ops: TextOps, fp: Row -> string, history: seq<Event>, f: string, i: int)
    requires forall j :: 0 <= j < |history| ==> WellFormed(history[j])
  {
    && 0 <= i < |history| && MatchedIn(ops, fp, history[i], f)
    && forall j :: i < j < |history| ==> Survives(ops, fp, history[j], f)
  }

  /** The first event of the current unbroken streak. */
  ghost predicate StreakStart(ops: TextOps, fp: Row -> string, history: seq<Event>, f: string, i: int)
    requires forall j :: 0 <= j < |history| ==> WellFormed(history[j])
  {
    HeldSince(ops, fp, history, f, i) && forall k :: k < i ==> !HeldSince(ops, fp, history, f, k)
  }

  /** Some flagged row has this fingerprint. */
  ghost predicate BearsFlag(fp: Row -> string, rows: seq<Row>, flags: seq<RowFlag>, f: string)
  {
    exists a :: 0 <= a < |flags| && flags[a].index < |rows| && fp(rows[flags[a].index]) == f
  }

  lemma {:induction false} MatchedRowsKeys(fp: Row -> string, columns: seq<string>, rows: seq<Row>,
                                           flags: seq<RowFlag>, rules: seq<RuleHit>, f: string)
    ensures f in MatchedRows(fp, columns, rows, flags, rules) <==> BearsFlag(fp, rows, flags, f)
    ensures f in MatchedRows(fp, columns, rows, flags, rules) ==>
              fp(MatchedRows(fp, columns, rows, flags, rules)[f].values) == f
  {
    if flags != [] {
      var front := flags[..|flags| - 1];
      MatchedRowsKeys(fp, columns, rows, front, rules, f);
      assert forall a :: 0 <= a < |front| ==> flags[a] == front[a];
    }
  }

  lemma CaughtByIffRowCaught(ops: TextOps, e: Event, row: Row)
    requires e.Run? && |row| == |e.columns|
    ensures CaughtBy(ops, e.rules, e.columns, row) != [] <==> RowCaught(ops, e, row)
  {
    var ids := CaughtBy(ops, e.rules, e.columns, row);
    if ids != [] {
      CaughtByHas(ops, e.rules, e.columns, row, ids[0]);
    }
    if k :| 0 <= k < |e.rules| && Caught(ops, e.rules[k], e.columns, row) {
      CaughtByHas(ops, e.rules, e.columns, row, e.rules[k].id);
    }
  }

  /** A row bearing the fingerprint is flagged exactly when the run matched it. */
  lemma FlagsMeanMatched(ops: TextOps, fp: Row -> string, e: Event, f: string)
    requires WellFormed(e) && e.Run?
    ensures BearsFlag(fp, e.rows, FlaggedRows(ops, e.rules, e.columns, e.rows), f) <==> MatchedIn(ops, fp, e, f)
  {
    var flags := FlaggedRows(ops, e.rules, e.columns, e.rows);
    FlaggedExactly(ops, e.rules, e.columns, e.rows);
    if a :| 0 <= a < |flags| && flags[a].index < |e.rows| && fp(e.rows[flags[a].index]) == f {
      CaughtByIffRowCaught(ops, e, e.rows[flags[a].index]);
    }
    if i :| 0 <= i < |e.rows| && fp(e.rows[i]) == f && RowCaught(ops, e, e.rows[i]) {
      CaughtByIffRowCaught(ops, e, e.rows[i]);
      assert HasFlag(flags, i);
    }
  }

  /** After a run the findings are exactly the fingerprints of the rows its rules catch. */
  lemma RunLeavesWhatItMatched(ops: TextOps, fp: Row -> string, stored: map<string, Finding>, e: Event, f: string)
    requires WellFormed(e) && e.Run?
    ensures f in Apply(ops, fp, stored, e) <==> MatchedIn(ops, fp, e, f)
    ensures f in Apply(ops, fp, stored, e) ==>
              var after := Apply(ops, fp, stored, e)[f];
              && after.lastSeen == e.now && fp(after.values) == f
              && after.firstSeen == if f in stored then stored[f].firstSeen else e.now
  {
    var outcome := OutcomeOf(ops, e.rules, e.columns, e.rows);
    FlagsMeanMatched(ops, fp, e, f);
    MatchedRowsKeys(fp, e.columns, e.rows, outcome.rows, outcome.rules, f);
  }

  lemma {:induction false} LastFlaggedExists(fp: Row -> string, rows: seq<Row>, flags: seq<RowFlag>, f: string) returns (a: nat)
    requires BearsFlag(fp, rows, flags, f)
    ensures LastFlagged(fp, rows, flags, f, a)
  {
    var n := |flags| - 1;
    a := n;
    if !(flags[n].index < |rows| && fp(rows[flags[n].index]) == f) {
      var b :| 0 <= b < |flags| && flags[b].index < |rows| && fp(rows[flags[b].index]) == f;
      assert flags[..n][b] == flags[b];
      a := LastFlaggedExists(fp, rows, flags[..n], f);
      assert forall c :: a <= c < n ==> flags[..n][c] == flags[c];
    }
  }

  /** Every rule a flag lists has its line in the summary. */
  lemma FlagsAreSummed(ops: TextOps, rules: seq<Rule>, columns: seq<string>, rows: seq<Row>, a: nat)
    requires Rectangular(columns, rows) && a < |FlaggedRows(ops, rules, columns, rows)|
    ensures AllSummed(OutcomeOf(ops, rules, columns, rows).rules, FlaggedRows(ops, rules, columns, rows)[a].ruleIds)
  {
    var flag, hits := FlaggedRows(ops, rules, columns, rows)[a], OutcomeOf(ops, rules, columns, rows).rules;
    FlagsListTheirRules(ops, rules, columns, rows, a);
    forall k | 0 <= k < |flag.ruleIds| ensures Summed(hits, flag.ruleIds[k]) {
      CaughtByHas(ops, rules, columns, rows[flag.index], flag.ruleIds[k]);
      var i :| 0 <= i < |rules| && rules[i].id == flag.ruleIds[k] && Caught(ops, rules[i], columns, rows[flag.index]);
      var h := HitOf(ops, rules[i], rules, columns, rows);
      SummaryHas(ops, rules, columns, rows, h);
      var j :| 0 <= j < |hits| && hits[j] == h;
    }
  }

  /** What a run stores of a finding tells of the last row bearing it: its values, the rules that catch it, their
      names, and the worst of their severities. */
  lemma RunTellsOfTheRow(ops: TextOps, fp: Row -> string, stored: map<string, Finding>, e: Event, f: string) returns (i: nat)
    requires WellFormed(e) && e.Run? && f in Apply(ops, fp, stored, e)
    ensures var after := Apply(ops, fp, stored, e)[f];
            && i < |e.rows| && fp(e.rows[i]) == f
            && Tells(Match(after.values, after.columns, after.ruleIds, after.ruleNames, after.severity),
                     e.columns, e.rows[i], CaughtBy(ops, e.rules, e.columns, e.rows[i]),
                     OutcomeOf(ops, e.rules, e.columns, e.rows).rules)
            && forall j :: i < j < |e.rows| && fp(e.rows[j]) == f ==> CaughtBy(ops, e.rules, e.columns, e.rows[j]) == []
  {
    var outcome := OutcomeOf(ops, e.rules, e.columns, e.rows);
    MatchedRowsKeys(fp, e.columns, e.rows, outcome.rows, outcome.rules, f);
    var a := LastFlaggedExists(fp, e.rows, outcome.rows, f);
    i := outcome.rows[a].index;
    FlagsListTheirRules(ops, e.rules, e.columns, e.rows, a);
    FlagsAreSummed(ops, e.rules, e.columns, e.rows, a);
    MatchTellsOfTheLast(fp, e.columns, e.rows, outcome.rows, outcome.rules, f, a);
    var m := MatchedBy(fp, e.columns, e.rows, outcome)[f];
    assert Tells(m, e.columns, e.rows[i], CaughtBy(ops, e.rules, e.columns, e.rows[i]), outcome.rules);
    assert m == Match(m.values, m.columns, m.ruleIds, m.ruleNames, m.severity);
    forall j | i < j < |e.rows| && fp(e.rows[j]) == f ensures CaughtBy(ops, e.rules, e.columns, e.rows[j]) == [] {
      LaterRowsAreNotFlagged(ops, fp, e, f, a, j);
    }
  }

  lemma LaterRowsAreNotFlagged(ops: TextOps, fp: Row -> string, e: Event, f: string, a: nat, j: nat)
    requires WellFormed(e) && e.Run?
    requires var flags := FlaggedRows(ops, e.rules, e.columns, e.rows);
             LastFlagged(fp, e.rows, flags, f, a) && flags[a].index < j < |e.rows| && fp(e.rows[j]) == f
    ensures CaughtBy(ops, e.rules, e.columns, e.rows[j]) == []
  {
    var flags := FlaggedRows(ops, e.rules, e.columns, e.rows);
    if CaughtBy(ops, e.rules, e.columns, e.rows[j]) != [] {
      CaughtRowIsFlagged(ops, e.rules, e.columns, e.rows, j);
      var b :| 0 <= b < |flags| && flags[b].index == j;
      if b < a {
        FlagsInOrder(ops, e.rules, e.columns, e.rows, b, a);
      }
    }
  }

  /** The queue tracks matches over every history: a finding is stored exactly when some run matched it and
      nothing since has dropped it. */
  lemma {:induction false} QueueTracksMatches(ops: TextOps, fp: Row -> string, history: seq<Event>, f: string)
    requires forall i :: 0 <= i < |history| ==> WellFormed(history[i])
    ensures f in Play(ops, fp, history) <==> Held(ops, fp, history, f)
  {
    if history != [] {
      var n := |history| - 1;
      QueueTracksMatches(ops, fp, history[..n], f);
      HeldStep(ops, fp, history, f);
      PlayStep(ops, fp, Play(ops, fp, history[..n]), history[n], f);
    }
  }

  ghost predicate Held(ops: TextOps, fp: Row -> string, history: seq<Event>, f: string)
    requires forall i :: 0 <= i < |history| ==> WellFormed(history[i])
  {
    exists i :: HeldSince(ops, fp, history, f, i)
  }

  lemma HeldStep(ops: TextOps, fp: Row -> string, history: seq<Event>, f: string)
    requires history != [] && forall i :: 0 <= i < |history| ==> WellFormed(history[i])
    ensures var e := history[|history| - 1];
            Held(ops, fp, history, f)
            <==> MatchedIn(ops, fp, e, f) || (Held(ops, fp, history[..|history| - 1], f) && Survives(ops, fp, e, f))
  {
    var before, e := history[..|history| - 1], history[|history| - 1];
    HeldLonger(ops, fp, history, before, f);
    if i :| HeldSince(ops, fp, history, f, i) {
      assert i == |before| || HeldSince(ops, fp, before, f, i);
    }
    if MatchedIn(ops, fp, e, f) {
      assert HeldSince(ops, fp, history, f, |before|);
    }
    if Survives(ops, fp, e, f) && Held(ops, fp, before, f) {
      var i :| HeldSince(ops, fp, before, f, i);
      assert HeldSince(ops, fp, history, f, i);
    }
  }

  lemma PlayStep(ops: TextOps, fp: Row -> string, stored: map<string, Finding>, e: Event, f: string)
    requires WellFormed(e)
    ensures f in Apply(ops, fp, stored, e)
            <==> MatchedIn(ops, fp, e, f) || (f in stored && Survives(ops, fp, e, f))
  {
    if e.Run? {
      RunLeavesWhatItMatched(ops, fp, stored, e, f);
    }
  }

  /** A stored finding was first seen at the run that began its current streak. */
  lemma {:induction false} FirstSeenIsStreakStart(ops: TextOps, fp: Row -> string, history: seq<Event>, f: string, i: int)
    requires forall j :: 0 <= j < |history| ==> WellFormed(history[j])
    requires StreakStart(ops, fp, history, f, i)
    ensures f in Play(ops, fp, history) && Play(ops, fp, history)[f].firstSeen == history[i].now
  {
    var n := |history| - 1;
    var before := history[..n];
    HeldLonger(ops, fp, history, before, f);
    QueueTracksMatches(ops, fp, history, f);
    if i < n {
      FirstSeenIsStreakStart(ops, fp, before, f, i);
    } else {
      QueueTracksMatches(ops, fp, before, f);
    }
    if history[n].Run? {
      RunLeavesWhatItMatched(ops, fp, Play(ops, fp, before), history[n], f);
    }
  }

  /** One event later: held since i means held since i before and surviving it, or starting right there. */
  lemma HeldLonger(ops: TextOps, fp: Row -> string, history: seq<Event>, before: seq<Event>, f: string)
    requires history != [] && forall i :: 0 <= i < |history| ==> WellFormed(history[i])
    requires before == history[..|history| - 1]
    ensures forall i :: i < |before| ==> (HeldSince(ops, fp, history, f, i)
                                          <==> HeldSince(ops, fp, before, f, i) && Survives(ops, fp, history[|before|], f))
    ensures HeldSince(ops, fp, history, f, |before|) <==> MatchedIn(ops, fp, history[|before|], f)
  {
  }

  /** A streak start exists for every stored finding. */
  lemma {:induction false} StreakStartExists(ops: TextOps, fp: Row -> string, history: seq<Event>, f: string, i: nat)
    requires forall j :: 0 <= j < |history| ==> WellFormed(history[j])
    requires HeldSince(ops, fp, history, f, i)
    ensures exists k :: StreakStart(ops, fp, history, f, k)
  {
    if k: nat :| k < i && HeldSince(ops, fp, history, f, k) {
      StreakStartExists(ops, fp, history, f, k);
    } else {
      assert StreakStart(ops, fp, history, f, i);
    }
  }
}
