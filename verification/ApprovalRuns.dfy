/** Every run of the publish-approval protocol: the states a chart can be in, the audit log that replays to them,
    and what an approval that is read piece by piece can publish. */
module ApprovalRuns {
  import opened Wrappers
  import opened ChartDefinition
  import opened ChartSets
  import opened ChartPublishing

  // --- the states of a chart -------------------------------------------------------------

  ghost predicate Undecided(p: Publishing) { p.requestedBy.None? && p.requestedAt.None? }

  ghost predicate Unnoticed(p: Publishing) { p.rejectedBy.None? && p.rejectedAt.None? && p.rejectedReason.None? }

  ghost predicate Unpublished(p: Publishing) { !p.isPublic && p.publishedBy.None? && p.publishedAt.None? }

  /** Exactly one of four: private, private with a rejection notice, pending, published. */
  ghost predicate IsPlainPrivate(p: Publishing) { Unpublished(p) && Undecided(p) && Unnoticed(p) }

  ghost predicate IsRejected(p: Publishing)
  {
    Unpublished(p) && Undecided(p) && p.rejectedBy.Some? && p.rejectedAt.Some?
  }

  ghost predicate IsAwaiting(p: Publishing)
  {
    Unpublished(p) && p.requestedBy.Some? && p.requestedAt.Some? && Unnoticed(p)
  }

  ghost predicate IsPublic(p: Publishing)
  {
    p.isPublic && p.publishedBy.Some? && p.publishedAt.Some? && Undecided(p) && Unnoticed(p)
  }

  ghost predicate ChartOk(p: Publishing) { IsPlainPrivate(p) || IsRejected(p) || IsAwaiting(p) || IsPublic(p) }

  function StatusAfter(a: Action): Status
  {
    match a
    case Published => IsPublished
    case PublishApproved => IsPublished
    case PublishRequested => IsPending
    case Unpublished => IsPrivate
    case PublishRejected => IsPrivate
    case PublishCancelled => IsPrivate
  }

  /** The status a chart's last audit entry tells; private when it has none. */
  function LoggedStatus(log: seq<Entry>, chart: string): Status
  {
    if log == [] then IsPrivate
    else if log[|log| - 1].chart == chart then StatusAfter(log[|log| - 1].action)
    else LoggedStatus(log[..|log| - 1], chart)
  }

  ghost predicate Good(db: Db)
  {
    forall id :: id in db.charts ==>
      ChartOk(db.charts[id].pub) && StatusOf(db.charts[id].pub) == LoggedStatus(db.log, id)
  }

  /** Replacing a chart set keeps identities and uses new identifiers; every other step is free. */
  ghost predicate Enabled(db: Db, step: Step)
  {
    step.EditCharts? ==> ReplacesCharts(db, step.query, step.newCharts)
  }

  lemma {:induction false} UnloggedIsPrivate(log: seq<Entry>, chart: string)
    requires forall k :: 0 <= k < |log| ==> log[k].chart != chart
    ensures LoggedStatus(log, chart) == IsPrivate
  {
    if log != [] {
      UnloggedIsPrivate(log[..|log| - 1], chart);
    }
  }

  ghost predicate IsTransition(step: Step)
  {
    !step.EditQuery? && !step.EditRules? && !step.EditCharts?
  }

  /** A transition moves a chart between the four states, to the one its audit entry names. */
  lemma TransitionChangesState(db: Db, step: Step)
    requires IsTransition(step) && Matches(db, step) && ChartOk(db.charts[step.chart].pub)
    ensures var p, p' := db.charts[step.chart].pub, PubAfter(db.charts[step.chart].pub, step);
            ChartOk(p') && StatusOf(p') == if ActionOf(step).Some? then StatusAfter(ActionOf(step).value) else StatusOf(p)
  {
  }

  lemma TransitionIsLogged(db: Db, step: Step)
    requires Good(db) && IsTransition(step) && Matches(db, step)
    ensures var t := After(db, step);
            && step.chart in t.charts && ChartOk(t.charts[step.chart].pub)
            && StatusOf(t.charts[step.chart].pub) == LoggedStatus(t.log, step.chart)
  {
    TransitionChangesState(db, step);
    var t := After(db, step);
    assert t.charts[step.chart].pub == PubAfter(db.charts[step.chart].pub, step);
    if ActionOf(step).Some? {
      assert t.log[|t.log| - 1] == Entry(step.user.id, ActionOf(step).value, step.chart);
    }
  }

  lemma StepKeepsGood(db: Db, step: Step)
    requires Good(db) && Enabled(db, step)
    ensures Good(After(db, step))
  {
    var t := After(db, step);
    if !Matches(db, step) || step.EditQuery? || step.EditRules? {
    } else if step.EditCharts? {
      forall id | id in t.charts
        ensures ChartOk(t.charts[id].pub) && StatusOf(t.charts[id].pub) == LoggedStatus(t.log, id)
      {
        if id !in db.charts {
          UnloggedIsPrivate(db.log, id);
        }
      }
    } else {
      TransitionIsLogged(db, step);
      forall id | id in t.charts && id != step.chart ensures LoggedStatus(t.log, id) == LoggedStatus(db.log, id) {
        if t.log != db.log {
          assert t.log[..|t.log| - 1] == db.log;
        }
      }
    }
  }

  /** Where runs start: no chart and an empty log, whatever queries and rules are stored. */
  lemma EmptyIsGood(queries: map<string, Query>, rules: map<string, seq<StoredRule>>)
    ensures Good(Db(queries, rules, map[], []))
  {
  }

  function Play(db: Db, steps: seq<Step>): Db
    decreases |steps|
  {
    if steps == [] then db else Play(After(db, steps[0]), steps[1..])
  }

  ghost predicate Run(db: Db, steps: seq<Step>)
    decreases |steps|
  {
    steps == [] || (Enabled(db, steps[0]) && Run(After(db, steps[0]), steps[1..]))
  }

  /** In every reachable state each chart is in exactly one of the four states, all its columns consistent, and its
      status is the one its last audit entry tells. */
  lemma {:induction false} StatesAndLogAgree(db: Db, steps: seq<Step>)
    requires Good(db) && Run(db, steps)
    ensures Good(Play(db, steps))
    decreases |steps|
  {
    if steps != [] {
      StepKeepsGood(db, steps[0]);
      StatesAndLogAgree(After(db, steps[0]), steps[1..]);
    }
  }

  /** The four states exclude each other. */
  lemma StatesAreDisjoint(p: Publishing)
    ensures !(IsPlainPrivate(p) && IsRejected(p)) && !(IsPlainPrivate(p) && IsAwaiting(p)) && !(IsPlainPrivate(p) && IsPublic(p))
    ensures !(IsRejected(p) && IsAwaiting(p)) && !(IsRejected(p) && IsPublic(p)) && !(IsAwaiting(p) && IsPublic(p))
  {
  }

  /** A transition that finds the row changed writes nothing, not even an entry; one that does not, writes exactly one
      entry when it changes the status and none when it only clears a notice. */
  lemma OneEntryPerTransition(db: Db, step: Step)
    requires Good(db)
    ensures !Matches(db, step) ==> After(db, step) == db
    ensures Matches(db, step) && ActionOf(step).Some? ==>
              && |After(db, step).log| == |db.log| + 1
              && StatusOf(After(db, step).charts[step.chart].pub) != StatusOf(db.charts[step.chart].pub)
    ensures ActionOf(step).None? ==> After(db, step).log == db.log
    ensures step.DismissNotice? && Matches(db, step) ==>
              StatusOf(After(db, step).charts[step.chart].pub) == StatusOf(db.charts[step.chart].pub) == IsPrivate
  {
  }

  // --- what an approval publishes -----------------------------------------------------------

  /** What a chart's fingerprint is taken over. */
  datatype Definition = Definition(query: QueryDefinition, mapping: Mapping, rules: seq<StoredRule>)

  function DefinitionOf(db: Db, chart: string): Definition
    requires chart in db.charts && db.charts[chart].query in db.queries
  {
    var c := db.charts[chart];
    Definition(db.queries[c.query].definition, c.mapping, RulesOf(db, c.query))
  }

  ghost predicate EditedByAdmin(step: Step, query: string)
  {
    || (step.EditQuery? && step.query == query && step.user.isAdmin)
    || (step.EditRules? && step.query == query && step.user.isAdmin)
    || (step.EditCharts? && step.query == query && step.user.isAdmin)
  }

  /** Request moments of one chart are never used twice. `asked` holds those used so far. */
  ghost predicate FreshRequests(steps: seq<Step>, chart: string, asked: set<int>)
    decreases |steps|
  {
    steps == [] ||
    (if steps[0].Ask? && steps[0].chart == chart
     then steps[0].now !in asked && FreshRequests(steps[1..], chart, asked + {steps[0].now})
     else FreshRequests(steps[1..], chart, asked))
  }

  /** The request seen at one moment still stands, over the very definition of that moment. */
  ghost predicate Untouched(db: Db, chart: string, query: string, at: int, who: Option<string>, d: Definition)
  {
    && chart in db.charts && db.charts[chart].query == query && query in db.queries
    && SameRequest(db.charts[chart].pub, Some(at), who)
    && DefinitionOf(db, chart) == d
  }

  /** The request is over, and its moment can never stand again. */
  ghost predicate Over(db: Db, chart: string, at: int)
  {
    chart in db.charts ==> db.charts[chart].pub.requestedAt != Some(at) || db.charts[chart].pub.isPublic
  }

  ghost predicate UntouchedOrOver(db: Db, chart: string, query: string, at: int, who: Option<string>, d: Definition)
  {
    Untouched(db, chart, query, at, who, d) || Over(db, chart, at)
  }

  lemma StepKeepsUntouched(db: Db, step: Step, chart: string, query: string, at: int, who: Option<string>, d: Definition)
    requires Good(db) && Enabled(db, step)
    requires Untouched(db, chart, query, at, who, d)
    requires !EditedByAdmin(step, query) && !(step.Ask? && step.chart == chart && step.now == at)
    ensures UntouchedOrOver(After(db, step), chart, query, at, who, d)
  {
  }

  lemma StepKeepsOver(db: Db, step: Step, chart: string, at: int)
    requires Good(db) && Enabled(db, step) && Over(db, chart, at)
    requires !(step.Ask? && step.chart == chart && step.now == at)
    ensures Over(After(db, step), chart, at)
  {
  }

  /** Until it is decided or withdrawn, a pending request freezes what it asks about. */
  lemma {:induction false} PendingFreezesDefinition(db: Db, steps: seq<Step>, chart: string, query: string, at: int,
                                                    who: Option<string>, d: Definition, asked: set<int>)
    requires Good(db) && Run(db, steps) && UntouchedOrOver(db, chart, query, at, who, d)
    requires FreshRequests(steps, chart, asked) && at in asked
    requires forall k :: 0 <= k < |steps| ==> !EditedByAdmin(steps[k], query)
    ensures Good(Play(db, steps)) && UntouchedOrOver(Play(db, steps), chart, query, at, who, d)
    decreases |steps|
  {
    if steps != [] {
      var step, next := steps[0], After(db, steps[0]);
      StepKeepsGood(db, step);
      if Untouched(db, chart, query, at, who, d) {
        StepKeepsUntouched(db, step, chart, query, at, who, d);
      } else {
        StepKeepsOver(db, step, chart, at);
      }
      var asked' := if step.Ask? && step.chart == chart then asked + {step.now} else asked;
      PendingFreezesDefinition(next, steps[1..], chart, query, at, who, d, asked');
    }
  }

  /** `approve`, read piece by piece: the chart's row at `atRow`, then the query at `atQuery`, the rules at `atRules`,
      and the conditional write at `atWrite`, with anything happening in between. */
  datatype Approval = Approval(atRow: Db, atQuery: Db, atRules: Db, atWrite: Db)

  /** The approval happened along a run: three stretches of other people's steps between its four moments. */
  ghost predicate Along(a: Approval, first: seq<Step>, second: seq<Step>, third: seq<Step>)
  {
    && Run(a.atRow, first) && a.atQuery == Play(a.atRow, first)
    && Run(a.atQuery, second) && a.atRules == Play(a.atQuery, second)
    && Run(a.atRules, third) && a.atWrite == Play(a.atRules, third)
  }

  lemma {:induction false} PlayConcat(db: Db, a: seq<Step>, b: seq<Step>)
    requires Run(db, a) && Run(Play(db, a), b)
    ensures Run(db, a + b) && Play(db, a + b) == Play(Play(db, a), b)
    decreases |a|
  {
    if a == [] {
      assert a + b == b;
    } else {
      PlayConcat(After(db, a[0]), a[1..], b);
      assert (a + b)[0] == a[0] && (a + b)[1..] == a[1..] + b;
    }
  }

  lemma {:induction false} FreshPrefix(a: seq<Step>, b: seq<Step>, chart: string, asked: set<int>)
    requires FreshRequests(a + b, chart, asked)
    ensures FreshRequests(a, chart, asked)
    decreases |a|
  {
    if a != [] {
      assert (a + b)[0] == a[0] && (a + b)[1..] == a[1..] + b;
      FreshPrefix(a[1..], b, chart, if a[0].Ask? && a[0].chart == chart then asked + {a[0].now} else asked);
    }
  }

  lemma {:induction false} OverStaysOver(db: Db, steps: seq<Step>, chart: string, at: int, asked: set<int>)
    requires Good(db) && Run(db, steps) && Over(db, chart, at)
    requires FreshRequests(steps, chart, asked) && at in asked
    ensures Over(Play(db, steps), chart, at)
    decreases |steps|
  {
    if steps != [] {
      StepKeepsGood(db, steps[0]);
      StepKeepsOver(db, steps[0], chart, at);
      var asked' := if steps[0].Ask? && steps[0].chart == chart then asked + {steps[0].now} else asked;
      OverStaysOver(After(db, steps[0]), steps[1..], chart, at, asked');
    }
  }

  lemma {:induction false} FreshSuffix(a: seq<Step>, b: seq<Step>, chart: string, asked: set<int>) returns (later: set<int>)
    requires FreshRequests(a + b, chart, asked)
    ensures asked <= later && FreshRequests(b, chart, later)
    decreases |a|
  {
    if a == [] {
      assert a + b == b;
      later := asked;
    } else {
      assert (a + b)[0] == a[0] && (a + b)[1..] == a[1..] + b;
      later := FreshSuffix(a[1..], b, chart, if a[0].Ask? && a[0].chart == chart then asked + {a[0].now} else asked);
    }
  }

  /** If the request still stands at the end of a run, it stood, over the same definition, at every moment of it. */
  lemma StoodThroughout(db: Db, before: seq<Step>, rest: seq<Step>, chart: string, query: string, at: int,
                        who: Option<string>, d: Definition, asked: set<int>)
    requires Good(db) && Run(db, before) && Run(Play(db, before), rest)
    requires Untouched(db, chart, query, at, who, d)
    requires FreshRequests(before + rest, chart, asked) && at in asked
    requires forall k :: 0 <= k < |before + rest| ==> !EditedByAdmin((before + rest)[k], query)
    requires !Over(Play(Play(db, before), rest), chart, at)
    ensures Untouched(Play(db, before), chart, query, at, who, d)
  {
    FreshPrefix(before, rest, chart, asked);
    var later := FreshSuffix(before, rest, chart, asked);
    assert forall k :: 0 <= k < |before| ==> before[k] == (before + rest)[k];
    PendingFreezesDefinition(db, before, chart, query, at, who, d, asked);
    if Over(Play(db, before), chart, at) {
      OverStaysOver(Play(db, before), rest, chart, at, later);
    }
  }

  /** What everybody else may do while an approval is being read and written: anything but reuse a request moment of
      the chart, or edit its query as an administrator. */
  ghost predicate Allowed(steps: seq<Step>, chart: string, query: string, asked: set<int>)
  {
    FreshRequests(steps, chart, asked) && forall k :: 0 <= k < |steps| ==> !EditedByAdmin(steps[k], query)
  }

  /** The request an approval read, as its write requires it. */
  function ApproveOf(a: Approval, chart: string, user: Caller, now: int): Step
    requires chart in a.atRow.charts
  {
    Approve(user, chart, a.atRow.charts[chart].pub.requestedAt, a.atRow.charts[chart].pub.requestedBy, now)
  }

  /** Whatever authors and other administrators' decisions interleave, if the write goes through then every piece was
      read from one and the same definition, and that is the definition stored when it is published. */
  lemma ReadFromOneDefinition(a: Approval, first: seq<Step>, second: seq<Step>, third: seq<Step>, chart: string,
                              asked: set<int>, user: Caller, now: int)
    requires Good(a.atRow) && Along(a, first, second, third)
    requires chart in a.atRow.charts && StatusOf(a.atRow.charts[chart].pub).IsPending?
    requires a.atRow.charts[chart].query in a.atRow.queries
    requires a.atRow.charts[chart].pub.requestedAt.value in asked
    requires Allowed(first + (second + third), chart, a.atRow.charts[chart].query, asked)
    requires Matches(a.atWrite, ApproveOf(a, chart, user, now))
    ensures var c := a.atRow.charts[chart];
            var at, who, d := c.pub.requestedAt.value, c.pub.requestedBy, DefinitionOf(a.atRow, chart);
            && Untouched(a.atQuery, chart, c.query, at, who, d)
            && Untouched(a.atRules, chart, c.query, at, who, d)
            && Untouched(a.atWrite, chart, c.query, at, who, d)
  {
    var c := a.atRow.charts[chart];
    var at, who, d := c.pub.requestedAt.value, c.pub.requestedBy, DefinitionOf(a.atRow, chart);
    assert ChartOk(c.pub);
    assert !Over(a.atWrite, chart, at);
    PlayConcat(a.atQuery, second, third);
    StoodThroughout(a.atRow, first, second + third, chart, c.query, at, who, d, asked);
    StatesAndLogAgree(a.atRow, first);
    var later := AllowedSuffix(first, second + third, chart, c.query, asked);
    StoodToTheWrite(a, second, third, chart, c.query, at, who, d, later);
  }

  /** The same for the rules read and the write, once the query was read. */
  lemma StoodToTheWrite(a: Approval, second: seq<Step>, third: seq<Step>, chart: string, query: string, at: int,
                        who: Option<string>, d: Definition, asked: set<int>)
    requires Good(a.atQuery) && Run(a.atQuery, second) && a.atRules == Play(a.atQuery, second)
    requires Run(a.atRules, third) && a.atWrite == Play(a.atRules, third)
    requires Untouched(a.atQuery, chart, query, at, who, d) && !Over(a.atWrite, chart, at)
    requires at in asked && Allowed(second + third, chart, query, asked)
    ensures Untouched(a.atRules, chart, query, at, who, d) && Untouched(a.atWrite, chart, query, at, who, d)
  {
    StoodThroughout(a.atQuery, second, third, chart, query, at, who, d, asked);
    StatesAndLogAgree(a.atQuery, second);
    var later := AllowedSuffix(second, third, chart, query, asked);
    assert third + [] == third;
    StoodThroughout(a.atRules, third, [], chart, query, at, who, d, later);
  }

  lemma AllowedSuffix(before: seq<Step>, rest: seq<Step>, chart: string, query: string, asked: set<int>) returns (later: set<int>)
    requires Allowed(before + rest, chart, query, asked)
    ensures asked <= later && Allowed(rest, chart, query, later)
  {
    later := FreshSuffix(before, rest, chart, asked);
    assert forall k :: 0 <= k < |rest| ==> rest[k] == (before + rest)[|before| + k];
  }

  /** Approval is bound to the definition: if the fingerprint computed equals the one the administrator was shown and
      the write goes through, the chart is published, in the author's name, with a stored definition of exactly that
      fingerprint, hence with the canonical definition that was reviewed. */
  lemma ApprovalPublishesWhatWasReviewed(hash: Canonical -> string, a: Approval, first: seq<Step>, second: seq<Step>,
                                         third: seq<Step>, chart: string, asked: set<int>, user: Caller, now: int,
                                         reviewed: Definition)
    requires Good(a.atRow) && Along(a, first, second, third)
    requires chart in a.atRow.charts && StatusOf(a.atRow.charts[chart].pub).IsPending?
    requires a.atRow.charts[chart].query in a.atRow.queries && a.atRow.charts[chart].query in a.atQuery.queries
    requires a.atRow.charts[chart].pub.requestedAt.value in asked
    requires Allowed(first + (second + third), chart, a.atRow.charts[chart].query, asked)
    requires Matches(a.atWrite, ApproveOf(a, chart, user, now))
    requires var c := a.atRow.charts[chart];
             Fingerprint(hash, a.atQuery.queries[c.query].definition, c.mapping,
                         if c.query in a.atRules.rules then a.atRules.rules[c.query] else [])
             == Fingerprint(hash, reviewed.query, reviewed.mapping, reviewed.rules)
    ensures var t := After(a.atWrite, ApproveOf(a, chart, user, now));
            && chart in t.charts && t.charts[chart].pub.isPublic && t.charts[chart].query in t.queries
            && t.charts[chart].pub.publishedBy == a.atRow.charts[chart].pub.requestedBy
            && FingerprintOf(hash, t, chart) == Fingerprint(hash, reviewed.query, reviewed.mapping, reviewed.rules)
            && (CollisionFree(hash) ==>
                  var stored := DefinitionOf(t, chart);
                  CanonicalOf(stored.query, stored.mapping, stored.rules)
                  == CanonicalOf(reviewed.query, reviewed.mapping, reviewed.rules))
  {
    ReadFromOneDefinition(a, first, second, third, chart, asked, user, now);
    var t := After(a.atWrite, ApproveOf(a, chart, user, now));
    var stored := DefinitionOf(t, chart);
    assert stored == DefinitionOf(a.atRow, chart);
    if CollisionFree(hash) {
      FingerprintIsTheDefinition(hash, stored.query, stored.mapping, stored.rules,
                                 reviewed.query, reviewed.mapping, reviewed.rules);
    }
  }

  /** A retraction by somebody with the right to it: an administrator, or whoever published. */
  ghost predicate MayRetract(step: Step, chart: string, p: Publishing)
  {
    step.Unpublish? && step.chart == chart && (step.user.isAdmin || p.publishedBy == Some(step.user.id))
  }

  lemma StepKeepsShown(db: Db, step: Step, chart: string)
    requires Good(db) && Enabled(db, step)
    requires chart in db.charts && db.charts[chart].pub.isPublic && db.charts[chart].query in db.queries
    requires !EditedByAdmin(step, db.charts[chart].query) && !MayRetract(step, chart, db.charts[chart].pub)
    ensures var t := After(db, step);
            && chart in t.charts && t.charts[chart].pub == db.charts[chart].pub
            && t.charts[chart].query == db.charts[chart].query && t.charts[chart].query in t.queries
            && DefinitionOf(t, chart) == DefinitionOf(db, chart)
  {
  }

  /** What everyone is shown stays what was published: until an administrator or whoever published the chart retracts
      it, or an administrator edits its query, no run changes its definition or whose it is. Its author can try. */
  lemma {:induction false} PublishedUntilRetracted(db: Db, steps: seq<Step>, chart: string)
    requires Good(db) && Run(db, steps)
    requires chart in db.charts && db.charts[chart].pub.isPublic && db.charts[chart].query in db.queries
    requires forall k :: 0 <= k < |steps| ==>
               !EditedByAdmin(steps[k], db.charts[chart].query) && !MayRetract(steps[k], chart, db.charts[chart].pub)
    ensures var t := Play(db, steps);
            && chart in t.charts && t.charts[chart].pub == db.charts[chart].pub
            && t.charts[chart].query == db.charts[chart].query && t.charts[chart].query in t.queries
            && DefinitionOf(t, chart) == DefinitionOf(db, chart)
    decreases |steps|
  {
    if steps != [] {
      StepKeepsGood(db, steps[0]);
      StepKeepsShown(db, steps[0], chart);
      PublishedUntilRetracted(After(db, steps[0]), steps[1..], chart);
    }
  }

  // --- why both assumptions are there ------------------------------------------------------------

  /** A one-query database whose chart is pending since moment `at`. */
  function PendingDb(author: string, sql: string, m: Mapping, at: int): Db
  {
    Db(map["q" := Query(Some(author), QueryDefinition(sql, None, None))], map[],
       map["c" := Chart("q", "chart", 0, m, Private.(requestedBy := Some(author), requestedAt := Some(at)))],
       [Entry(author, PublishRequested, "c")])
  }

  /** If a request moment is reused, an author who withdraws, edits and asks again in the same instant gets the
      edited definition past an approval computed on the first one. */
  lemma ReusedMomentDefeatsTheCheck(author: string, admin: string, sql: string, edited: string, m: Mapping, at: int, now: int)
    requires sql != edited
    ensures var db, me := PendingDb(author, sql, m, at), Caller(author, false);
            var end := After(After(After(db, Withdraw(me, "c")), EditQuery(me, "q", QueryDefinition(edited, None, None))),
                             Ask(me, "c", at));
            var approve := Approve(Caller(admin, true), "c", Some(at), Some(author), now);
            && Good(db) && Matches(end, approve)
            && "c" in db.charts && "c" in After(end, approve).charts
            && DefinitionOf(After(end, approve), "c").query.sqlText == edited
            && DefinitionOf(db, "c").query.sqlText == sql
  {
    var db, me := PendingDb(author, sql, m, at), Caller(author, false);
    assert db.log[..0] == [];
    var one := After(db, Withdraw(me, "c"));
    assert !Frozen(one, "q");
    var two := After(one, EditQuery(me, "q", QueryDefinition(edited, None, None)));
    assert two.charts == one.charts;
  }

  /** And an administrator's edit of the pending query needs no withdrawal at all. */
  lemma AdminEditDefeatsTheCheck(author: string, admin: string, sql: string, edited: string, m: Mapping, at: int, now: int)
    requires sql != edited
    ensures var db, boss := PendingDb(author, sql, m, at), Caller(admin, true);
            var end := After(db, EditQuery(boss, "q", QueryDefinition(edited, None, None)));
            var approve := Approve(boss, "c", Some(at), Some(author), now);
            && Good(db) && Matches(end, approve) && "c" in After(end, approve).charts
            && DefinitionOf(After(end, approve), "c").query.sqlText == edited
  {
  }
}
