/** The publish-approval protocol: every transition is one conditional update with its audit entry, and a query with
    a published or pending chart is frozen for everyone but administrators. */
module ChartPublishing {
  import opened Wrappers
  import opened ChartDefinition
  import opened ChartSets

  datatype Caller = Caller(id: string, isAdmin: bool)

  datatype Query = Query(owner: Option<string>, definition: QueryDefinition)

  datatype Action = Published | Unpublished | PublishRequested | PublishApproved | PublishRejected | PublishCancelled

  datatype Entry = Entry(actor: string, action: Action, chart: string)

  datatype Db = Db(queries: map<string, Query>, rules: map<string, seq<StoredRule>>, charts: Charts, log: seq<Entry>)

  datatype Error = QueryNotFound | Forbidden | NotPending | DefinitionChanged | QueryFrozen

  datatype Status = IsPrivate | IsPending | IsPublished

  /** `publish_status`. */
  function StatusOf(p: Publishing): Status
  {
    if p.isPublic then IsPublished else if p.requestedAt.Some? then IsPending else IsPrivate
  }

  // --- one chart's transitions ---------------------------------------------------------

  function Unrequested(p: Publishing): Publishing { p.(requestedBy := None, requestedAt := None) }

  function Unrejected(p: Publishing): Publishing { p.(rejectedBy := None, rejectedAt := None, rejectedReason := None) }

  function PublishedBy(p: Publishing, who: Option<string>, now: int): Publishing
  {
    Unrejected(Unrequested(p)).(isPublic := true, publishedBy := who, publishedAt := Some(now))
  }

  function RejectedBy(p: Publishing, who: string, reason: Option<string>, now: int): Publishing
  {
    Unrequested(p).(rejectedBy := Some(who), rejectedAt := Some(now), rejectedReason := reason)
  }

  /** The request that was read is still the one standing. */
  predicate SameRequest(p: Publishing, at: Option<int>, who: Option<string>)
  {
    !p.isPublic && at.Some? && p.requestedAt == at && p.requestedBy == who
  }

  /** Everything that touches charts or what they draw, one atomic write each. `seenAt` and `seenBy` are what an
      administrator's request had read before its write. */
  datatype Step =
    | Ask(user: Caller, chart: string, now: int)
    | PublishNow(user: Caller, chart: string, now: int)
    | Withdraw(user: Caller, chart: string)
    | DismissNotice(user: Caller, chart: string)
    | Approve(user: Caller, chart: string, seenAt: Option<int>, seenBy: Option<string>, now: int)
    | Reject(user: Caller, chart: string, seenAt: Option<int>, seenBy: Option<string>, reason: Option<string>, now: int)
    | Unpublish(user: Caller, chart: string)
    | EditQuery(user: Caller, query: string, definition: QueryDefinition)
    | EditRules(user: Caller, query: string, newRules: seq<StoredRule>)
    | EditCharts(user: Caller, query: string, newCharts: Charts)

  predicate MayTouch(db: Db, user: Caller, query: string)
  {
    query in db.queries && (user.isAdmin || db.queries[query].owner == Some(user.id))
  }

  /** `frozen_by` is not empty. */
  predicate Frozen(db: Db, query: string)
  {
    exists id :: id in db.charts && db.charts[id].query == query && (db.charts[id].pub.isPublic || db.charts[id].pub.requestedAt.Some?)
  }

  predicate MayEdit(db: Db, user: Caller, query: string)
  {
    MayTouch(db, user, query) && (user.isAdmin || !Frozen(db, query))
  }

  /** What a whole-set replacement may do to the chart table: other queries' charts stay, a chart that stays keeps its
      publishing columns, and a new one is private under an identifier never used before. */
  ghost predicate ReplacesCharts(db: Db, query: string, newCharts: Charts)
  {
    && (forall id :: id in db.charts && db.charts[id].query != query ==> id in newCharts && newCharts[id] == db.charts[id])
    && (forall id :: id in newCharts && id in db.charts ==>
          newCharts[id].query == db.charts[id].query && newCharts[id].pub == db.charts[id].pub)
    && (forall id :: id in newCharts && id !in db.charts ==>
          newCharts[id].query == query && newCharts[id].pub == Private && forall k :: 0 <= k < |db.log| ==> db.log[k].chart != id)
  }

  /** The state the write requires of the row it finds. */
  predicate Matches(db: Db, step: Step)
  {
    match step
    case EditQuery(user, q, _) => MayEdit(db, user, q)
    case EditRules(user, q, _) => MayEdit(db, user, q)
    case EditCharts(user, q, _) => MayEdit(db, user, q)
    case _ =>
      step.chart in db.charts &&
      var c := db.charts[step.chart];
      match step
      case Ask(user, _, _) => MayTouch(db, user, c.query) && !user.isAdmin && !c.pub.isPublic && c.pub.requestedAt.None?
      case PublishNow(user, _, _) => MayTouch(db, user, c.query) && user.isAdmin && !c.pub.isPublic
      case Withdraw(user, _) => MayTouch(db, user, c.query) && !c.pub.isPublic && c.pub.requestedAt.Some?
      case DismissNotice(user, _) =>
        MayTouch(db, user, c.query) && !c.pub.isPublic && c.pub.requestedAt.None? && c.pub.rejectedAt.Some?
      case Approve(user, _, at, who, _) => user.isAdmin && SameRequest(c.pub, at, who)
      case Reject(user, _, at, who, _, _) => user.isAdmin && SameRequest(c.pub, at, who)
      case Unpublish(user, _) =>
        MayTouch(db, user, c.query) && c.pub.isPublic && (user.isAdmin || c.pub.publishedBy == Some(user.id))
  }

  function PubAfter(p: Publishing, step: Step): Publishing
  {
    match step
    case Ask(user, _, now) => Unrejected(p).(requestedBy := Some(user.id), requestedAt := Some(now))
    case PublishNow(user, _, now) => PublishedBy(p, Some(user.id), now)
    case Withdraw(_, _) => Unrequested(p)
    case DismissNotice(_, _) => Unrejected(p)
    case Approve(_, _, _, who, now) => PublishedBy(p, who, now)
    case Reject(user, _, _, _, reason, now) => RejectedBy(p, user.id, reason, now)
    case Unpublish(_, _) => p.(isPublic := false, publishedBy := None, publishedAt := None)
    case _ => p
  }

  /** The one audit entry a transition writes; dismissing a notice and editing write none here. */
  function ActionOf(step: Step): Option<Action>
  {
    match step
    case Ask(_, _, _) => Some(PublishRequested)
    case PublishNow(_, _, _) => Some(Published)
    case Withdraw(_, _) => Some(PublishCancelled)
    case Approve(_, _, _, _, _) => Some(PublishApproved)
    case Reject(_, _, _, _, _, _) => Some(PublishRejected)
    case Unpublish(_, _) => Some(Unpublished)
    case _ => None
  }

  /** One atomic write: applied with its audit entry when the row is still as the decision assumed, else nothing. */
  function After(db: Db, step: Step): Db
  {
    if !Matches(db, step) then db
    else
      match step
      case EditQuery(_, q, definition) => db.(queries := db.queries[q := db.queries[q].(definition := definition)])
      case EditRules(_, q, newRules) => db.(rules := db.rules[q := newRules])
      case EditCharts(_, _, newCharts) => db.(charts := newCharts)
      case _ =>
        var c := db.charts[step.chart];
        db.(charts := db.charts[step.chart := c.(pub := PubAfter(c.pub, step))],
            log := if ActionOf(step).Some? then db.log + [Entry(step.user.id, ActionOf(step).value, step.chart)] else db.log)
  }

  function Cleaned(strip: string -> string, reason: Option<string>): Option<string>
  {
    if reason.Some? && strip(reason.value) != "" then Some(strip(reason.value)) else None
  }

  // --- the service, run one request at a time ---------------------------------------------

  function RulesOf(db: Db, query: string): seq<StoredRule> { if query in db.rules then db.rules[query] else [] }

  /** `fingerprint_of` a chart's stored definition. */
  function FingerprintOf(hash: Canonical -> string, db: Db, chart: string): string
    requires chart in db.charts && db.charts[chart].query in db.queries
  {
    var c := db.charts[chart];
    Fingerprint(hash, db.queries[c.query].definition, c.mapping, RulesOf(db, c.query))
  }

  // --- what each request comes to, column by column -----------------------------------------

  /** One chart's publishing columns are now `pub`, these entries were written, and nothing else moved. */
  ghost predicate Changed(before: Db, after: Db, chart: string, pub: Publishing, entries: seq<Entry>)
  {
    && chart in before.charts
    && after == Db(before.queries, before.rules, before.charts[chart := before.charts[chart].(pub := pub)], before.log + entries)
  }

  /** An administrator publishes a chart that is not public, whatever was asked or declined before. */
  lemma PublishingNow(db: Db, chart: string, user: Caller, now: int)
    requires chart in db.charts && MayTouch(db, user, db.charts[chart].query) && user.isAdmin
    ensures var after := After(db, PublishNow(user, chart, now));
            if db.charts[chart].pub.isPublic then after == db
            else Changed(db, after, chart, Publishing(true, Some(user.id), Some(now), None, None, None, None, None),
                         [Entry(user.id, Published, chart)])
  {
  }

  /** Anyone else asks, once; a notice from before is gone. */
  lemma Asking(db: Db, chart: string, user: Caller, now: int)
    requires chart in db.charts && MayTouch(db, user, db.charts[chart].query) && !user.isAdmin
    ensures var after, was := After(db, Ask(user, chart, now)), db.charts[chart].pub;
            if was.isPublic || was.requestedAt.Some? then after == db
            else Changed(db, after, chart, Publishing(false, was.publishedBy, was.publishedAt, Some(user.id), Some(now), None, None, None),
                         [Entry(user.id, PublishRequested, chart)])
  {
  }

  lemma Cancelling(db: Db, chart: string, user: Caller)
    requires chart in db.charts && MayTouch(db, user, db.charts[chart].query)
    ensures var was := db.charts[chart].pub;
            var after := if Matches(db, Withdraw(user, chart)) then After(db, Withdraw(user, chart)) else After(db, DismissNotice(user, chart));
            if was.isPublic || (was.requestedAt.None? && was.rejectedAt.None?) then after == db
            else if was.requestedAt.Some? then
              Changed(db, after, chart, was.(requestedBy := None, requestedAt := None), [Entry(user.id, PublishCancelled, chart)])
            else Changed(db, after, chart, was.(rejectedBy := None, rejectedAt := None, rejectedReason := None), [])
  {
    assert db.log + [] == db.log;
  }

  /** The author stays the publisher of what an administrator approves. */
  lemma Approving(db: Db, chart: string, user: Caller, now: int)
    requires chart in db.charts && user.isAdmin
    requires !db.charts[chart].pub.isPublic && db.charts[chart].pub.requestedAt.Some?
    ensures var was := db.charts[chart].pub;
            Changed(db, After(db, Approve(user, chart, was.requestedAt, was.requestedBy, now)), chart,
                    Publishing(true, was.requestedBy, Some(now), None, None, None, None, None),
                    [Entry(user.id, PublishApproved, chart)])
  {
  }

  lemma Rejecting(db: Db, chart: string, user: Caller, reason: Option<string>, now: int)
    requires chart in db.charts && user.isAdmin
    requires !db.charts[chart].pub.isPublic && db.charts[chart].pub.requestedAt.Some?
    ensures var was := db.charts[chart].pub;
            Changed(db, After(db, Reject(user, chart, was.requestedAt, was.requestedBy, reason, now)), chart,
                    Publishing(false, was.publishedBy, was.publishedAt, None, None, Some(user.id), Some(now), reason),
                    [Entry(user.id, PublishRejected, chart)])
  {
  }

  /** A decision lands only on the very request it was made on: on any other row it changes nothing. */
  lemma StaleDecisionsChangeNothing(db: Db, chart: string, user: Caller, at: int, who: Option<string>, reason: Option<string>, now: int)
    requires !(user.isAdmin && chart in db.charts && !db.charts[chart].pub.isPublic
               && db.charts[chart].pub.requestedAt == Some(at) && db.charts[chart].pub.requestedBy == who)
    ensures After(db, Approve(user, chart, Some(at), who, now)) == db
    ensures After(db, Reject(user, chart, Some(at), who, reason, now)) == db
  {
  }

  lemma Retracting(db: Db, chart: string, user: Caller)
    requires chart in db.charts && MayTouch(db, user, db.charts[chart].query)
    requires db.charts[chart].pub.isPublic ==> user.isAdmin || db.charts[chart].pub.publishedBy == Some(user.id)
    ensures var was, after := db.charts[chart].pub, After(db, Unpublish(user, chart));
            if !was.isPublic then after == db
            else Changed(db, after, chart, was.(isPublic := false, publishedBy := None, publishedAt := None),
                         [Entry(user.id, Unpublished, chart)])
  {
  }

  class Service {
    const hash: Canonical -> string
    const strip: string -> string
    var queries: map<string, Query>
    var rules: map<string, seq<StoredRule>>
    var charts: Charts
    var log: seq<Entry>

    constructor (hash: Canonical -> string, strip: string -> string)
      ensures this.hash == hash && this.strip == strip && Now() == Db(map[], map[], map[], [])
    {
      this.hash, this.strip := hash, strip;
      queries, rules, charts, log := map[], map[], map[], [];
    }

    function Now(): Db
      reads this
    {
      Db(queries, rules, charts, log)
    }

    /** Every chart belongs to a stored query (the foreign key). */
    ghost predicate Valid()
      reads this
    {
      forall id :: id in charts ==> charts[id].query in queries
    }

    /** `_apply_if`: one conditional UPDATE of a chart's publishing columns; the answer is whether it matched. */
    method ApplyIf(chart: string, condition: Publishing -> bool, values: Publishing -> Publishing) returns (matched: bool)
      modifies this`charts
      ensures matched <==> chart in old(charts) && condition(old(charts)[chart].pub)
      ensures charts == if matched then old(charts)[chart := old(charts)[chart].(pub := values(old(charts)[chart].pub))]
                        else old(charts)
    {
      matched := chart in charts && condition(charts[chart].pub);
      if matched {
        charts := charts[chart := charts[chart].(pub := values(charts[chart].pub))];
      }
    }

    method Audit(user: Caller, action: Action, chart: string)
      modifies this`log
      ensures log == old(log) + [Entry(user.id, action, chart)]
    {
      log := log + [Entry(user.id, action, chart)];
    }

    /** `publish`: an administrator publishes at once, anyone else asks; a second click changes nothing. */
    method Publish(chart: string, user: Caller, now: int) returns (r: Result<Chart, Error>)
      requires Valid()
      modifies this
      ensures Valid()
      ensures r.Err? <==> !(chart in old(charts) && MayTouch(old(Now()), user, old(charts)[chart].query))
      ensures r.Err? ==> r == Err(QueryNotFound) && Now() == old(Now())
      ensures r.Ok? ==> chart in charts && r.value == charts[chart]
      ensures r.Ok? && user.isAdmin ==>
                if old(charts)[chart].pub.isPublic then Now() == old(Now())
                else Changed(old(Now()), Now(), chart, Publishing(true, Some(user.id), Some(now), None, None, None, None, None),
                             [Entry(user.id, Published, chart)])
      ensures r.Ok? && !user.isAdmin ==>
                var was := old(charts)[chart].pub;
                if was.isPublic || was.requestedAt.Some? then Now() == old(Now())
                else Changed(old(Now()), Now(), chart,
                             Publishing(false, was.publishedBy, was.publishedAt, Some(user.id), Some(now), None, None, None),
                             [Entry(user.id, PublishRequested, chart)])
      ensures r.Ok? ==> Now() == After(old(Now()), if user.isAdmin then PublishNow(user, chart, now) else Ask(user, chart, now))
    {
      if chart !in charts || !MayTouch(Now(), user, charts[chart].query) {
        return Err(QueryNotFound);
      }
      if user.isAdmin {
        PublishingNow(Now(), chart, user, now);
        var done := ApplyIf(chart, (p: Publishing) => !p.isPublic, (p: Publishing) => PublishedBy(p, Some(user.id), now));
        if done {
          Audit(user, Published, chart);
        }
        return Ok(charts[chart]);
      }
      Asking(Now(), chart, user, now);
      var asked := ApplyIf(chart, (p: Publishing) => !p.isPublic && p.requestedAt.None?,
                           (p: Publishing) => Unrejected(p).(requestedBy := Some(user.id), requestedAt := Some(now)));
      if asked {
        Audit(user, PublishRequested, chart);
      }
      return Ok(charts[chart]);
    }

    /** `cancel_request`: withdraw a pending request, or dismiss a rejection notice. */
    method CancelRequest(chart: string, user: Caller) returns (r: Result<Chart, Error>)
      requires Valid()
      modifies this
      ensures Valid()
      ensures r.Err? <==> !(chart in old(charts) && MayTouch(old(Now()), user, old(charts)[chart].query))
      ensures r.Err? ==> r == Err(QueryNotFound) && Now() == old(Now())
      ensures r.Ok? ==> chart in charts && r.value == charts[chart]
      ensures r.Ok? ==>
                var was := old(charts)[chart].pub;
                if was.isPublic || (was.requestedAt.None? && was.rejectedAt.None?) then Now() == old(Now())
                else if was.requestedAt.Some? then
                  Changed(old(Now()), Now(), chart, was.(requestedBy := None, requestedAt := None),
                          [Entry(user.id, PublishCancelled, chart)])
                else Changed(old(Now()), Now(), chart, was.(rejectedBy := None, rejectedAt := None, rejectedReason := None), [])
      ensures r.Ok? ==> Now() == if Matches(old(Now()), Withdraw(user, chart)) then After(old(Now()), Withdraw(user, chart))
                                 else After(old(Now()), DismissNotice(user, chart))
    {
      if chart !in charts || !MayTouch(Now(), user, charts[chart].query) {
        return Err(QueryNotFound);
      }
      Cancelling(Now(), chart, user);
      var withdrawn := ApplyIf(chart, (p: Publishing) => !p.isPublic && p.requestedAt.Some?, (p: Publishing) => Unrequested(p));
      if withdrawn {
        Audit(user, PublishCancelled, chart);
      } else {
        var _ := ApplyIf(chart, (p: Publishing) => !p.isPublic && p.requestedAt.None? && p.rejectedAt.Some?, (p: Publishing) => Unrejected(p));
      }
      return Ok(charts[chart]);
    }

    /** Who may decide, and on what: the refusals `approve` and `reject` share. */
    method PendingFor(chart: string, user: Caller) returns (r: Result<Publishing, Error>)
      ensures !user.isAdmin ==> r == Err(Forbidden)
      ensures user.isAdmin && chart !in charts ==> r == Err(QueryNotFound)
      ensures user.isAdmin && chart in charts ==>
                r == if !charts[chart].pub.isPublic && charts[chart].pub.requestedAt.Some? then Ok(charts[chart].pub) else Err(NotPending)
    {
      if !user.isAdmin {
        return Err(Forbidden);
      }
      if chart !in charts {
        return Err(QueryNotFound);
      }
      if charts[chart].pub.isPublic || charts[chart].pub.requestedAt.None? {
        return Err(NotPending);
      }
      return Ok(charts[chart].pub);
    }

    /** `approve`, with nobody interleaving: publishes exactly when the caller is an administrator, the chart is
        pending, and its stored definition has the fingerprint that was reviewed. */
    method ApproveRequest(chart: string, user: Caller, seen: string, now: int) returns (r: Result<Chart, Error>)
      requires Valid()
      modifies this
      ensures Valid()
      ensures r.Ok? <==> user.isAdmin && chart in old(charts)
                         && !old(charts)[chart].pub.isPublic && old(charts)[chart].pub.requestedAt.Some?
                         && seen == var c := old(charts)[chart];
                                    Fingerprint(hash, old(queries)[c.query].definition, c.mapping,
                                                if c.query in old(rules) then old(rules)[c.query] else [])
      ensures r.Err? ==> Now() == old(Now())
      ensures r.Err? ==> r.error == if !user.isAdmin then Forbidden
                                    else if chart !in old(charts) then QueryNotFound
                                    else if StatusOf(old(charts)[chart].pub).IsPending? then DefinitionChanged
                                    else NotPending
      ensures r.Ok? ==> Changed(old(Now()), Now(), chart,
                                Publishing(true, old(charts)[chart].pub.requestedBy, Some(now), None, None, None, None, None),
                                [Entry(user.id, PublishApproved, chart)])
      ensures r.Ok? ==> chart in charts && r.value == charts[chart]
                        && Now() == After(old(Now()), Approve(user, chart, old(charts)[chart].pub.requestedAt,
                                                              old(charts)[chart].pub.requestedBy, now))
    {
      var pending := PendingFor(chart, user);
      if pending.Err? {
        return Err(pending.error);
      }
      var requestedAt, requester := pending.value.requestedAt, pending.value.requestedBy;
      Approving(Now(), chart, user, now);
      var current := FingerprintOf(hash, Now(), chart);
      if current != seen {
        return Err(DefinitionChanged);
      }
      var done := ApplyIf(chart, (p: Publishing) => SameRequest(p, requestedAt, requester), (p: Publishing) => PublishedBy(p, requester, now));
      if !done {
        return Err(NotPending);
      }
      Audit(user, PublishApproved, chart);
      return Ok(charts[chart]);
    }

    /** `reject`: the request is cleared and the author is told why; a blank reason is no reason. */
    method RejectRequest(chart: string, user: Caller, reason: Option<string>, now: int) returns (r: Result<Chart, Error>)
      requires Valid()
      modifies this
      ensures Valid()
      ensures r.Ok? <==> user.isAdmin && chart in old(charts)
                         && !old(charts)[chart].pub.isPublic && old(charts)[chart].pub.requestedAt.Some?
      ensures r.Err? ==> Now() == old(Now())
                         && r.error == if !user.isAdmin then Forbidden
                                       else if chart !in old(charts) then QueryNotFound else NotPending
      ensures r.Ok? ==>
                var was := old(charts)[chart].pub;
                Changed(old(Now()), Now(), chart,
                        Publishing(false, was.publishedBy, was.publishedAt, None, None, Some(user.id), Some(now),
                                   if reason.Some? && strip(reason.value) != "" then Some(strip(reason.value)) else None),
                        [Entry(user.id, PublishRejected, chart)])
      ensures r.Ok? ==>
                && chart in charts && r.value == charts[chart]
                && Now() == After(old(Now()), Reject(user, chart, old(charts)[chart].pub.requestedAt,
                                                     old(charts)[chart].pub.requestedBy, Cleaned(strip, reason), now))
    {
      var pending := PendingFor(chart, user);
      if pending.Err? {
        return Err(pending.error);
      }
      var requestedAt, requester := pending.value.requestedAt, pending.value.requestedBy;
      var cleaned := Cleaned(strip, reason);
      Rejecting(Now(), chart, user, cleaned, now);
      var done := ApplyIf(chart, (p: Publishing) => SameRequest(p, requestedAt, requester),
                          (p: Publishing) => RejectedBy(p, user.id, cleaned, now));
      if !done {
        return Err(NotPending);
      }
      Audit(user, PublishRejected, chart);
      return Ok(charts[chart]);
    }

    /** `unpublish`: whoever published may retract, and an administrator always may. */
    method Retract(chart: string, user: Caller) returns (r: Result<Chart, Error>)
      requires Valid()
      modifies this
      ensures Valid()
      ensures !(chart in old(charts) && MayTouch(old(Now()), user, old(charts)[chart].query)) ==> r == Err(QueryNotFound)
      ensures chart in old(charts) && MayTouch(old(Now()), user, old(charts)[chart].query) ==>
                (r == Err(Forbidden) <==> old(charts)[chart].pub.isPublic && !user.isAdmin
                                          && old(charts)[chart].pub.publishedBy != Some(user.id))
      ensures r.Err? ==> Now() == old(Now()) && r.error in {QueryNotFound, Forbidden}
      ensures r.Ok? ==> chart in charts && r.value == charts[chart]
      ensures r.Ok? ==>
                var was := old(charts)[chart].pub;
                if !was.isPublic then Now() == old(Now())
                else Changed(old(Now()), Now(), chart, was.(isPublic := false, publishedBy := None, publishedAt := None),
                             [Entry(user.id, Unpublished, chart)])
      ensures r.Ok? ==> Now() == After(old(Now()), Unpublish(user, chart))
    {
      if chart !in charts || !MayTouch(Now(), user, charts[chart].query) {
        return Err(QueryNotFound);
      }
      if charts[chart].pub.isPublic && !user.isAdmin && charts[chart].pub.publishedBy != Some(user.id) {
        return Err(Forbidden);
      }
      Retracting(Now(), chart, user);
      var done := ApplyIf(chart, (p: Publishing) => p.isPublic && (user.isAdmin || p.publishedBy == Some(user.id)),
                          (p: Publishing) => p.(isPublic := false, publishedBy := None, publishedAt := None));
      if done {
        Audit(user, Unpublished, chart);
      }
      return Ok(charts[chart]);
    }

    /** An edit of the SQL, the limit or the interval, behind `guard_frozen`. */
    method UpdateQuery(query: string, user: Caller, definition: QueryDefinition) returns (r: Result<(), Error>)
      requires Valid()
      modifies this`queries
      ensures Valid()
      ensures r == Err(QueryNotFound) <==> !(query in old(queries) && (user.isAdmin || old(queries)[query].owner == Some(user.id)))
      ensures r == Err(QueryFrozen) <==>
                && query in old(queries) && !user.isAdmin && old(queries)[query].owner == Some(user.id)
                && exists id :: id in charts && charts[id].query == query && (charts[id].pub.isPublic || charts[id].pub.requestedAt.Some?)
      ensures r.Err? ==> r.error in {QueryNotFound, QueryFrozen} && queries == old(queries)
      ensures r.Ok? ==> queries == old(queries)[query := Query(old(queries)[query].owner, definition)]
      ensures Now() == After(old(Now()), EditQuery(user, query, definition))
      ensures r.Ok? <==> Matches(old(Now()), EditQuery(user, query, definition))
    {
      if !MayTouch(Now(), user, query) {
        return Err(QueryNotFound);
      }
      if !user.isAdmin && Frozen(Now(), query) {
        return Err(QueryFrozen);
      }
      queries := queries[query := queries[query].(definition := definition)];
      return Ok(());
    }

    /** Replacing a query's chart set, behind `guard_frozen`. `ids` are the identifiers new charts are given. */
    method UpdateCharts(query: string, user: Caller, key: NameKey, specs: seq<Spec>, ids: seq<string>) returns (r: Result<(), Error>)
      requires Valid() && DistinctNames(key, charts, query) && DistinctSpecs(key, specs)
      requires |ids| == |specs| && FreshIds(charts, ids)
      modifies this`charts
      ensures Valid()
      ensures r.Ok? <==> MayEdit(old(Now()), user, query)
      ensures Now() == After(old(Now()), EditCharts(user, query, Replaced(key, old(charts), query, specs, ids)))
      ensures r.Ok? ==> DistinctNames(key, charts, query)
    {
      if !MayTouch(Now(), user, query) {
        return Err(QueryNotFound);
      }
      if !user.isAdmin && Frozen(Now(), query) {
        return Err(QueryFrozen);
      }
      ReplacedNamesDistinct(key, charts, query, specs, ids);
      ReplacedStaysOwned(queries, charts, key, query, specs, ids);
      charts := ReplaceCharts(key, charts, query, specs, ids);
      return Ok(());
    }
  }

  ghost predicate OwnQuery(after: Charts, before: Charts, query: string, id: string)
  {
    id in after ==> after[id].query == query || (id in before && after[id] == before[id])
  }

  lemma ReplacedStaysOwned(queries: map<string, Query>, charts: Charts, key: NameKey, query: string, specs: seq<Spec>,
                           ids: seq<string>)
    requires DistinctNames(key, charts, query) && DistinctSpecs(key, specs)
    requires |ids| == |specs| && FreshIds(charts, ids)
    requires query in queries && forall id :: id in charts ==> charts[id].query in queries
    ensures forall id :: id in Replaced(key, charts, query, specs, ids) ==>
              Replaced(key, charts, query, specs, ids)[id].query in queries
  {
    forall id | id in Replaced(key, charts, query, specs, ids)
      ensures Replaced(key, charts, query, specs, ids)[id].query in queries
    {
      OnlyNamedChartsRemain(key, charts, query, specs, ids, id);
    }
  }

  /** Replacing by name is one of the edits the protocol allows for, when new identifiers were never used. */
  lemma ReplacingIsAllowed(db: Db, key: NameKey, query: string, specs: seq<Spec>, ids: seq<string>)
    requires DistinctNames(key, db.charts, query) && DistinctSpecs(key, specs)
    requires |ids| == |specs| && FreshIds(db.charts, ids)
    requires forall i, k :: 0 <= i < |ids| && 0 <= k < |db.log| ==> db.log[k].chart != ids[i]
    ensures ReplacesCharts(db, query, Replaced(key, db.charts, query, specs, ids))
  {
    var after := Replaced(key, db.charts, query, specs, ids);
    forall id ensures OwnQuery(after, db.charts, query, id) {
      OnlyNamedChartsRemain(key, db.charts, query, specs, ids, id);
    }
    forall id | id in db.charts && db.charts[id].query != query ensures id in after && after[id] == db.charts[id] {
      OnlyNamedChartsRemain(key, db.charts, query, specs, ids, id);
    }
    forall id | id in after && id in db.charts ensures after[id].query == db.charts[id].query && after[id].pub == db.charts[id].pub {
      KeptChart(db, key, query, specs, ids, id);
    }
    forall id, k | id in after && id !in db.charts && 0 <= k < |db.log|
      ensures after[id].query == query && after[id].pub == Private && db.log[k].chart != id
    {
      OnlyNamedChartsRemain(key, db.charts, query, specs, ids, id);
      var i: nat :| i < |specs| && IdFor(key, db.charts, query, specs[i], ids[i]) == id;
      ExistingIs(key, db.charts, query, id);
    }
    forall id | id in after && id !in db.charts ensures after[id].query == query && after[id].pub == Private {
      OnlyNamedChartsRemain(key, db.charts, query, specs, ids, id);
    }
  }

  lemma KeptChart(db: Db, key: NameKey, query: string, specs: seq<Spec>, ids: seq<string>, id: string)
    requires DistinctNames(key, db.charts, query) && DistinctSpecs(key, specs)
    requires |ids| == |specs| && FreshIds(db.charts, ids)
    requires id in db.charts && id in Replaced(key, db.charts, query, specs, ids)
    ensures var c := Replaced(key, db.charts, query, specs, ids)[id];
            c.query == db.charts[id].query && c.pub == db.charts[id].pub
  {
    OnlyNamedChartsRemain(key, db.charts, query, specs, ids, id);
    if db.charts[id].query == query {
      var b := BuiltUpTo(key, db.charts, query, specs, ids);
      assert id in b;
      BuiltOnly(key, db.charts, query, specs, ids, id);
      var k: nat :| k < |specs| && IdFor(key, db.charts, query, specs[k], ids[k]) == id;
      BuiltAt(key, db.charts, query, specs, ids, k);
    }
  }
}
