# Verified model of the analyzer service

The analyzer runs saved SQL on a schedule and on demand, flags rows by rules, keeps a queue of findings, serves
results from caches, and lets administrators publish charts. This project models the parts of it whose correctness
does not show in any one function, and proves what they promise. Each module is one file of the same name.

| part | modules |
|---|---|
| publish approval | `ChartDefinition`, `HashLaws` (the hash assumptions can be met), `ChartSets`, `ChartPublishing` (the service, one request at a time), `ApprovalRuns` (every interleaving) |
| named lists and flags | `DecimalKey`, `ListMatching`, `FlagConditions`, `ConditionMeanings`, `ListRefinement`, `FlagEngine`, `FindingsQueue`, `ListStore`, `MemberLookups` |
| caches and polling | `OrderedDict`, `Clock`, `Payloads`, `RenderedCache`, `ResultCache`, `Coherence`, `Dismissals`, `Polling` |
| timers | `Refresher`, `Scheduler`, `RateLimit` |
| accounts | `Accounts`, `Lockout`, `SessionLifetimes` |
| migration 0009 | `Migration0009` |
| shared | `Wrappers`, `Strings` |

Code that updates state in place is a class whose methods are proved equal to a function of the old state; what the
service promises over whole runs is proved about that function.

## What is assumed

- SHA-256, the canonical JSON encoders and gzip are uninterpreted functions; hashes are injective and hexadecimal
  (`HashesLawful`, `CollisionFree`). A chart fingerprint and a data hash are taken over values, not over text. The
  stamp of a dismissal set is SHA-256 cut to 16 hexadecimal digits; it too is assumed injective. `HashLaws`
  builds hashes that meet these assumptions. A surge threshold is the text JSON gives it.
- Trimming, case-folding, lower-casing and reading a number from text are one parameter with stated laws (`Lawful`,
  `Faithful` in `ListMatching`); `LawsAreConsistent` shows the laws can hold together. What a coerced cell looks like
  (`ValidCell`) is assumed too: an integer's text reads back, a float is finite, a nested value's text is no number.
- Times, clock readings, new identifiers, tokens, password checking and what an execution returns are parameters.
- An HTTP request is one atomic step, except for the approval (four steps), the member lookup (four steps) and the
  refresher (one step per lock section). A guarded edit, with its freeze check, is one step.
- Approval: request moments of one chart differ, and no administrator edits the query meanwhile. Both are needed, and
  `ReusedMomentDefeatsTheCheck` and `AdminEditDefeatsTheCheck` are the counterexamples.
- Rendered responses: two runs of one query do not share an execution time. Session tokens are never drawn twice.
- Scheduler spacing and the rate limit need clocks that do not run backwards; the result cache needs one clock of two
  to keep up with real time.
- Accounts are identified by their normalised address, which is unique.

## What the proofs brought out

- The extra millisecond of `get_stale` is real, because ages are rounded down: `OverrunExactly` says when, and
  `GraceOverrun` is an instance.
- A named list matches real booleans by folded text as well: an item that only case-folds to `true` or `false`, spelled
  with a long s for one, is no boolean to `in` but is to `in_list`. `InListExactly` includes it.
- `lt`, `eq` and `gt` are a trichotomy except between two spellings of one truth value (`ExactlyOneOrder`).
- The last active administrator is never locked but can be found locked: exactly when an update of an account takes the
  last colleague away from a locked administrator, or makes a locked account the only one (`FoundLockedExactly`,
  `FoundLockedInRun`). `SoleAdminCanBeFoundLocked` is such a run.
- A downgrade drops a board's row for a second chart placed alone; the comment beside the code
  (`services/analyzer/alembic/versions/0009_query_charts.py:245-246`) reads as if it were merged. The model follows the
  code (`SecondChartAloneIsDropped`, `SurvivesExactly`).
- A chart redraw can leave the result cache over its byte budget until the next stored result
  (`OverBudgetUntilTheNextStore`).

## Model

| member | source | states |
|---|---|---|
| `ApprovalRuns.ApprovalPublishesWhatWasReviewed` | services/analyzer/app/features/charts/service.py:337-386 | An approval that reads the chart, the SQL and the rules at different moments, with any steps of anyone else between them, publishes only a stored definition whose fingerprint is the one the administrator sent, in the requester's name (a chart's own name is not part of a definition); with a collision-free hash that is the reviewed canonical definition itself. Needs distinct request moments of the chart and no administrator edit of the query meanwhile. |
| `ApprovalRuns.ReadFromOneDefinition` | services/analyzer/app/features/charts/service.py:327-386 | If the conditional write goes through, all pieces were read from one definition, and it is the one stored at the write, although the reads were not atomic. |
| `ApprovalRuns.PendingFreezesDefinition` | services/analyzer/app/features/charts/service.py:134-167 | Over any run a pending request either still stands over the very definition it was made for, or is over and its moment can never stand again. |
| `ApprovalRuns.PublishedUntilRetracted` | services/analyzer/app/features/charts/service.py:111-167 | Over any run a published chart stays published, in the same name, with the same definition, until an administrator or whoever published it retracts it or an administrator edits its query; attempts by anyone else, its author included, change nothing. |
| `ApprovalRuns.ReusedMomentDefeatsTheCheck` | services/analyzer/app/features/charts/service.py:337-386 | Why request moments must differ: withdraw, edit and ask again under the same timestamp gets an edited definition published by an approval of the old one. |
| `ApprovalRuns.AdminEditDefeatsTheCheck` | services/analyzer/app/features/charts/service.py:134-167 | Why administrators are excepted: they are not frozen out, so their edit of a pending query is published by an approval computed before it. |
| `ApprovalRuns.StatesAndLogAgree` | services/analyzer/app/features/charts/service.py:196-226 | In every reachable state each chart is private, private with a rejection, pending or published with every request, rejection and publisher column consistent, and its status is the one its last audit entry names; runs start without charts (`EmptyIsGood`). |
| `ApprovalRuns.StatesAreDisjoint` | services/analyzer/app/features/charts/models.py:139-167 | The four states exclude each other. |
| `ApprovalRuns.OneEntryPerTransition` | services/analyzer/app/features/charts/service.py:229-290 | A lost race writes nothing at all; an effective transition changes the status and writes exactly one entry; dismissing a rejection writes none and changes no status. |
| `ApprovalRuns.TransitionChangesState` | services/analyzer/app/features/charts/service.py:196-212 | Each conditional write takes one of the four states to the one its audit action names, whatever state it was in. |
| `ChartPublishing.Service.ApplyIf` | services/analyzer/app/features/charts/service.py:196-212 | The compare-and-set: the row changes exactly when it still meets the condition, the caller learns which, and no other row changes. |
| `ChartPublishing.Service.Publish` | services/analyzer/app/features/charts/service.py:229-261 | An administrator publishes at once: public in the administrator's name, every request and rejection column empty, one entry. The owner asks: the request is recorded and a rejection cleared, one entry. A chart already public, or already asked for, is left alone; anyone else is told the query does not exist. |
| `ChartPublishing.Service.CancelRequest` | services/analyzer/app/features/charts/service.py:264-290 | A pending request is cleared with one entry; otherwise a rejection notice is cleared without one; otherwise nothing changes. No other column or chart moves. |
| `ChartPublishing.Service.PendingFor` | services/analyzer/app/features/charts/service.py:293-308 | Who may decide and on what: forbidden, unknown chart, and not pending are told apart in that order. |
| `ChartPublishing.Service.ApproveRequest` | services/analyzer/app/features/charts/service.py:337-386 | Publishes if and only if the caller is an administrator, the chart is pending and its stored definition has the fingerprint sent: public in the requester's name, every request and rejection column empty, one entry. A refusal changes nothing and says which condition failed. |
| `ChartPublishing.StaleDecisionsChangeNothing` | services/analyzer/app/features/charts/service.py:327-413 | An approval or rejection that no longer finds the request it was made on, by moment and requester, changes nothing. |
| `ChartPublishing.Service.RejectRequest` | services/analyzer/app/features/charts/service.py:389-413 | Succeeds if and only if an administrator finds the chart pending; then the request is cleared and decider, moment and trimmed reason, or none, are recorded, with one entry. |
| `ChartPublishing.Service.Retract` | services/analyzer/app/features/charts/service.py:447-477 | A public chart is made private and its publisher columns emptied, with one entry, if and only if the caller may touch it and is an administrator or whoever published; a chart that is not public is left alone. |
| `ChartPublishing.Service.UpdateQuery` | services/analyzer/app/features/queries/router.py:148-163 | The guarded edit replaces the definition and nothing else; refused as unknown to strangers, and as frozen to the owner exactly while some chart of the query is public or asked for. |
| `ChartPublishing.Service.UpdateCharts` | services/analyzer/app/features/charts/router.py:220-244 | The guarded replacement of the chart set: same freeze, and the new table is the by-name replacement with names still distinct. |
| `ChartPublishing.ReplacingIsAllowed` | services/analyzer/app/features/charts/service.py:48-91 | Replacing by name is one of the chart edits the run-level results allow: a chart that stays keeps its publishing columns, a new one is private. |
| `ChartSets.ReplaceCharts` | services/analyzer/app/features/charts/service.py:48-91 | The loop over the submitted charts computes the by-name replacement. |
| `ChartSets.NamesKeepIdentity` | services/analyzer/app/features/charts/service.py:57-76 | A submitted name that matches keeps the chart's identifier and publishing columns and takes the new mapping and place; an unmatched name starts private. |
| `ChartSets.OnlyNamedChartsRemain` | services/analyzer/app/features/charts/service.py:57-80 | Charts no longer named are gone, other queries' charts are untouched, nothing appears from nowhere. |
| `ChartSets.ReplacedNamesDistinct` | services/analyzer/app/features/charts/service.py:48-91 | Names stay distinct, so the next replacement can match again. |
| `ChartDefinition.FingerprintIsTheDefinition` | services/analyzer/app/features/charts/fingerprint.py:44-84 | With a collision-free hash, equal fingerprints if and only if equal SQL, limits and mapping and, in position order, the same rules with the same conditions; positions themselves do not count. |
| `ChartDefinition.RuleReadingOrderIsIrrelevant` | services/analyzer/app/features/charts/fingerprint.py:62-79 | For any hash, the order in which the store returns the rules does not change the fingerprint. |
| `ChartDefinition.ConditionReadingOrderIsIrrelevant` | services/analyzer/app/features/charts/fingerprint.py:67-76 | Nor does the order in which it returns the conditions of a rule. |
| `HashLaws.CollisionFreeExists` | services/analyzer/app/features/charts/fingerprint.py:81-84 | A collision-free fingerprint of definitions exists: each can be written as a text that no other one is written as. |
| `HashLaws.LawfulHashesExist` | services/analyzer/app/features/queries/execution.py:159-185 | Hashes as assumed of results and dismissal sets exist: injective, and free of the separators. |
| `ChartDefinition.SortedIsUnique` | services/analyzer/app/features/charts/fingerprint.py:55-84 | Sorting by distinct positions has one result whatever the reading order. |
| `DecimalKey.KeyIsNumericEquality` | services/analyzer/app/features/lists/matching.py:112-137 | Two finite decimals share a key if and only if they are equal as numbers, at any length and exponent. |
| `DecimalKey.ZerosShareOneKey` | services/analyzer/app/features/lists/matching.py:124-133 | Negative zero and every zero with an exponent have the key of plain zero. |
| `DecimalKey.CompareAtAnyUnit` | services/analyzer/app/features/flag_rules/engine.py:153-211 | Equality and order of decimals are the same at every common unit, so the reference definition does not depend on a choice. |
| `ListMatching.MemberIff` | services/analyzer/app/features/lists/matching.py:164-177 | A member set holds exactly what some item contributes, whatever the order or repetition of items. |
| `ListMatching.MembersFromItems` | services/analyzer/app/features/lists/matching.py:164-177 | The loop builds that set. |
| `ListMatching.CleanItems` | services/analyzer/app/features/lists/service.py:214-242 | Refused exactly above the limit; otherwise the kept items are trimmed, not blank, of distinct match signatures, each the first spelling of its signature, and match exactly what all the items matched. |
| `ListMatching.CleanedMatchesTheSame` | services/analyzer/app/features/lists/service.py:226-242 | De-duplication by signature preserves the member set. |
| `ListRefinement.InListExactly` | services/analyzer/app/features/lists/matching.py:180-189 | The set lookup of a named list succeeds if and only if some item equals the cell by the rules of equality, or neither is a number and the item folds to the cell's text; for a real boolean that text is true or false. |
| `ListRefinement.InExactly` | services/analyzer/app/features/flag_rules/engine.py:135-145 | A typed list, joined by commas and split again, succeeds if and only if some trimmed item equals the cell. |
| `ListRefinement.InImpliesInList` | services/analyzer/app/features/flag_rules/engine.py:214-261 | Moving a typed list into a named one never loses a match, numbers and booleans included. |
| `ListRefinement.OneItem` | services/analyzer/app/features/lists/matching.py:150-189 | The same equivalence for one item and one cell of any kind: keys, boolean tokens and word tokens together decide exactly equality or folded text. |
| `ListRefinement.LawsAreConsistent` | services/analyzer/app/features/lists/matching.py:77-109 | The laws assumed of text handling, and of integer cells, can all hold at once. |
| `ListStore.Lists.UpdateList` | services/analyzer/app/features/lists/service.py:319-355 | Refused, changing nothing, for a blank name, too many items or a taken name; otherwise name, description and items are replaced and match what was submitted, the version goes up by one, other lists are untouched, no query using the list has a cached result left, and every other query keeps its own. |
| `ListStore.MemberCache.CachedMembers` | services/analyzer/app/features/lists/matching.py:207-226 | A hit returns the remembered set and a miss the set of the loaded items, within 32 remembered lists. |
| `ListStore.MemberCache.Remember` | services/analyzer/app/features/lists/matching.py:221-226 | The set just built is remembered and only the least recently used ones beyond 32 go. |
| `MemberLookups.CurrentLookupsAreExact` | services/analyzer/app/features/lists/matching.py:196-226 | After any interleaving of saves and four-step lookups, a lookup at the list's current version got exactly what the items as last submitted match, before cleaning. |
| `MemberLookups.CurrentHitsAreExact` | services/analyzer/app/features/lists/matching.py:196-226 | And so would any later lookup that hits the cache at that version. |
| `MemberLookups.LookupsReadTheStore` | services/analyzer/app/features/lists/service.py:173-183 | A lookup reads the version current at that moment, and later the items stored at that later one. |
| `MemberLookups.NeverBuiltFromOlderItems` | services/analyzer/app/features/lists/service.py:173-183 | After any interleaving, what is remembered or returned under version v comes from a submission at version v or later. |
| `FlagConditions.NullSatisfiesOnlyIsNull` | services/analyzer/app/features/flag_rules/engine.py:214-282 | A missing value satisfies is_null and no other operator, negated ones included. |
| `FlagConditions.ExactlyOneOrder` | services/analyzer/app/features/flag_rules/engine.py:153-211 | For a present, non-boolean cell exactly one of lt, eq, gt holds, if and only if cell and value are not two different spellings of one truth value. |
| `ConditionMeanings.OrderedByNumber` | services/analyzer/app/features/flag_rules/engine.py:170-182 | When cell and value read as numbers, gt, gte, lt and lte are the comparisons of the two as integers in any common unit. |
| `ConditionMeanings.OrderedByText` | services/analyzer/app/features/flag_rules/engine.py:170-182 | When one of them is no number, they are compared by code point, a proper prefix coming first. |
| `ConditionMeanings.BooleansAreNotOrdered` | services/analyzer/app/features/flag_rules/engine.py:160-164 | No comparison holds of a boolean cell. |
| `ConditionMeanings.IntegersCompare` | services/analyzer/app/features/flag_rules/engine.py:153-211 | An integer cell and a typed integer compare, and are equal, as those integers. |
| `ConditionMeanings.EqualByNumber` | services/analyzer/app/features/flag_rules/engine.py:206-210 | Two numbers are equal when they are the same integer in a common unit. |
| `ConditionMeanings.WhatReadsAsTruth` | services/analyzer/app/features/lists/matching.py:86-105 | What reads as true or false: the boolean itself, the integers 1 and 0, and the listed words and digits after trimming and lowering. |
| `ConditionMeanings.EqualByTruth` | services/analyzer/app/features/flag_rules/engine.py:200-202 | A boolean cell equals exactly the spellings of its truth value, digits included. |
| `ConditionMeanings.EqualByText` | services/analyzer/app/features/flag_rules/engine.py:204-211 | Two texts that are not both numbers are equal when they are the same text or words for one truth value. |
| `ConditionMeanings.PartsOfText` | services/analyzer/app/features/flag_rules/engine.py:241-247 | contains means the lowered value stands somewhere in the lowered cell, starts_with that it stands at the start. |
| `ConditionMeanings.BetweenNumbersNeedsANumber` | services/analyzer/app/features/flag_rules/engine.py:263-271 | Between two numbers only a number can be. |
| `FlagConditions.BetweenIgnoresOrder` | services/analyzer/app/features/flag_rules/engine.py:262-282 | Reversed bounds mean the same as ordered ones. |
| `FlagConditions.NegationsComplement` | services/analyzer/app/features/flag_rules/engine.py:230-261 | For a present cell each negated operator is the complement of its positive one. |
| `FlagConditions.UnresolvedListMatchesNothing` | services/analyzer/app/features/flag_rules/engine.py:252-261 | in_list and not_in_list are complements if and only if the list was resolved; otherwise neither holds. |
| `FlagConditions.BetweenIsTwoComparisons` | services/analyzer/app/features/flag_rules/engine.py:262-282 | With ordered bounds, between is gte the low and lte the high one whenever cell and bounds are compared in one way, all as numbers or all as text. |
| `FlagConditions.SplitOnJoin` | services/analyzer/app/features/flag_rules/engine.py:135-145 | Splitting at commas undoes joining with commas. |
| `FlagEngine.Evaluate` | services/analyzer/app/features/flag_rules/engine.py:290-381 | The three loops (setting rules aside, scanning rows, summing up) give the specified flags, tallies and warnings. |
| `FlagEngine.FlaggedExactly` | services/analyzer/app/features/flag_rules/engine.py:350-365 | A row is flagged if and only if some usable rule catches it; its flag lists the rules that catch it; flags come in row order, one per row. |
| `FlagEngine.CaughtByHas` | services/analyzer/app/features/flag_rules/engine.py:308-361 | A rule is listed if and only if it is enabled, has conditions, finds all its columns and every condition is true of the row. |
| `FlagEngine.CaughtMeans` | services/analyzer/app/features/flag_rules/engine.py:308-361 | A rule catches a row if and only if it is enabled, asks for something, and each condition is true of the cell under the last column of its name. |
| `FlagEngine.TallyCountsRows` | services/analyzer/app/features/flag_rules/engine.py:350-378 | With distinct rule ids, a rule's tally is the number of rows it caught. |
| `FlagEngine.SummaryHas` | services/analyzer/app/features/flag_rules/engine.py:308-378 | The summary holds a line with id, name, severity and tally for every enabled rule, and for nothing else. |
| `FlagEngine.SummaryHasOneLineEach` | services/analyzer/app/features/flag_rules/engine.py:308-378 | It holds exactly one line per enabled rule. |
| `FlagEngine.WarningsAreEarned` | services/analyzer/app/features/flag_rules/engine.py:312-345 | The warnings are exactly those earned: by a rule with no conditions, by one naming columns that are not there, with those columns, and by one that caught nothing. |
| `FlagEngine.NeverBooleanNamesTheFirst` | services/analyzer/app/features/flag_rules/engine.py:384-421 | The column a warning names is that of the first condition comparing with a truth value where the column holds none. |
| `FindingsQueue.Worst` | services/analyzer/app/features/flag_rules/flagged_rows.py:41-50 | The running best is HIGH if any severity is, else MEDIUM if any is, else LOW. |
| `FindingsQueue.CollectMatches` | services/analyzer/app/features/flag_rules/flagged_rows.py:69-94 | The loop over flagged rows gives one match per fingerprint. |
| `FindingsQueue.Findings.Sync` | services/analyzer/app/features/flag_rules/flagged_rows.py:53-136 | Deleting, updating and adding rows leaves exactly the matches; a kept finding keeps when it was first seen. |
| `FindingsQueue.Findings.DeleteRows` | services/analyzer/app/features/flag_rules/flagged_rows.py:152-168 | A finding stays if and only if it was there and not named, unchanged; naming none drops none and no list at all drops everything; the answer is how many of those named were there. |
| `FindingsQueue.RunLeavesWhatItMatched` | services/analyzer/app/features/queries/execution.py:360-381 | After a run a fingerprint is stored if and only if some row bearing it is caught by an enabled, non-empty rule with all its columns present. |
| `FindingsQueue.RunTellsOfTheRow` | services/analyzer/app/features/flag_rules/flagged_rows.py:69-133 | A stored finding has the values, rules and rule names of the last flagged row bearing its fingerprint, and the worst severity of those rules. |
| `FindingsQueue.QueueTracksMatches` | services/analyzer/app/features/flag_rules/flagged_rows.py:53-168 | Over every history a finding is stored if and only if some run matched it and nothing since, run or deletion, has dropped it. |
| `FindingsQueue.FirstSeenIsStreakStart` | services/analyzer/app/features/flag_rules/flagged_rows.py:96-133 | Its first-seen time is the time of the first run of its current unbroken streak. |
| `FindingsQueue.StreakStartExists` | services/analyzer/app/features/flag_rules/flagged_rows.py:96-133 | Every held finding has such a first run. |
| `OrderedDict.StoreCounted` | services/analyzer/app/features/queries/result_cache.py:141-170 | The storing code of both caches: replace, refuse what exceeds the whole budget, then pop the oldest, with the running byte counter exact throughout. |
| `OrderedDict.StoringEndsWithinBudget` | services/analyzer/app/features/queries/result_cache.py:155-169 | A kept entry ends newest and within budget and count, and what went is exactly the shortest least-recently-used prefix that had to. |
| `OrderedDict.StoringKeepsOthers` | services/analyzer/app/features/queries/rendered_cache.py:139-171 | Every other key holds what it held, or nothing. |
| `OrderedDict.TouchChangesOrderOnly` | services/analyzer/app/features/queries/rendered_cache.py:119-128 | A hit changes order only: no lookup, count or weight. |
| `OrderedDict.TouchMovesToNewest` | services/analyzer/app/features/queries/rendered_cache.py:119-128 | A hit moves its entry to the newest end and closes the gap; a miss moves nothing. |
| `OrderedDict.PutGoesNewest` | services/analyzer/app/features/queries/result_cache.py:141-170 | A stored key goes to the newest end with its new value; no other entry changes place. |
| `Clock.ElapsedBounds` | services/analyzer/app/clock.py:30-40 | While one clock keeps up, elapsed time is never under-reported, and exact when also neither ran fast. |
| `ResultCache.ServedAgeIsBounded` | services/analyzer/app/features/queries/result_cache.py:55-123 | While one clock keeps up, a fresh result is truly younger than its TTL, and a stale one served truly younger than TTL plus grace plus one millisecond. |
| `ResultCache.OverrunExactly` | services/analyzer/app/features/queries/result_cache.py:100-123 | For every result, reading and grace: it is served although past TTL plus grace if and only if it is past by less than one millisecond. |
| `ResultCache.GraceOverrun` | services/analyzer/app/features/queries/result_cache.py:100-123 | A concrete overrun: half a millisecond past its TTL and a grace of five minutes a result is still served. |
| `ResultCache.YoungEntriesStayFresh` | services/analyzer/app/features/queries/result_cache.py:55-66 | When neither clock ran fast, nothing younger than its TTL is treated as stale. |
| `ResultCache.Cache.Lookup` | services/analyzer/app/features/queries/result_cache.py:82-97 | An entry whose age is below its TTL is returned and moved to the newest end; anything else returns nothing and moves nothing. |
| `ResultCache.Cache.LookupStale` | services/analyzer/app/features/queries/result_cache.py:100-123 | An entry whose age is at most TTL plus grace is returned and moved to the newest end; an older one is dropped, with the byte counter exact. |
| `ResultCache.Cache.Set` | services/analyzer/app/features/queries/result_cache.py:126-170 | Stores with counter, count and sizes exact; an oversized payload is returned, not kept, and replaces what was held. |
| `ResultCache.Cache.Invalidate` | services/analyzer/app/features/queries/result_cache.py:173-185 | The entry and every response rendered from it are gone, and nothing else. |
| `ResultCache.Cache.PatchCharts` | services/analyzer/app/features/queries/result_cache.py:188-233 | Charts are redrawn in place with the counter exact, or the entry is dropped when redrawing fails; responses rendered before are gone. |
| `ResultCache.PatchKeepsAge` | services/analyzer/app/features/queries/result_cache.py:208-228 | Redrawing replaces exactly the charts and the measured size, or drops the entry when redrawing fails: never the moment of storing, the TTL, the hash, the rows or another entry. |
| `ResultCache.OverBudgetUntilTheNextStore` | services/analyzer/app/features/queries/result_cache.py:211-231 | Redrawing keeps within the byte budget if and only if the grown payload still fits, evicting nothing; the next kept entry restores the budget. |
| `RenderedCache.KeyForInjective` | services/analyzer/app/features/queries/rendered_cache.py:96-116 | All five fields can be read back from a key. |
| `RenderedCache.KeyOfNamesTheBody` | services/analyzer/app/features/queries/router.py:251-290 | Two bodies have one key if and only if query, hash, interval, origin and moment of execution agree. |
| `RenderedCache.PrefixIsQuery` | services/analyzer/app/features/queries/rendered_cache.py:186-196 | Dropping by prefix reaches one query's responses and no other's. |
| `RenderedCache.Cache.Store` | services/analyzer/app/features/queries/rendered_cache.py:139-171 | Ends within budget and count with the counter exact; an oversized response is handed back unstored. |
| `RenderedCache.Cache.GetOrRender` | services/analyzer/app/features/queries/rendered_cache.py:174-183 | The held bytes on a hit; on a miss the encoding, compressed from 1024 bytes on, which is then held. |
| `RenderedCache.Cache.InvalidateQuery` | services/analyzer/app/features/queries/rendered_cache.py:186-196 | Exactly the query's responses go and their bytes are given back. |
| `Coherence.ResponsesAreFresh` | services/analyzer/app/features/queries/router.py:251-290 | Over any run of executions, polls, chart edits and invalidations from a coherent state, empty caches among them (`StartsCoherent`), every response equals a fresh rendering of its body, although charts are not in the key; assumes an execution time unique per query run. |
| `Coherence.NextKeepsCoherent` | services/analyzer/app/features/queries/result_cache.py:173-233 | Each operation keeps the invariant behind it: whatever is held for a cached payload, under any dismissals, is that payload's rendering. |
| `Coherence.CachedPollIsAPoll` | services/analyzer/app/features/queries/polling.py:95-118 | The cached polls of a run are the polls the service answers: same entry, same body, same cache afterwards. |
| `Coherence.ForcedPollIsAPoll` | services/analyzer/app/features/queries/polling.py:120-136 | So are the forced ones. |
| `Coherence.OtherStepsAreTheCaches` | services/analyzer/app/features/queries/result_cache.py:126-233 | Every other step of a run is what the caches do when storing, looking, redrawing and dropping. |
| `Dismissals.EqualHashEqualContent` | services/analyzer/app/features/flag_rules/dismissals.py:133-184 | For any two payloads and dismissal sets, equal served hashes mean equal served columns, rows and flags. |
| `Dismissals.ServedShows` | services/analyzer/app/features/flag_rules/dismissals.py:133-184 | What is served is the payload with exactly the dismissed entries gone, the rest in order, the counts and every rule's tally taken again and the hash stamped; a payload none of whose entries is dismissed is served as it is. |
| `Dismissals.DismissingChangesTheHash` | services/analyzer/app/features/flag_rules/dismissals.py:133-184 | Dismissing a flagged row always changes the served hash. |
| `Dismissals.Dismissed.Dismiss` | services/analyzer/app/features/flag_rules/dismissals.py:71-108 | A dismissal is there afterwards if and only if it was before, or is the caller's own of a named, stored finding; the answer counts the new ones, repeats once. |
| `Dismissals.Dismissed.Restore` | services/analyzer/app/features/flag_rules/dismissals.py:111-130 | A dismissal stays if and only if it is somebody else's or the caller did not name it; naming none undoes none and no list at all undoes all of the caller's; the answer is how many of those were there. |
| `Dismissals.RestoreUndoesDismiss` | services/analyzer/app/features/flag_rules/dismissals.py:71-130 | Restoring what was newly dismissed gives the table back, and neither call touches another user. |
| `Polling.Poller.PollOne` | services/analyzer/app/features/queries/polling.py:70-136 | An entry within its TTL answers, else one within grace answers and a refresh is asked for, else or when forced the query runs; the answer is unchanged if and only if the client holds the hash of what it would be shown, and otherwise shows it, without the caller's dismissed rows; what is cached is unfiltered, and the findings are synced. |
| `Polling.UnchangedHidesNothing` | services/analyzer/app/features/queries/polling.py:109-136 | An unchanged answer never hides a change of columns, rows, flags or the caller's dismissals, whichever run the client's body came from. |
| `Polling.DismissalIsAChange` | services/analyzer/app/features/queries/polling.py:109-136 | A client that dismissed a flagged row is sent the payload, although no cell changed. |
| `Refresher.OneRefreshPerQuery` | services/analyzer/app/features/queries/refresher.py:82-182 | In every interleaving of requests and worker steps each query has at most one queued or running refresh, and the in-flight set is exactly those queries. |
| `Refresher.HeldOffUntilRestart` | services/analyzer/app/features/queries/refresher.py:113-190 | From a failure until a restart the pause stands on both clocks, whatever other steps do. |
| `Refresher.NoGapWhileHeldOff` | services/analyzer/app/features/queries/refresher.py:113-119 | While held off, a request is admitted if and only if the query has left the flight and some clock has passed the end of the pause. |
| `Refresher.RestartWaitsAnInterval` | services/analyzer/app/features/queries/refresher.py:122-190 | After a failure and until a restart a request is admitted if and only if the query has left the flight and some clock has advanced by the interval in milliseconds, at least one. |
| `Refresher.Pool.RequestRefresh` | services/analyzer/app/features/queries/refresher.py:82-110 | Started if and only if the pool is up, the query is not in flight, and it has no pause or some clock has reached its end. |
| `Refresher.Pool.Refresh` | services/analyzer/app/features/queries/refresher.py:122-190 | Success forgets the pause, failure sets it the interval ahead on both clocks, a vanished query leaves it, and the query leaves the flight in every case. |
| `Refresher.UninterruptedRefresh` | services/analyzer/app/features/queries/refresher.py:122-190 | A job that nobody interrupts ends, in the interleaved model, exactly as that. |
| `Scheduler.BackoffDoubles` | services/analyzer/app/features/queries/scheduler.py:117-129 | After k failures in a row the factor is 2 to the k, at most 2 to the 16; a success forgets it and idle ticks leave it. |
| `Scheduler.ExecutionsAreApart` | services/analyzer/app/features/queries/scheduler.py:80-186 | With clocks that do not run backwards, consecutive executions of a query are the delay apart on some clock, fresh results between them included; the delay is the longer of interval and floor after a success, and never less than that or the backoff ceiling. |
| `Scheduler.Scheduler.RunDueOnce` | services/analyzer/app/features/queries/scheduler.py:132-186 | One tick moves each query's timer as its own turn says and no other query's, and counts the successful runs. |
| `Scheduler.TurnIs` | services/analyzer/app/features/queries/scheduler.py:132-186 | One query's turn: nothing until a clock reaches its due time; put off for the rest of a fresh result's TTL; left alone when paused; otherwise run and rescheduled. |
| `Scheduler.RescheduledAfterSuccess` | services/analyzer/app/features/queries/scheduler.py:110-129 | After a success there is no factor and the wait is the longer of interval and floor, on both clocks. |
| `Scheduler.RescheduledAfterFailure` | services/analyzer/app/features/queries/scheduler.py:117-129 | After a failure the factor doubles from 2 to at most 65536, and the wait is that many intervals up to the ceiling. |
| `Scheduler.Scheduler.Reschedule` | services/analyzer/app/features/queries/scheduler.py:117-129 | The due times on both clocks and the factor after a success or a failure; other queries' timers are untouched. |
| `RateLimit.Window.Hit` | services/analyzer/app/ratelimit.py:91-109 | With non-decreasing time a request is allowed if and only if fewer than the limit of earlier ones by the key fell in its window, whatever was pruned. |
| `RateLimit.PruneSummarises` | services/analyzer/app/ratelimit.py:103-107 | Pruning changes no later answer. |
| `RateLimit.WindowBudget` | services/analyzer/app/ratelimit.py:91-109 | One window lets through exactly the first requests up to the limit. |
| `RateLimit.TwiceTheLimitPerMinute` | services/analyzer/app/ratelimit.py:91-109 | Any 60 seconds let through at most twice the limit. |
| `RateLimit.ResetLandsInNextWindow` | services/analyzer/app/ratelimit.py:93-94 | Waiting the reset time lands in the next window, and one second less does not. |
| `RateLimit.SteppingBackForgets` | services/analyzer/app/ratelimit.py:96-100 | Why time must not decrease: a step back forgets the later window's count. |
| `Accounts.Tables.Authenticate` | services/analyzer/app/features/auth/service.py:83-171 | An attempt is told invalid, locked or welcome in the order password, lock, activity, expiry; a counted failure adds one, the fifth locks for fifteen minutes and starts again at zero; a success clears both; nobody else's row moves. |
| `Lockout.GuessesAreBounded` | services/analyzer/app/features/auth/service.py:107-165 | Without a success or reset, any span of logins counts at most 5 per started 15 minutes, plus 5 and 4, failures. |
| `Lockout.FailuresAreConserved` | services/analyzer/app/features/auth/service.py:133-138 | Counted failures are five per lock plus the change of the counter. |
| `Lockout.LocksAreSpaced` | services/analyzer/app/features/auth/service.py:107-138 | In any run without a success or reset, any two lock starts of an account are at least fifteen minutes apart. |
| `Lockout.FailuresStayBelowFive` | services/analyzer/app/features/auth/service.py:133-138 | In every state reachable from one where it holds, empty tables among them (`EmptyCountsInRange`), fewer than five failures stand against any account. |
| `Lockout.LiveLockIsNotMoved` | services/analyzer/app/features/auth/service.py:107-138 | No request but an administrator's reset moves a lock that is still running. |
| `Lockout.SoleAdminIsNeverLocked` | services/analyzer/app/features/auth/service.py:48-80 | No request puts a new lock on the only active administrator. |
| `Lockout.FoundLockedExactly` | services/analyzer/app/features/users/service.py:60-119 | One request makes the only active administrator be found locked if and only if it is an update, accepted while the lock is live, that takes the last other administrator away or makes the locked account the only one. |
| `Lockout.FoundLockedInRun` | services/analyzer/app/features/users/service.py:60-119 | Over any run from empty tables the only active administrator is at some point found locked if and only if some request of it is such an update. |
| `Lockout.SoleAdminCanBeFoundLocked` | services/analyzer/app/features/auth/service.py:48-80 | It does happen, from empty tables: of two administrators one is locked by five wrong guesses and the other is then deactivated. |
| `Lockout.SomeAdminRemains` | services/analyzer/app/features/users/service.py:60-119 | One request never removes the last active administrator. |
| `Lockout.SomeAdminAlwaysRemains` | services/analyzer/app/features/users/service.py:60-119 | Over any run of requests, once there is an active administrator there always is one. |
| `SessionLifetimes.ResolvedWithinLifetime` | services/analyzer/app/features/auth/sessions.py:34-147 | Over any run a token that resolves was issued by a login to that account less than the absolute lifetime ago and used within the idle lifetime, whatever use and password changes it survived. |
| `SessionLifetimes.EndedForGood` | services/analyzer/app/features/users/service.py:194-317 | A token that was logged out, or issued before a deactivation or an administrator's reset, never resolves again, even after reactivation. |
| `SessionLifetimes.PasswordChangeEndsTheOthers` | services/analyzer/app/features/auth/router.py:71-122 | Changing the password ends every other session of the account for good and keeps the caller's own with its original expiry. |
| `SessionLifetimes.RunKeepsHonest` | services/analyzer/app/features/auth/sessions.py:150-184 | In every reachable state each session was issued, not ended, expires when its login said, and belongs to an active account. |
| `Accounts.Tables.SignIn` | services/analyzer/app/features/auth/router.py:44-55 | A login that is not refused drops expired sessions, keeps the others, and opens one with its absolute expiry and at most 400 characters of user agent; a refused one changes no session. |
| `Accounts.Tables.Revoke` | services/analyzer/app/features/auth/sessions.py:150-160 | Logging out ends exactly the token's session. |
| `Accounts.Tables.Resolve` | services/analyzer/app/features/auth/sessions.py:61-94 | A token resolves if and only if its row exists, is within both lifetimes and its account is active; only last-seen moves. |
| `Accounts.Tables.SetPassword` | services/analyzer/app/features/auth/router.py:71-122 | Succeeds if and only if the token resolves, the current password verifies and the new one is different and strong; each refusal has its own error and changes no password and no session's place; success replaces that account's hash, clears the forced change and its expiry, ends its other sessions and keeps the caller's. |
| `Accounts.Tables.Update` | services/analyzer/app/features/users/service.py:194-276 | Refused for an unknown account and when it would leave no active administrator; otherwise role and activity become what was asked and nothing else, and a deactivation ends the account's sessions. |
| `Accounts.Tables.Reset` | services/analyzer/app/features/users/service.py:279-317 | Sets a temporary password for 72 hours with a forced change, clears counter and lock, ends every session of the account, and touches nobody else. |
| `Accounts.Tables.Create` | services/analyzer/app/features/users/service.py:134-191 | Refused for an address in use; otherwise one active account with a temporary password for 72 hours, and nothing else. |
| `Migration0009.RoundTrip` | services/analyzer/alembic/versions/0009_query_charts.py:68-263 | Upgrading and downgrading gives back every query, all its chart columns and every board placement in order, for every database and any reading order of the charts, if and only if no chart type was empty. |
| `Migration0009.NoDuplicatePlacements` | services/analyzer/alembic/versions/0009_query_charts.py:242-260 | A downgrade of any boards and charts never places one query twice on one board. |
| `Migration0009.SurvivesExactly` | services/analyzer/alembic/versions/0009_query_charts.py:216-260 | A board keeps a query if and only if it placed the first of that query's charts in position order, chart ids being distinct. |
| `Migration0009.PositionsAreKept` | services/analyzer/alembic/versions/0009_query_charts.py:242-260 | A kept row has the position its board gave that first chart. |
| `Migration0009.SecondChartAloneIsDropped` | services/analyzer/alembic/versions/0009_query_charts.py:216-248 | A board that placed only a second chart loses the query: the row is dropped, where the comment in the code speaks of collapsing. |
| `Migration0009.Upgrade` | services/analyzer/alembic/versions/0009_query_charts.py:68-147 | The two loops of the upgrade compute the upgraded tables. |
| `Migration0009.UpgradedIs` | services/analyzer/alembic/versions/0009_query_charts.py:81-147 | Each query gets one chart at position 0, named after it in at most 200 characters and drawing what it drew, and each placement moves to the chart of its query. |
| `Migration0009.DowngradedQueries` | services/analyzer/alembic/versions/0009_query_charts.py:189-217 | Each query gets back what its first chart draws, or an empty table when it has none. |
| `Migration0009.Downgrade` | services/analyzer/alembic/versions/0009_query_charts.py:187-260 | The two loops of the downgrade compute the downgraded tables. |

## Left out

- Stored order of ties: rows a SELECT returns without a total order are taken in any order where the result allows it.
- Object identity of cached entries: entries are values, so a caller that keeps an entry while its charts are redrawn
  sees the old one here and the redrawn one in the service.
- FlagEngine.Evaluate: the texts of warnings are reduced to their kind, rule and columns.
- ChartPublishing.Service.ApproveRequest: the whole request without interleaving; the interleaved form is in `ApprovalRuns`.
- ChartSets.ReplaceCharts: warnings drawn up per chart by `build_chart`, and the audit of edits, are not modelled.
- Lockout.SomeAdminRemains: two administrators demoted at the same instant, which the row locks of
  `guard_last_admin` are for, are not modelled.
- RateLimit.Window.Hit: pruning when more than 10,000 keys are held is modelled as the source does it; several threads are not,
  since the lock makes each hit one step.
- Refresher.Pool.Refresh: `shutdown` and `reset`, which clear the flight while work may still run, are not modelled.
- List creation and deletion, query creation and deletion, listing endpoints and summaries: simple members only.
- Execution itself: driver calls, row limits, JSON coercion of cells, execution logs.
- The SQL guard, connections, encryption, password hashing, middleware wiring, settings and the command line.
- Byte formats of JSON and gzip, Unicode tables, real threads, database sessions and isolation levels.
- Other migrations, dashboards, and the audit log beyond the entries a chart transition writes.
