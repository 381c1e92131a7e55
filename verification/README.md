# Alerts, incidents and enrichments: a verified model

This project models the parts of the alert gateway that keep derived state: the LastAlert
row a fingerprint owns, the enrichment dictionaries written onto it, the ledger of links
from fingerprints to incidents with the aggregates each incident caches, and the small folds
that summarise this data (timeline, facets, hourly series, gauges).

Tables are maps and sets; a database transaction is one atomic step.  Code that edits a row,
a dictionary or a table is written as a class or method with its loops and proved equal to a
specification function; the laws are lemmas about the specification functions.

| file | what it holds |
|---|---|
| `values.dfy`, `normalize.dfy` | JSON values; the dismiss translation in the database layer and at the route |
| `lastalert.dfy`, `protocol.dfy` | the row; workers racing on it |
| `rowhistory.dfy`, `status.dfy` | what the row remembers of a run; the status a user is shown |
| `alertstore.dfy`, `service.dfy`, `incidentenrichment.dfy` | single, batch and published enrichment writes, for alerts and for incidents |
| `oneshot.dfy`, `ledger.dfy`, `ledgerlaws.dfy`, `ledgerstore.dfy` | one-shot results; the ledger, its laws and its code |
| `merge.dfy`, `mergelaws.dfy`, `selfmerge.dfy` | merging incidents with database errors, also an incident into itself |
| `ledgerruns.dfy`, `addrace.dfy` | runs of all ledger calls; calls to add racing on one incident |
| `resolution.dfy` | automatic resolution |
| `audit.dfy`, `facets.dfy`, `hourly.dfy`, `gauges.dfy` | timeline grouping, facet options, hourly series and mean time to resolve, gauges |

## Where the code does not do what it is meant to

Each of these is proved with the exact condition under which the intended property holds.

- `get_int_severity` (src/repositories/db.py:3659) is called but defined nowhere in the
  repository. The model takes the severities it answers for as a parameter (`resolvable`).
  With none, a removal that leaves an alert linked raises after its links are committed and
  the cached count stays wrong (`WithoutSeverityLookup`).
- The results probed at src/repositories/db.py:3663-3672 can be read once.  A name that live
  links still carry is dropped unless the candidates are probed in row order
  (`RemoveNamesExactlyWhen`); a caller is safe from any order exactly when no name is shared
  or there is a single candidate (`RemoveNamesSafeExactlyWhen`); a merge is not affected.
- The retry around add can find its links already committed and return early, leaving the
  cached count behind although the merge is reported (`RetriedAddCountsExactlyWhen`).
- A merge unlinks a source's alerts before it links them to the destination, and may end in
  between: after a database error, or without any when a severity text is refused, they are on
  neither (`MoveConservesExactlyWhen`, `MergeLosesExactlyWhen`, `WithoutErrorsLosesExactlyWhen`),
  and the source can be marked merged all the same (`TurnLeaves`).
- A merge, and an add that does not exclude them, links alerts again that were unlinked from the
  incident on purpose (`NextRelinksExactlyWhen`, `StaysUnlinkedExactlyWhen`).
- Two adds racing on one incident get the count right and can lose each other's names
  (`RaceLeaves`, `RaceKeepsNames`, `AnyTwoAddsCanLoseNames`).
- A merge of an incident into itself marks it merged (`SelfMergeConserves`).
- An enrichment that read no row and commits after the first insert is audited but never
  written (`RunLosesNothingExactlyWhen`, `EveryEnrichmentCanBeLate`).
- `normalize_enrichments` is called idempotent at src/services/enrichments_bl.py:843-844; it is
  not when a legacy key meets an explicit `dismiss_mode` (`IdempotentExactlyWhen`).
- The route and the database layer read some values of `dismissed`, such as the text "false",
  as opposites (`ReadApartExactlyWhen`, `RouteAgreesExactlyWhen`).
- Clearing `status_disposable` without naming a status makes a copied provider status stick
  (`ShownStatusRefinesView`, `NextShowsRightExactlyWhen`).
- A dismissal survives any occurrence according to src/repositories/db.py:4433-4434; the code
  at 4439-4442 ends it on a resolved one, and the model follows the code.
- Batch enrichment of alerts or incidents differs from one write at a time on the inputs named by
  `BatchParts` and `Unmergeable`; the first enrichment of an incident stores nulls verbatim,
  so sending it twice is not the same as once (`RepeatChangesNothingExactlyWhen`).
- A null provider status counts as resolved (`TestIsRightExactlyWhen`).
- The postgresql label "YYYY-MM-DD HH" (src/repositories/db.py:2105-2108) counts twelve hours, so
  afternoon rows are filed under morning hours (`SeriesConservesExactlyWhen`, `AfternoonShowsNothing`).
- The buckets of the last 24 hours drop the rows of the hour that had begun when they start
  (`BucketsConserveExactlyWhen`, `LastDayLoses`).

## Model

| member | source | states |
|---|---|---|
| Normalization.NormalizeEnrichments | src/repositories/db.py:316-385 | the stepwise translation gives, column by column, what the caller's intent, deadline and explicit keys call for, and rejects exactly the keys without a column |
| Normalization.OtherColumnsAreKept | src/repositories/db.py:332-385 | outside the dismissal an accepted dictionary is the request: no column is dropped, changed or added, and no legacy or foreign name is left |
| Normalization.DismissalWritten | src/repositories/db.py:334-368 | status, mode and end time of the accepted dictionary, by what was sent: a sent status wins, dismissing suppresses, restoring clears, a deadline makes the mode time-boxed, a falsy `dismissed` clears mode and end time |
| Normalization.RejectedExactlyWhen | src/repositories/db.py:370-376 | only a strict request is rejected, exactly for its foreign names and a `dismiss_until` left over beside a non-null `dismissed_until` |
| Normalization.AcceptedAgain | src/repositories/db.py:370-385 | an accepted dictionary has only column keys and is never rejected on a second pass |
| Normalization.IdempotentExactlyWhen | src/repositories/db.py:334-368 | a second pass changes nothing exactly when no legacy key meets an explicit `dismiss_mode` whose status or end time is still implied |
| Normalization.FixedAfterTwoPasses | src/repositories/db.py:334-368 | two passes always reach a fixed point |
| Normalization.EnrichRequest.TranslateDismissEnrichments | src/routes/alerts.py:210-245 | the route edits its dictionary in place into the route's own column-by-column translation |
| Normalization.RouteWrites | src/routes/alerts.py:225-245 | every key outside the dismissal is left as sent, and the three dismiss columns get the values the route documents, by what was sent |
| Normalization.ReadsAsTrueExactlyWhen | src/routes/alerts.py:229-230 | the route takes `dismissed` for true exactly when it is the boolean or a text whose lower-case form is "true" |
| Normalization.RouteAgreesExactlyWhen | src/routes/alerts.py:225-245 | for every request, translating at the route first gives what normalising alone gives, rejections included, exactly outside a family of inputs named by its keys and values |
| Normalization.RouteAgreesOnPlainRequests | src/routes/alerts.py:225-245 | a boolean `dismissed`, at most one timestamp key and no explicit mode are always outside that family |
| Normalization.ReadApartExactlyWhen | src/routes/alerts.py:229-231 | the two read everything alike but non-empty texts that do not spell "true", non-zero numbers and non-empty lists |
| Normalization.ReadApartWritesOpposites | src/routes/alerts.py:229-231 | such a value undismisses at the route and dismisses in the database layer unless a status is given |
| LastAlertRows.LastAlertRecord.ApplyEnrichments | src/repositories/db.py:424-436 | the column writer writes every key except a null or blank unforced note |
| LastAlertRows.WriteLeaves | src/repositories/db.py:424-436 | after a write each sent key holds what was sent, the note only if the write is forced or the note neither null nor blank, and every other key what it held |
| LastAlertRows.LastAlertRecord.ApplyDismissLifecycle | src/repositories/db.py:4428-4449 | a resolved occurrence or a disposable flag ends status and dismissal; otherwise nothing changes; the result says which |
| LastAlertRows.LastAlertRecord.Repoint | src/repositories/db.py:4484-4519 | a newer occurrence moves pointer, tracking and lifecycle together; another changes nothing |
| LastAlertRows.OccurrenceLeaves | src/repositories/db.py:4484-4534 | every column but the tracking ones after an occurrence: a first one makes a row without enrichment, a newer one moves the pointer and, if resolved or disposable, ends status and dismissal, any other changes nothing |
| LastAlertRows.OccurrenceTracks | src/repositories/db.py:4500-4547 | each of the six tracking columns takes what an occurrence that counts brings for it; other names are never stored |
| LastAlertRows.NullsAreRefusedExactlyWhen | src/models/db/alert.py:57-117 | a write is refused exactly for a null dispose flag or deleted mark, an occurrence that counts exactly for a null counter |
| LastAlertRows.WritesMerge | src/repositories/db.py:424-436 | two unforced writes act as one merged dictionary in which a blank note never overrides |
| LastAlertRows.WriteChangesExactlyWhen | src/repositories/db.py:424-436 | a write changes the row exactly when it may be written and some unguarded key brings another value |
| LastAlertRows.LastAlertEnrichmentsDict | src/repositories/db.py:388-421 | the read-back shows exactly the non-null shown columns, the end time in wire format, and deleted only when set |
| LastAlertRows.ReadBackShows | src/repositories/db.py:388-421 | column by column: seven columns where they are not null, the end time on the wire, the deleted mark when set, nothing else |
| LastAlertRows.ReadBackAfterWrite | src/repositories/db.py:388-436 | reading back after a write: every sent key shows what was sent for it, so a null disappears, but an unforced null or blank note and every other key show what they did |
| LastAlertProtocol.RunsAreSerial | src/repositories/db.py:4470-4610 | every step of every interleaving, errors that are retried and errors raised at once included, keeps the row equal to the committed operations run one at a time in commit order |
| LastAlertProtocol.RunIsSerial | src/repositories/db.py:4470-4610 | from the start: nothing is lost, no worker commits twice, none meets the uniqueness conflict more than once |
| LastAlertProtocol.ThreeAttemptsSuffice | src/repositories/db.py:4473-4551 | without infrastructure errors no occurrence worker raises that brings no null for a counter column |
| LastAlertProtocol.NoDeadlock | src/repositories/db.py:4410-4425 | while a worker is unfinished some worker can step |
| LastAlertProtocol.EveryRunQuiesces | src/repositories/db.py:4473-4551 | n workers take at most 11 n steps, retried and fatal errors included |
| LastAlertProtocol.NewestWins | src/repositories/db.py:4484-4534 | timestamp, id and hash come from one occurrence, the first committed of the newest; first_timestamp is that of the first committed and never later |
| LastAlertProtocol.TimelyRunsCountEverything | src/repositories/db.py:587-620 | when no enrichment that found no row commits late, all committed operations count in commit order |
| LastAlertProtocol.LateEnrichmentLostExactlyWhen | src/repositories/db.py:589-600 | the first late one is lost exactly when there is a row by then and the enrichment has something to write on it |
| RowHistory.RunLosesNothingExactlyWhen | src/repositories/db.py:589-600 | in every interleaving all commits count, at every point, exactly when no enrichment committed off the row while there was a row it had something to write on |
| LastAlertProtocol.EveryEnrichmentCanBeLate | src/repositories/db.py:589-600 | every first occurrence and every enrichment have such an interleaving, which loses the enrichment exactly when it had something to write on a new row |
| RowHistory.OccurrenceCountsExactlyWhen | src/repositories/db.py:4484-4486 | in any run one more occurrence changes the row exactly when none committed before it was at least as new |
| RowHistory.LateOccurrencesLeaveNoTrace | src/repositories/db.py:4479-4486 | a run without its late occurrences ends in the same row, every column included |
| RowHistory.RowTracks | src/repositories/db.py:4500-4513 | over any run a tracking column holds what the last occurrence that counted and had something for it brought, and nothing if none did |
| RowHistory.OccurrencesLeaveUserFields | src/repositories/db.py:4484-4519 | over any run the assignee, the note, the ticket fields and deleted are what the enrichments alone make them |
| RowHistory.NoteOutlivesRun | src/repositories/db.py:428-435 | a note that says something keeps saying something through any run without a forced write |
| RowHistory.OnlyAuditsBeforeFirstAlert | src/repositories/db.py:593-618 | enrichments racing without an occurrence make no row in any interleaving and commit audit entries only |
| StatusRefinement.RowStoresView | src/repositories/db.py:4439-4449 | over any committed sequence of any writes the row stores the newest occurrence, the pending override, the dismissal, and the copied or pinned provider status |
| StatusRefinement.ShownStatusRefinesView | src/repositories/db.py:4111-4113 | in every interleaving the shown status is the pending override, else the newest occurrence's, exactly when no pinned copy stands over a different newest status |
| StatusRefinement.DisciplineNeverPins | src/repositories/db.py:4439-4449 | where every write that makes a status stick names it, nothing is pinned |
| StatusRefinement.NextShowsRightExactlyWhen | src/repositories/db.py:4439-4449 | for every accepted write and every newer occurrence, the status then shown is right exactly unless a condition on the row, the write and the occurrence holds |
| StatusRefinement.OverrideShows | src/repositories/db.py:4111-4113 | a status written by a user is shown over any provider status until it is written null, and over newer occurrences until one resolves or the flag is set |
| AlertEnrichment.AlertStore.EnrichEntity | src/repositories/db.py:546-620 | one write: row and audit together, audit only without a row, nothing on rejection or a refused null |
| AlertEnrichment.RequestWritten | src/repositories/db.py:587-604 | from request to row: outside the dismissal each column holds what was sent, or what it held where nothing was sent or an unforced note says nothing |
| AlertEnrichment.EnrichOneLeaves | src/repositories/db.py:587-620 | a rejected or refused write changes nothing; any other changes only the enrichment of the own row and appends the one audit entry |
| AlertEnrichment.AlertStore.BatchEnrich | src/repositories/db.py:761-812 | the batch writes every row and audit entry or nothing |
| AlertEnrichment.AlertStore.SetLastAlert | src/repositories/db.py:4472-4630 | with no other worker the upsert happens exactly when one of three attempts meets no error after only transient ones and no null counter is refused |
| AlertEnrichment.BatchIsSequentialExactlyWhen | src/repositories/db.py:712-812 | the batch equals one unforced write per fingerprint, in rows, audit order and outcome, exactly outside two named cases |
| AlertEnrichment.WithoutRowsOnlyAudits | src/repositories/db.py:593-618 | writing to fingerprints without rows, one by one or in a batch, only audits, each of them |
| EnrichmentService.Service.EnrichEntity | src/services/enrichments_bl.py:833-885 | the service stores through the database layer and publishes its once-normalised dictionary, with the action and the audit switched off, only when the write went through |
| EnrichmentService.Service.BatchEnrich | src/services/enrichments_bl.py:683-727 | one write per fingerprint up to the first failure, then one event for all |
| EnrichmentService.PublishedIsStoredExactlyWhen | src/services/enrichments_bl.py:837-849 | the event carries what the column writer gets exactly when one normalisation was enough |
| EnrichmentService.OtherColumnsReachTheRow | src/services/enrichments_bl.py:833-865 | outside the dismissal both the event and the row get what was sent |
| EnrichmentService.ServiceWritesAreDisciplined | src/services/enrichments_bl.py:648-664 | a service write that makes a status stick names the status, unless the caller sent the flag itself |
| EnrichmentService.DisposeFlagStoredExactlyWhen | src/services/enrichments_bl.py:662-664 | the caller's dispose choice is stored exactly when a status or mode is sent under its own name or the flag itself with that value |
| EnrichmentService.RouteCarriesTheFlag | src/services/enrichments_bl.py:662-664 | a legacy dismissal translated at the route first always carries it |
| IncidentEnrichment.IncidentEnrichmentStore.Enrich | src/repositories/db.py:451-543 | the stepwise merge equals the key-by-key one: null removes, a blank note gives way, anything else replaces; a missing row is created verbatim |
| IncidentEnrichment.MergeLeaves | src/repositories/db.py:475-493 | key by key: unforced, a key not sent keeps its value, a null removes its key, a blank note keeps one that says something, any other value replaces; forced, the sent dictionary without its nulls |
| IncidentEnrichment.EnrichIncidentLeaves | src/repositories/db.py:451-543 | the row of the incident is merged or created verbatim, other rows stay, one audit entry is appended if auditing is on, an unknown id changes nothing |
| IncidentEnrichment.MergeTwice | src/repositories/db.py:475-493 | merging the same dictionary again changes nothing |
| IncidentEnrichment.RepeatChangesNothingExactlyWhen | src/repositories/db.py:475-525 | repeating an unforced enrichment changes nothing exactly when the row existed or no value is null |
| IncidentEnrichment.IncidentEnrichmentStore.EnrichBatch | src/repositories/db.py:623-709 | the batch merges existing rows, creates missing ones and audits all, or does nothing |
| IncidentEnrichment.EachLeaves | src/repositories/db.py:475-543 | one enrichment per id leaves each id's row merged once or created, and one audit entry for each known id in order, mergeable or not |
| IncidentEnrichment.IncidentBatchIsSequentialExactlyWhen | src/repositories/db.py:623-709 | the batch leaves the rows and audits of one enrichment per id exactly when no id without a row is repeated or unknown, or none had anything to do |
| OneShotResults.NotIn | src/repositories/db.py:3663-3672 | the filtering comprehension over a one-shot result keeps the candidates successive probes did not find |
| OneShotResults.FoundIsThere | src/repositories/db.py:3663-3672 | a probe never reports a name no row carries |
| OneShotResults.AllFoundExactlyWhen | src/repositories/db.py:3615-3672 | every row is recognised exactly when the rows are a prefix of the probing order |
| OneShotResults.AnyOrderWorksExactlyWhen | src/repositories/db.py:3615-3672 | every order works exactly when nothing is still carried or there is one candidate |
| Ledger.LiveRowsAreFingerprints | src/repositories/db.py:3433-3440 | counting live rows counts live fingerprints |
| LedgerStore.Store.GetAlertsData | src/repositories/db.py:3255-3314 | the aggregation loop gives the sources, services and greatest severity, and raises exactly on a severity text that is not accepted |
| LedgerStore.Store.AddAlerts | src/repositories/db.py:3336-3503 | links exactly the new fingerprints and updates the aggregates, with each early return and refusal |
| LedgerLaws.AddLeavesRows | src/repositories/db.py:3336-3404 | add row by row: it makes live exactly the given fingerprints not live there, less the unlinked ones if excluded, changes no other row, and stops or is refused exactly for a severity text that is not accepted or an alert that does not exist |
| LedgerStore.Store.RemoveAlerts | src/repositories/db.py:3556-3746 | unlinks, probes its one-shot results in some order, recomputes the rest, and returns how many links it unlinked |
| LedgerLaws.RemoveLeavesRows | src/repositories/db.py:3573-3660 | remove row by row: exactly the live rows of the given fingerprints get the deletion time, and it stops or is refused exactly for the stated severities and a deletion time already there |
| LedgerStore.Store.UpdateIncidentSeverity | src/repositories/db.py:3895-3920 | forces the severity of an existing incident only |
| LedgerLaws.InStepSays | src/repositories/db.py:3407-3489 | agreement in terms of the alerts: the count of the live links, no stored name without a live alert carrying it (and all of them for exact names), the greatest severity a live alert names or 1, and every latest occurrence between the two times |
| LedgerLaws.AddBoundsHistory | src/repositories/db.py:3445-3464 | the times after an add are the earliest and the latest of the whole history of the live alerts, by reception or else by timestamp |
| LedgerLaws.RemoveBoundsLatest | src/repositories/db.py:3674-3696 | those after a removal are the earliest and the latest of the latest occurrences of the alerts that stay, null without any |
| LedgerLaws.AddKeepsInStep | src/repositories/db.py:3402-3489 | adding keeps every incident's aggregates in agreement with its live links |
| LedgerLaws.RemoveKeepsInStep | src/repositories/db.py:3573-3741 | so does removing; names stay exact in row order and one-sided in any order |
| LedgerLaws.RemoveNamesExactlyWhen | src/repositories/db.py:3663-3705 | names stay exact exactly when each result was probed in the order of its rows |
| LedgerLaws.RemoveNamesSafeExactlyWhen | src/repositories/db.py:3615-3705 | names stay exact in whatever order exactly when what remains carries no name of the removed alerts or those have a single one |
| LedgerLaws.AddCountsExactlyWhen | src/repositories/db.py:3402-3440 | the cached count is right after add exactly when every new severity text is accepted or a new fingerprint has no row |
| LedgerLaws.RemoveCountsExactlyWhen | src/repositories/db.py:3573-3744 | the count is right after remove exactly when it unlinks nothing, reuses a deletion time, or reads accepted severities it can look up; it drops by what is returned |
| LedgerLaws.WithoutSeverityLookup | src/repositories/db.py:3656-3660 | without the lookup a removal keeps the count right exactly when it unlinks nothing, is refused, or unlinks everything with accepted texts |
| Merging.Merger.MergeIncidentsToId | src/repositories/db.py:3756-3820 | the merge loop moves each found source once, with retries and logged errors, and reports what became of each |
| MergeLaws.MergePartitions | src/repositories/db.py:3785-3820 | merged and failed ids partition the found sources |
| MergeLaws.MergedIsLive | src/repositories/db.py:3804-3816 | whatever fails, the destination keeps its alerts and has every alert of each id reported merged |
| MergeLaws.RetriedAddCountsExactlyWhen | src/repositories/db.py:3317-3383 | for every list of errors and number of attempts, the cached count is right after the retried add, and the merge reported in spite of a wrong one, exactly under conditions on the errors and the new alerts |
| MergeLaws.EarlyErrorsAreRetried | src/repositories/db.py:176-184 | after fewer than three errors before a commit and then none the add does what it would have done at once; after three the source has failed with nothing changed |
| MergeLaws.TurnLeaves | src/repositories/db.py:3785-3816 | what the turn of a source leaves it, the destination and its mark, whatever its fate |
| MergeLaws.MoveConservesExactlyWhen | src/repositories/db.py:3785-3816 | a source's alerts are on one of the two incidents after its turn exactly under conditions on the errors, the deletion time and the severity texts |
| MergeLaws.MergeLeavesDest | src/repositories/db.py:3785-3816 | a completed or abandoned merge leaves the destination what it had and the alerts of the sources that delivered |
| MergeLaws.MergeLeavesSource | src/repositories/db.py:3785-3816 | it leaves a source nothing exactly when its turn came and committed the unlinking, else everything |
| MergeLaws.MergeLosesExactlyWhen | src/repositories/db.py:3785-3816 | an alert ends on none of the incidents exactly when the destination did not have it and every source that had it was unlinked without delivering |
| MergeLaws.WithoutErrorsLosesExactlyWhen | src/repositories/db.py:3587-3600 | without database errors that is exactly when every source that had it got its turn and has a severity text that is refused |
| MergeLaws.MoveCountsExactlyWhen | src/repositories/db.py:3793-3816 | with any errors, both cached counts are right after a move exactly when neither call stops between its commits |
| MergeLaws.MergeKeepsInStep | src/repositories/db.py:3782-3820 | a merge whose calls do not stop there keeps every aggregate in step, failures, abandonment and the destination among the sources included |
| MergeLaws.AsReadNeedsNoOrder | src/repositories/db.py:3782-3799 | with the destination not among the sources the order of probing cannot matter |
| MergeLaws.MergeStopsExactlyWhen | src/repositories/db.py:3785-3816 | without database errors a merge is abandoned exactly on a reused deletion time or a refused severity text |
| MergeLaws.MergeConserves | src/repositories/db.py:3782-3820 | from exact or one-sided names, an undisturbed merge unites the live sets at the destination, empties the sources, touches no one else, keeps every aggregate in step and marks exactly the sources |
| MergeLaws.ReportedMergeConserves | src/repositories/db.py:3756-3820 | what a call without errors reports: the destination has the union over all found sources, all of them are reported merged, none failed |
| SelfMerge.SelfMergeStopsExactlyWhen | src/repositories/db.py:3656-3660 | with the destination among the ids a merge is abandoned exactly under the usual conditions or when alerts brought before its turn have severities that cannot be looked up |
| SelfMerge.SelfMergeConserves | src/repositories/db.py:3782-3820 | otherwise it conserves alerts like any other merge and marks the destination merged into itself |
| LedgerRuns.RunKeepsInStep | src/repositories/db.py:3318-3820 | over any run of adds, removals, merges and forced severities that stop nowhere between two commits, count, sources, services, severity and times agree with the live links |
| LedgerRuns.SeverityAfterRun | src/repositories/db.py:3318-3820 | after any such run an unforced severity over live links is the greatest that the latest occurrence of one of them names, and 1 if none names any |
| LedgerRuns.FreshInStep | src/models/db/incident.py:110-112 | new incidents start in agreement |
| LedgerRuns.ForcedSeverityStays | src/repositories/db.py:3914-3915 | a forced severity survives any run, merges included |
| LedgerRuns.NextRelinksExactlyWhen | src/repositories/db.py:3336-3383 | one call brings an unlinked fingerprint back exactly when it is an unrefused add that names it without excluding or a merge into the incident with a turn that carries it and links |
| LedgerRuns.MergeLinksExactlyWhen | src/repositories/db.py:3785-3816 | a merge, abandoned or not, links a fingerprint to its destination exactly when a turn it reaches carries it and links |
| LedgerRuns.StaysUnlinkedExactlyWhen | src/repositories/db.py:3363-3380 | over any run a fingerprint stays unlinked after every call exactly when no call relinks it |
| LedgerRuns.UnlinkedStaysUnlinked | src/repositories/db.py:3363-3380 | so it does when adds that name it exclude unlinked alerts and nothing is merged into the incident |
| LedgerRuns.MergeRelinks | src/repositories/db.py:3804-3809 | a merge brings it back when a source reported merged had it |
| AddRace.RaceLeaves | src/repositories/db.py:3336-3489 | in every interleaving of adds the count is right unless a worker is between its commits, and the names are those of the start and of the workers that survive in the log of loads and updates |
| AddRace.NamesExactExactlyWhen | src/repositories/db.py:3406-3413 | at rest the names are exact exactly when every worker that does not survive brought no name of its own |
| AddRace.RaceKeepsNames | src/repositories/db.py:3406-3489 | all workers survive exactly when no update falls between another's load and update; then names and count are exact |
| AddRace.AnyTwoAddsCanLoseNames | src/repositories/db.py:3406-3489 | any two adds of new alerts have an interleaving with the count right and the first one's own names lost |
| AddRace.AloneIsAdd | src/repositories/db.py:3336-3503 | a worker alone does what a call to add does |
| Resolution.Resolver.CheckIncidentResolution | src/services/enrichments_bl.py:1034-1048 | the loop resolves, of the incidents linked to the alert, those the test decides |
| Resolution.Resolver.CheckAll | src/routes/alerts.py:971-982 | the batch loop resolves for all alerts at once |
| Resolution.TestIsRightExactlyWhen | src/repositories/db.py:4141-4160 | the three-valued test says "all in status" exactly when no null status hides among alerts otherwise in it |
| Resolution.DecisionIsRightExactlyWhen | src/repositories/db.py:4107-4160 | deciding that there are live alerts and all are resolved is right exactly by cases on live links and cached count; with the count in step, exactly when no null hides |
| Resolution.ResolvesExactly | src/services/enrichments_bl.py:1034-1048 | with the count in step and provider statuses set, exactly the resolve-on-all incidents linked to an alert whose live alerts are all resolved become resolved; fully merged ones stay |
| AuditTimeline.Timeline.FromOrmList | src/models/alert_audit.py:29-92 | the grouping loop renders the run-length code of the rows with all their fields |
| AuditTimeline.RunsExpand | src/models/alert_audit.py:71-86 | writing the runs out gives the events back, and the runs are maximal |
| AuditTimeline.CodeIsUnique | src/models/alert_audit.py:71-86 | no other maximal runs write out to the same events |
| AuditTimeline.TimelineShowsAcceptedRows | src/models/alert_audit.py:52-69 | exactly the rows of unknown action or without description are dropped, and counts add up to the rest |
| AuditTimeline.RunsStartAtTheirFirstRow | src/models/alert_audit.py:85-86 | each group is represented by its first row |
| AuditTimeline.RunsAreStretches | src/models/alert_audit.py:71-86 | a run stands for consecutive rows with the same user, action and description, and keeps the first of them |
| AuditTimeline.StretchesAreMaximal | src/models/alert_audit.py:71-86 | the runs cover the rows, and where one ends the next row differs in user, action or description |
| AuditTimeline.TimelineEntries | src/models/alert_audit.py:52-69 | the timeline has one entry, in order, for exactly the runs whose first row has a known action and a description |
| AuditTimeline.DescriptionTellsCount | src/models/alert_audit.py:67-68 | of one row, two occurrence counts are shown alike exactly when they are the same |
| Facets.GroupRows | src/repositories/facets.py:117-132 | grouping keeps each facet's rows in order, the first fifty on sqlite |
| Facets.RowsOfAre | src/repositories/facets.py:117-132 | a facet's rows are exactly those that carry its name, in the order of the query |
| Facets.GetFacetOptions | src/repositories/facets.py:146-195 | the assembly loops give the mapped rows, zero entries and stable sort |
| Facets.SortKeeps | src/repositories/facets.py:187-195 | the sort is a descending permutation that keeps order within a rank |
| Facets.StableOrderIsUnique | src/repositories/facets.py:187-195 | there is only one such order |
| Facets.EnumFacetShows | src/repositories/facets.py:164-195 | an enum facet shows its rows with their counts plus zero entries for unmatched values, by descending enum index, values outside the enum last |
| Facets.EnumValueShown | src/repositories/facets.py:164-186 | an enum value appears as often as the rows carry it, or as the enum lists it when none does |
| Facets.OutsideKeepsOrder | src/repositories/facets.py:187-195 | the values outside the enum are those of the rows, in the order of the rows |
| Hourly.AggregateDistribution | src/repositories/db.py:2110-2142 | the series loop gives one number an hour from the hour of the lower bound |
| Hourly.SeriesConservesExactlyWhen | src/repositories/db.py:2102-2142 | the series sums to the rows in range exactly when every row's label names one of its hours |
| Hourly.SeriesCounts | src/repositories/db.py:2110-2142 | with 24-hour labels each number counts the rows of the range whose time falls into its hour, and there is one for each hour that starts up to the upper bound |
| Hourly.TwentyFourHoursConserve | src/repositories/db.py:2102-2142 | with 24-hour labels nothing is lost |
| Hourly.TwelveHoursMisfile | src/repositories/db.py:2104-2107 | the postgresql label files a row right exactly in hours 1 to 12, an afternoon row twelve hours early, one of the first hour of the day at noon |
| Hourly.AfternoonShowsNothing | src/repositories/db.py:2104-2142 | over hours of one afternoon the series is all zero, whatever the rows |
| Hourly.ProviderDistribution | src/repositories/db.py:2163-2193 | the loop over the groups gives each provider its hourly hits and its latest time |
| Hourly.HourHasOneBucket | src/repositories/db.py:2185-2191 | each hour starting in the last 24 has a bucket, no other has, no two share one |
| Hourly.BucketOfRows | src/repositories/db.py:2145-2191 | a bucket holds the provider's rows whose label names its hour |
| Hourly.BucketCounts | src/repositories/db.py:2145-2191 | with 24-hour labels each of the 24 buckets counts the provider's rows of its hour |
| Hourly.BucketsConserveExactlyWhen | src/repositories/db.py:2102-2191 | a provider's buckets account for its rows exactly when every row's label names an hour that starts in the last 24 |
| Hourly.LastDayLoses | src/repositories/db.py:2102-2191 | with 24-hour labels exactly the rows of the hour already begun are lost; with 12-hour labels an afternoon row counts only if its morning hour is in the window |
| Hourly.LastIsNewest | src/repositories/db.py:2176-2183 | the time shown with a provider is that of its newest row |
| Hourly.LastShown | src/repositories/db.py:2163-2183 | a provider is shown exactly when it has rows, with the time of one of them that none is later than |
| Hourly.IncidentsMttr | src/repositories/db.py:2334-2368 | the loops give the mean of each hour, zero without incidents |
| Hourly.GroupedMeanIsPlain | src/repositories/db.py:2322-2357 | the grouped mean equals the plain mean over the incidents with both times |
| Hourly.MttrSeriesIsPlain | src/repositories/db.py:2322-2368 | for any order of the groups of the incidents, the whole series shows the plain means |
| Hourly.MttrIsAverage | src/repositories/db.py:2322-2368 | with 24-hour labels each number is the average of the hours the incidents created in its hour took, of those with a start and an end, zero without any |
| IncidentGauges.Gauge.Refresh | src/services/incident_metrics.py:87-110 | a refresh zeroes vanished labels and sets counted ones |
| IncidentGauges.GaugeIsCurrent | src/services/incident_metrics.py:81-110 | after any sequence of refreshes every label ever counted reads its current count or zero |
| IncidentGauges.CountIncidentsWithTicket | src/services/incident_metrics.py:67-78 | the counting loop gives each label its number of tickets and no empty label |
| IncidentGauges.ClassifiedExactlyWhen | src/services/incident_metrics.py:36-54 | an incident has a ticket exactly when its enrichment is a dictionary with a url, id or type; ServiceNow and Jira are recognised by the texts that occur in the lower-case type and url, ServiceNow first |
| IncidentGauges.ProvidersPartitionTickets | src/services/incident_metrics.py:36-54 | a tenant's provider counts add up to its incidents with a ticket |

## Left out

- SQL text, dialects, sessions, pooling, object expiry: tables are maps and sets and a commit is atomic. Ledger calls are taken one at a time, except adds racing on one incident; races with removals and merges are not modelled.
- LedgerStore.Store.AddAlerts: does not model `override_count`, which reads a key the aggregation never returns, nor the stale-data retry around a statement that cannot raise it.
- LedgerStore.Store.RemoveAlerts: the stored lists of sources and services are modelled as sets, so their order is not; `get_int_severity` is not part of this model beyond which severities it answers for, and where it answers it is taken to give the named order, LOW for a missing one.
- Merging.Merger.MergeIncidentsToId: whether the mark of a failed source outlives a rollback is an input of the model; that abandoning a merge can also lose the mark of an earlier source that had nothing to link is not modelled.
- AddRace.RaceLeaves: severity and times, which an add also writes back from what it read, and the database errors between its commits are not part of the race; the incident is taken as attached to the session, so that its names are loaded after the links are committed.
- LastAlertProtocol.RunsAreSerial: one fingerprint; the two enrichment kinds other than a single alert write (batch, incident) do not take part in the race.
- Type errors of the database beyond NOT NULL (a number written into a text column, an unparsable date) and the text format of `dismissed_until` on read-back, which is a parameter.
- UUID spelling of incident ids; ids are plain texts.
- Facet options of other data types than text, and the query builder behind the rows.
- Ticket classification of a list value, whose printed form could contain a provider name.
- `get_all_deduplication_stats`: its labels and values run in opposite directions, so no agreement holds to state.
- `get_incidents_created_distribution`: the same series loop as the alert distribution over incident creation times.
- EnrichmentService.Service.EnrichEntity: does not model the write to the search index that follows, nor incidents as entity type.
- Elasticsearch, server-sent events, Kafka delivery, identity, routing, logging and configuration.
- Extraction and mapping rules, deduplication and conversion of filters to SQL.
