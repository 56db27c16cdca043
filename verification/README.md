# Verified model of Drastha (aegisflow)

Drastha watches network metadata passively: a worker follows an append-only file of records, detectors raise alerts,
alerts become findings and incidents, and an analyst store, a signed ledger and an exporter carry the evidence on.
This project models the parts whose correctness spans many steps and proves what they promise:

* **Durable ingestion** (`Ingest`, `IngestLaws`, `Journal`, `Runs`, `RunLaws`, `Projection`, `Drain`, `Blocked`, `Lag`,
  `Ingestor`): one line at a time, one poll at a time, and every interleaving of appends, polls, failures, crashes, reopens and analyst actions.
  `Ingestor` is the worker object with its fields; the other modules are the transition system it is proved against.
* **Coordinated recovery** (`Recovery`, `CutLaws`): backup under three locks beside the running system, restore from a bundle.
* **Analyst store** (`AnalystStore`, `StoreLaws`, `Listings`): upserts, reviews and the members an incident shows, and in what order.
* **Signed ledger** (`Ledger`, `Forks`, `Retention`, `Holds`): a hash-chained log over the tables, what verification
  establishes in the presence of copies and rollbacks, previewed deletion, holds.
* **Findings, incidents, export** (`Findings`, `FindingLaws`, `Incidents`, `RiskLaws`, `Clustering`, `GapClusters`,
  `Export`, `ExportLaws`, `Pipeline`).
* **Algorithmic cores**: the sliding window (`Windowing`), the feature baseline (`Features`, `FeatureLaws`,
  `VectorLaws`, `Quartiles`), public suffixes and the corpus split (`PublicSuffix`, `Corpus`, `CorpusLaws`), the Internet
  checksum (`Checksum`).

The modules named `...Laws` say what the functions of the others mean in terms of the input alone, with the source's own
words, weights and limits written out.

`Records` and `Ordering` hold shared values, rounding, stable sorting and text order.

## How the model relates to the code

Objects that update fields are classes whose methods are proved against functions on values; the laws are lemmas
about those functions. Detectors and record normalisers are arbitrary deterministic functions. SHA-256 is symbolic
(equal digests, equal contents), the MAC an injective function that only the key holder can evaluate. A database file
is any bytes that read as the database. Canonical JSON is the value itself. Event times are reals in microseconds,
confidences and scores are reals; Python's rounding is half to even throughout. Clocks, randomness, file identities
and the outcome of storage calls are parameters or steps.

Where the code does something other than its documentation suggests, the model follows the code, a lemma gives an
input, and another the condition:

* `Ingest.EscapingLineStopsTheStream`: a line whose normaliser raises something other than the ValueError, UnicodeError
  or RecursionError of the handler at `continuous_ingestion.py:190` is not quarantined, as `docs/STATUS.md:392` has it,
  but fails the poll; an integer duration of four hundred digits (`ingestion/zeek_jsonl.py:128`) is one. The stream
  stops exactly at such a line or at one that passes the arrival filter with events out of order
  (`Ingest.StopsIffPoisoned`), no reopening gets past it (`Runs.PoisonIsNeverCommitted`), and once it is less than a
  batch ahead not one line more is committed, not even those in front of it (`Blocked.PoisonEndsTheWork`).
* `AnalystStore.RegrownAlertIsMisplaced`: re-importing an alert refreshes its payload but not the column that orders an
  incident's alerts, so a list can be out of order. It is certain to be in order exactly if of any two of its alerts the
  one whose first import started no later shows no later start in its last (`Listings.ListedInOrderIff`,
  `Listings.ImportListsInOrderIff`).
* `Lag.WorkerWithoutRepositoryLags`: a checkpoint may be reopened without the repository; two polls later the store is
  two commits behind. Under a clock that ticks it stays at most one behind all along a run exactly if no worker without
  a repository commits while a commit is undelivered (`Lag.StoreKeepsUpIff`).
* `Findings.SharedIdStays`: a reconnaissance identity does not hold the probed host, so a closing snapshot can share its
  id with an alert on another host; both stay and the export is refused. Ids stay distinct exactly if no id leads two
  keys (`Findings.ResolvedAreWellFormed`, `Pipeline.ExportIsTotalOnRuns`).
* `Clustering.LosslessIffAMicrosecond`: correlation windows below a microsecond can overwrite an incident.
* `GapClusters.BridgeDuplicates`: out of time order, reprocessing can store a finding in a second incident. It changes
  nothing exactly if no incident claims a finding of another: active for it and ending later, or as late and entered
  first (`GapClusters.ReprocessingIsIdleIff`).
* `Forks.RollbackGoesUnseen`: verification alone does not see a whole-store rollback; a retained head does.
* `Quartiles.IgnoresSpikesIffFive`: rows of fewer than five positions follow a lone spike.

## Model

| member | source | states |
|---|---|---|
| `Ingest.AcceptedIffAdmissible` | `src/aegisflow/continuous_ingestion.py:197-221` | in any journal, a line is accepted exactly if it is well formed, no earlier well-formed line has its (kind, uid) and none is later than it: accepted records have never-seen keys and nondecreasing times |
| `Ingest.ReplayRemembers` | `src/aegisflow/continuous_ingestion.py:203-216` | after any lines the seen-UID map holds exactly the keys met, each with its first signature, and the latest time is the maximum over all well-formed lines, rejected ones included |
| `Ingest.SessionNeverRefuses` | `src/aegisflow/continuous_ingestion.py:211-219` | if every record yields events of one time, as the normalisers do, the session's ordering error is never raised: a fold stops exactly if some line's normaliser lets an exception out |
| `Ingest.StopsIffPoisoned` | `src/aegisflow/continuous_ingestion.py:178-221` | the fold of any lines stops exactly if some line is poison: its normaliser lets an exception out, or it passes the arrival filter while its own events are out of order or begin before the last event of an earlier line that passed |
| `Ingest.EscapingLineStopsTheStream` | `src/aegisflow/continuous_ingestion.py:190-221` | one line whose normaliser lets an exception out stops the stream behind any journal |
| `Ingest.CountersAddUp` | `src/aegisflow/continuous_ingestion.py:178-231` | for any replayed lines: lines = ignored + accepted + rejected; rejected = quarantined; duplicates = exact + conflicting; seen = accepted + rejected exactly if no normaliser fails on Unicode after decoding, as line 192 would count that line twice |
| `Ingest.ReplayFeeds` | `src/aegisflow/continuous_ingestion.py:211-221` | the session has been fed exactly the events of the accepted lines, one line after the other: nothing is forgotten, repeated or reordered |
| `IngestLaws.OutcomesAreExpected` | `src/aegisflow/continuous_ingestion.py:178-221` | every disposition and reason told from the lines alone: repeated exactly or in conflict with the first line of that key, late against any earlier record, both, unreadable, blank or accepted |
| `IngestLaws.CountersMean` | `src/aegisflow/continuous_ingestion.py:178-221` | each counter is the number of lines it is named for, and the greatest skew the greatest step back between two records |
| `IngestLaws.ListsAreFirstRefusals` | `src/aegisflow/continuous_ingestion.py:223-231` | the messages are the first five refusals and the quarantine list the first twenty, with line numbers and reasons |
| `Journal.PollReads` | `src/aegisflow/continuous_ingestion.py:277-298` | what a poll queues are whole lines within the byte limit, at most the record slots left and within the byte budget, and are what the source has next |
| `Journal.CommitKeepsJournal` | `src/aegisflow/continuous_ingestion.py:300-314` | a committed poll keeps the journal invariant: gapless records that end at their only newline, offset, line count and prefix digest of their concatenation, both limits, a replayable fold and a report that shows it |
| `Journal.RecoverAccepts` | `src/aegisflow/continuous_ingestion.py:157-176` | recovery accepts every journal with the invariant and rebuilds exactly the fold of its lines |
| `Journal.RecoverSound` | `src/aegisflow/continuous_ingestion.py:157-176` | whatever recovery accepts is a gapless journal within the limits whose digest, offset, count and dispositions are those of a fresh fold |
| `Journal.QueueExtendsReplay` | `src/aegisflow/continuous_ingestion.py:301-307` | consuming a batch after a replay gives what replaying the longer journal gives, refusals included |
| `Runs.EveryRunKeepsInv` | `src/aegisflow/continuous_ingestion.py:271-331` | every interleaving of appends, source edits, opens, polls with any failure, crashes and analyst actions keeps the system invariant |
| `Runs.CrashIndependence` | `src/aegisflow/continuous_ingestion.py:157-221` | in every reachable state a live worker's memory is one uninterrupted fold of the committed lines, and the committed report shows that fold's quality and what the detectors say of every event of every accepted line, in order |
| `Runs.ReopenSucceeds` | `src/aegisflow/continuous_ingestion.py:114-121` | in every reachable state, reopening on an intact source succeeds and brings back the fold |
| `Runs.JournalOnlyAppends` | `src/aegisflow/continuous_ingestion.py:300-331` | across any run, failures included, the committed records only grow by appending and the checkpoint keeps its run and contract |
| `Runs.SourceDecidesRows` | `src/aegisflow/continuous_ingestion.py:276-314` | on an append-only source the committed lines are the source's first complete lines in every reachable state |
| `Runs.BatchIndependence` | `src/aegisflow/continuous_ingestion.py:271-316` | two runs that committed equally many lines of one source agree on every disposition, the quality and the analysis, however they were batched and interrupted |
| `Runs.PoisonIsNeverCommitted` | `src/aegisflow/continuous_ingestion.py:271-331` | on an append-only source nothing from the first poison line on is ever committed, however often the worker is reopened |
| `Runs.PoisonHoldsItsBatchBack` | `src/aegisflow/continuous_ingestion.py:277-314` | a poll that reads a poison line commits none of the lines it read and leaves no worker |
| `RunLaws.CommitsOnlyOnItsSource` | `src/aegisflow/continuous_ingestion.py:141-155` | in any run, lines are committed only by a live worker's poll and only while the source is the recorded file that still starts with every committed byte, edits and replacements included |
| `RunLaws.OpensItsOwnOnly` | `src/aegisflow/continuous_ingestion.py:114-130` | a known journal opens only under the limits and the release it was begun with and on its own source, with the fold of its lines as memory and the journal untouched; otherwise nothing happens |
| `RunLaws.GoodPollTells` | `src/aegisflow/continuous_ingestion.py:300-316` | a poll after which the worker goes on reports offset and backlog that add up to the source, its time, no failure and its run |
| `RunLaws.FailedPollTells` | `src/aegisflow/continuous_ingestion.py:317-331` | a poll that ends in an exception shows the failure and its time on the last committed report and changes neither lines nor checkpoint |
| `RunLaws.BatchesAddUp` | `src/aegisflow/continuous_ingestion.py:308-314` | in every reachable state the lines are at least as many as the batches and at most that many times the largest batch, which is within its limit |
| `Blocked.PoisonEndsTheWork` | `src/aegisflow/continuous_ingestion.py:271-331` | from a reachable state with a poison line that fits and is less than a batch ahead, no append-only continuation commits a single line more |
| `Projection.OnlyCommittedSnapshotsShow` | `src/aegisflow/continuous_ingestion.py:257-269` | in every reachable state the store's row of the stream's report is a snapshot that an earlier point of the run had committed |
| `Projection.OnlyCommittedEvidenceShows` | `src/aegisflow/continuous_ingestion.py:257-269` | in every reachable state the payload of every alert row and, up to its reviewed status, of every incident row stood in a snapshot that the journal had committed or was imported by an analyst |
| `Projection.AtMostOneCommitBehind` | `src/aegisflow/continuous_ingestion.py:271-316` | if every worker has the repository, then in every reachable state, live worker or not, the stored report is exactly the snapshot that the journal held after some k steps, and at most one commit followed those |
| `Lag.StoreShowsLastDelivery` | `src/aegisflow/continuous_ingestion.py:257-269` | in every reachable state, whoever delivers, the stored report is the snapshot that the journal held when the commits up to the last delivery had been made |
| `Lag.AlwaysNearIffNoOverrun` | `src/aegisflow/continuous_ingestion.py:257-331` | over any run, at most one commit is undelivered all along exactly if no worker without a repository commits while a commit is undelivered |
| `Lag.StoreKeepsUpIff` | `src/aegisflow/continuous_ingestion.py:257-331` | with a later time for each poll, the store shows a snapshot at most one commit old after every step of a run exactly under that condition |
| `Lag.DeliveringWorkersKeepUp` | `src/aegisflow/continuous_ingestion.py:257-331` | which a run meets if every worker is opened with the repository |
| `Lag.WorkerWithoutRepositoryLags` | `src/aegisflow/continuous_ingestion.py:257-259` | on any clean source of two batches and a line: a delivered poll, a handover to a worker without the repository and two polls of that leave the store two commits and at least two lines behind, with no failure on the way |
| `Lag.SourceDrainsUnshown` | `src/aegisflow/continuous_ingestion.py:257-259` | a worker opened without a repository commits every line of a clean source that fits while the store stays empty |
| `Projection.ReviewOutlivesEveryRun` | `src/aegisflow/api_store.py:331-346` | an analyst's status set at any point survives every later delivery, import and crash until the next review |
| `Projection.DeliveryShowsMembers` | `src/aegisflow/continuous_ingestion.py:257-265` | in any reachable state, delivering a linked snapshot makes every incident of it show exactly its present members |
| `Drain.DrainStep` | `src/aegisflow/continuous_ingestion.py:367-376` | one poll on a quiet source without overlong lines, and without poison among the lines that fit, commits a line or ends the loop, and then stands at the longest run of complete lines that fits both limits, with the status saying why |
| `Drain.PollOnce` | `src/aegisflow/continuous_ingestion.py:369-375` | a poll of a ready worker as a call: the next state, its report, and progress unless drained |
| `Drain.DrainOnce` | `src/aegisflow/continuous_ingestion.py:367-376` | the once-only loop terminates there |
| `Ingestor.ContinuousIngestor.ConsumeLine` | `src/aegisflow/continuous_ingestion.py:178-221` | the line handler, field by field, does the fold's step and fails exactly when the normaliser lets an exception out or the session refuses |
| `Ingestor.ContinuousIngestor.RejectLine` | `src/aegisflow/continuous_ingestion.py:223-231` | the two counters and the two capped lists of a rejection |
| `Ingestor.ContinuousIngestor.RecoverJournal` | `src/aegisflow/continuous_ingestion.py:157-176` | the recovery loop succeeds exactly if recovery accepts, and then holds the rebuilt memory and digest |
| `Ingestor.ContinuousIngestor.VerifySource` | `src/aegisflow/continuous_ingestion.py:141-155` | the block-wise check accepts exactly an intact prefix of the same file |
| `Ingestor.ContinuousIngestor.ReadLines` | `src/aegisflow/continuous_ingestion.py:280-296` | the reading loop gives the queue and status of the scan, and fails exactly on an overlong line |
| `Ingestor.ContinuousIngestor.ConsumeLines` | `src/aegisflow/continuous_ingestion.py:300-307` | the consuming loop gives the batch's rows and memory, and fails exactly if the line handler fails on one of them |
| `Ingestor.ContinuousIngestor.CommitQueue` | `src/aegisflow/continuous_ingestion.py:300-314` | rows, checkpoint and snapshot change together or not at all |
| `Ingestor.ContinuousIngestor.Publish` | `src/aegisflow/continuous_ingestion.py:257-269` | delivery projects the committed snapshot, never memory |
| `Ingestor.ContinuousIngestor.Start` | `src/aegisflow/continuous_ingestion.py:114-130` | opening equals the open step: fresh checkpoint, refusal with nothing changed, or recovery and delivery |
| `Ingestor.ContinuousIngestor.PollSource` | `src/aegisflow/continuous_ingestion.py:271-331` | a whole poll equals the poll step in journal, store and worker, with any exception retiring the worker on the last commit |
| `AnalystStore.IncidentRepository.ImportRecords` | `src/aegisflow/api_store.py:120-176` | the upsert loops equal the import of the tables |
| `AnalystStore.IncidentRepository.ProjectAnalysisRun` | `src/aegisflow/api_store.py:279-288` | report, incidents and alerts in one transaction |
| `AnalystStore.IncidentRepository.SetStatus` | `src/aegisflow/api_store.py:331-346` | a review changes status and time of one known incident and nothing else |
| `AnalystStore.IncidentRepository.GetIncident` | `src/aegisflow/api_store.py:235-258` | the stored incident with its current members in start order, or none |
| `AnalystStore.ProjectionShowsCurrentMembers` | `src/aegisflow/api_store.py:235-288` | right after a projection an incident shows exactly its present alerts with their payloads, whatever older rows the store holds, and keeps its review |
| `AnalystStore.ReviewSurvives` | `src/aegisflow/api_store.py:120-176` | over any sequence of imports, projections and reviews the status is that of the latest review |
| `StoreLaws.NewIncidentIsShownAsItCame` | `src/aegisflow/api_store.py:139-156` | a new incident is shown exactly as it came, status included, dated by its last sighting |
| `StoreLaws.StatusIsStanding` | `src/aegisflow/api_store.py:139-156` | over any operations an incident's status is that of the latest valid review since it entered, or else of the record that brought it in |
| `StoreLaws.OwnerIsLastLister` | `src/aegisflow/api_store.py:134-138` | an imported alert belongs to the last incident of its batch that lists it, or to none |
| `StoreLaws.NewAlertRow` | `src/aegisflow/api_store.py:157-169` | a new alert's columns are what the alert says |
| `StoreLaws.ColumnsAreThoseOfTheFirstImport` | `src/aegisflow/api_store.py:157-169` | over any operations threat, severity and start of a stored alert stay those of its first import |
| `StoreLaws.ShownOnce` | `src/aegisflow/api_store.py:235-258` | no alert is ever shown by two incidents, whatever both of them name |
| `AnalystStore.FirstWindowStartIsKept` | `src/aegisflow/api_store.py:140-176` | over any operations an alert's ordering column keeps the start of its first import |
| `AnalystStore.ImportKeepsAgreementIff` | `src/aegisflow/api_store.py:140-176` | an import keeps ordering column and payload in agreement exactly if every alert that is stored already comes with its stored start |
| `AnalystStore.AgreeingListIsOrdered` | `src/aegisflow/api_store.py:235-258` | while they agree, an incident lists its alerts in order of their starts |
| `Listings.ListedInOrderIff` | `src/aegisflow/api_store.py:235-258` | every list that the column order allows is in order of the starts shown exactly if of any two members the one whose column is not later shows no later start |
| `Listings.ImportListsInOrderIff` | `src/aegisflow/api_store.py:140-176` | so after an import, told from the tables before and the batch: exactly if of any two members the one whose first import started no later shows no later start in its last |
| `AnalystStore.RegrownAlertIsMisplaced` | `src/aegisflow/api_store.py:140-176` | a concrete store and a linked re-import after which an incident can only be listed out of order of the starts shown |
| `Ledger.TransactVerifies` | `src/aegisflow/audited_store.py:69-97` | any transaction on a store that verifies leaves one that verifies, its head digest that of the tables after the bookkeeping, with one record more exactly if something changed or an event is logged |
| `Ledger.OrdinaryCommit` | `src/aegisflow/audited_store.py:72-88` | an ordinary commit keeps runs and retention rows in step, restamps exactly the runs it wrote and keeps every hold |
| `Ledger.PatchDiff` | `src/aegisflow/audited_store.py:89-92` | replaying the recorded change set turns the tables before into the tables after |
| `Ledger.GenesisVerifies` | `src/aegisflow/audited_store.py:110-117` | first use of an empty store leaves a store that verifies |
| `Forks.EveryRunKeepsInv` | `src/aegisflow/audited_store.py:122-141` | under any honest work, copies, rollbacks, forks and edits without the key, every issued record is a root or has an issued parent, and no store holds a valid MAC of an unissued payload |
| `Forks.VerifyAcceptsExactlyIssuedPaths` | `src/aegisflow/audited_store.py:202-219` | a store verifies exactly if its rows are a root-to-node path of issued records with that node's tables, and then the recorded change sets replay to the tables |
| `Forks.HeadPinsStore` | `src/aegisflow/audited_store.py:134-141` | two accepted stores have the same head MAC exactly if they are the same store: a retained head pins one history and one state |
| `Forks.RollbackGoesUnseen` | `src/aegisflow/audited_store.py:1-6` | without a retained head, any earlier store can be put back and then stands as it did |
| `Retention.AuditedStore.VerifyConnection` | `src/aegisflow/audited_store.py:202-219` | the row loop returns the head exactly if the store verifies |
| `Retention.AuditedStore.Commit` | `src/aegisflow/audited_store.py:69-97` | leaving a transaction: bookkeeping, then one record |
| `Retention.AuditedStore.Write` | `src/aegisflow/audited_store.py:56-97` | an ordinary write, or a rollback with nothing changed |
| `Retention.AuditedStore.SetRetentionHold` | `src/aegisflow/audited_store.py:160-167` | exactly one flag of one known run changes, with one record |
| `Retention.AuditedStore.RetentionPlan` | `src/aegisflow/audited_store.py:169-187` | the plan of the eligible runs under the present head, refused for a cutoff that is not past |
| `Retention.AuditedStore.ApplyRetention` | `src/aegisflow/audited_store.py:189-199` | succeeds exactly if the plan is the present one, and then deletes exactly its runs and their retention rows |
| `Retention.Candidates` | `src/aegisflow/audited_store.py:173-179` | the cursor loop lists the first five hundred eligible runs in text order |
| `Retention.DeleteRuns` | `src/aegisflow/audited_store.py:194-196` | the delete loop removes exactly the listed runs |
| `Retention.PreviewIsConservative` | `src/aegisflow/audited_store.py:169-179` | a preview lists completed, unheld runs stored before the cutoff only, ascending, and all of them unless five hundred are reached |
| `Retention.AcceptedIffNothingCommitted` | `src/aegisflow/audited_store.py:189-193` | a plan made at one store is accepted at another exactly if they are the same store: any commit in between makes it stale |
| `Retention.DrainDeletesExactlyTheEligible` | `src/aegisflow/audited_store.py:169-199` | repeated preview and apply terminates and deletes exactly the runs eligible at the start, one record for each five hundred |
| `Retention.PreviewListsRows` | `src/aegisflow/audited_store.py:169-179` | on the rows' own fields: a previewed run is completed, not held and stored before the cutoff, and below five hundred every such run is listed |
| `Holds.EveryHistoryVerifies` | `src/aegisflow/audited_store.py:69-145` | after any history of writes, logged events, holds, retention and rollbacks from first use on, the head digest is that of the tables and runs and retention rows have the same ids |
| `Holds.HeldRunsSurvive` | `src/aegisflow/audited_store.py:72-88` | a held run survives any history until its own hold is released, re-saves and every retention included |
| `Holds.YoungRunsSurvive` | `src/aegisflow/audited_store.py:169-199` | a run stored at or after every cutoff used survives any history, held or not |
| `Holds.RetentionTouchesNothingElse` | `src/aegisflow/audited_store.py:189-199` | retention removes a run with its retention row, only where completed, unheld and stored before the cutoff, and leaves every other row as it is |
| `Holds.WrittenRunIsStamped` | `src/aegisflow/audited_store.py:72-88` | a run written anew is stored as of that transaction's own time, and a new one is not held |
| `Holds.HoldMovesOneFlag` | `src/aegisflow/audited_store.py:160-167` | a hold moves the flag of one run, keeps its storage time and every other row, and adds one record |
| `Holds.EveryRecordTellsItsOperation` | `src/aegisflow/audited_store.py:122-129` | every record that a history appends shows actor, operation, time and event of the operation that made it, and exactly the rows that differ, each as it was and as it became |
| `Holds.FirstRecordIsGenesis` | `src/aegisflow/audited_store.py:110-117` | the first record of every history is the genesis: no predecessor, no change, empty tables, the actor who began it |
| `Findings.ResolveFindings` | `src/aegisflow/findings.py:4-50` | suppression, grouping, merging and sorting loops give the resolved findings |
| `Findings.Unsuppressed` | `src/aegisflow/findings.py:6-16` | the suppression loop keeps exactly the alerts that no reconnaissance of the input contradicts |
| `Findings.Group` | `src/aegisflow/findings.py:18-35` | the two dictionaries hold, key by key, the merge and the count of all members |
| `Findings.EachFindingSummarisesItsKey` | `src/aegisflow/findings.py:18-50` | each finding carries the union of flows, the hull of windows, the maximum confidence and the identity of the first strongest of its surviving inputs; every surviving input is summarised |
| `Findings.KeysAreUnique` | `src/aegisflow/findings.py:18-50` | no two findings share a key |
| `Findings.NoContradictionSurvives` | `src/aegisflow/findings.py:6-16` | no surviving SYN flood shares a flow with a same-source reconnaissance finding, of the input or of the result, even after merging |
| `FindingLaws.SuppressedIff` | `src/aegisflow/findings.py:6-16` | an alert is suppressed exactly if it is one of the two floods and a reconnaissance alert of its source shares a flow |
| `FindingLaws.UncontradictedAlertsSurvive` | `src/aegisflow/findings.py:6-35` | every other alert survives: a finding of its threat, subtype, source and destination carries all its flows, encloses its window and is no less confident |
| `FindingLaws.ContradictedFloodsAreGone` | `src/aegisflow/findings.py:6-16` | a contradicted flood is a member of no finding, and one like it stands only if an uncontradicted alert does |
| `FindingLaws.FlowsInOrderOfMention` | `src/aegisflow/findings.py:27-34` | merged flows stand in the order in which the group's alerts first named them |
| `FindingLaws.FirstMentionsLead` | `src/aegisflow/findings.py:33` | flows named later never move those named first |
| `FindingLaws.FindingsAreOrdered` | `src/aegisflow/findings.py:50` | findings come by start, then threat, then subtype |
| `FindingLaws.TiesInOrderOfMention` | `src/aegisflow/findings.py:37-50` | findings tied in that stand in the order in which their matters first came up |
| `Findings.ResolveIsIdempotent` | `src/aegisflow/findings.py:4-50` | resolving resolved findings changes nothing |
| `Findings.ResolvedAreWellFormed` | `src/aegisflow/findings.py:4-50` | from well-formed alerts in any order come well-formed findings in order of their starts; their ids are distinct exactly if no id leads the surviving alerts of two keys |
| `Findings.CoherentIsNamedApart` | `src/aegisflow/detectors/recon.py:174-175` | that holds whenever alerts under one id have one key, repeated ids included, as when a closing snapshot repeats an identity |
| `Findings.SharedIdStays` | `src/aegisflow/detectors/recon.py:174-175` | two concrete reconnaissance alerts of one id on two hosts that both survive under it |
| `Ordering.SortIsTheStableSort` | `src/aegisflow/findings.py:50` | a list is the sort exactly if it is sorted and keeps every group of ties in order |
| `Ordering.PrecedesIsLexicographic` | `src/aegisflow/findings.py:50` | texts are ordered by the first character that differs, a prefix first |
| `Incidents.IncidentStore.ProcessAlert` | `src/aegisflow/incidents.py:285-299` | one finding on the dictionaries equals the step on the incident log, and the returned incident has the finding |
| `Incidents.IncidentStore.ActiveIncident` | `src/aegisflow/incidents.py:301-308` | the active incident seen last, of several the first entered |
| `Incidents.IncidentStore.AllIncidents` | `src/aegisflow/incidents.py:338-339` | all incidents in order of first sighting |
| `Incidents.BuiltIncidentIsInRange` | `src/aegisflow/incidents.py:310-336` | an incident's window encloses its findings; score from 10 to 100, confidence from 0 to 1, severity by band |
| `Records.RoundIsNearestEven` | `src/aegisflow/incidents.py:316` | rounding gives the one integer within a half, and of two the even one |
| `Incidents.AggregateIsAnchored` | `src/aegisflow/incidents.py:118-152` | the replay's score is never below any incident's, at most 30 above the strongest, and never falls with one incident more |
| `RiskLaws.ThreatAdds` | `src/aegisflow/incidents.py:15-21` | no threat counts nothing, and each further one its points: 15, 25, 25, 35, 40, or 10 for an unknown one |
| `RiskLaws.ScoreIsSum` | `src/aegisflow/incidents.py:310-318` | an incident's score is the points of its threats, eight for each detector after the first, and twenty times the mean confidence rounded half to even, up to a hundred |
| `RiskLaws.ScoreOfOneThreat` | `src/aegisflow/incidents.py:310-318` | with one threat and one confidence, in numbers |
| `RiskLaws.AverageIsMean` | `src/aegisflow/incidents.py:313` | one more finding shifts the sum of confidences by its own |
| `RiskLaws.ConfidenceIsRounded` | `src/aegisflow/incidents.py:328` | the confidence shown is the mean to three decimals |
| `RiskLaws.IncidentShowsItsFindings` | `src/aegisflow/incidents.py:310-336` | ids, detectors and threats are exactly those of the findings, and the window is exactly their hull |
| `RiskLaws.IncidentsInOrder` | `src/aegisflow/incidents.py:338-339` | incidents come by first sighting, those of one moment as they entered |
| `RiskLaws.SessionIncidentsInOrder` | `src/aegisflow/analysis_session.py:226-230` | and so do those of a session |
| `RiskLaws.AggregateIsExact` | `src/aegisflow/incidents.py:145-152` | the replay's score is that of the first of its strongest incidents, with three points for each further incident and threat, fifteen at most for either, a hundred in all |
| `Clustering.NewIdIsFresh` | `src/aegisflow/incidents.py:289-298` | with a window of at least a microsecond, a new incident's id is not in use |
| `Clustering.EveryFindingIsPlacedOnce` | `src/aegisflow/incidents.py:285-308` | in any order of arrival, every finding is kept exactly once, in an incident of its own source |
| `Clustering.ReuseLosesAFinding` | `src/aegisflow/incidents.py:290-298` | below a microsecond two findings of one printed start overwrite each other |
| `Clustering.LosslessIffAMicrosecond` | `src/aegisflow/incidents.py:278-299` | a correlation window loses no finding of any run exactly if it is at least one microsecond |
| `GapClusters.IncidentsAreGapGroups` | `src/aegisflow/incidents.py:285-308` | in time order, two findings share an incident exactly if a chain of same-source findings without a gap above the window links them; same-source incidents lie more than the window apart |
| `GapClusters.ReprocessingChangesNothing` | `src/aegisflow/incidents.py:286-288` | in time order, processing a stored finding again changes nothing |
| `GapClusters.ReprocessingIsIdleIff` | `src/aegisflow/incidents.py:286-308` | after any arrivals in any order, processing stored findings again changes nothing exactly if no incident claims a finding of another: is active for it and ends later, or as late and was entered first |
| `GapClusters.BridgeDuplicates` | `src/aegisflow/incidents.py:285-308` | out of order it can: a concrete run after which a stored finding is stored again in another incident |
| `Export.BuildExport` | `src/aegisflow/siem_export.py:43-149` | the validating loops give the export or the first refusal |
| `Export.LinkEach` | `src/aegisflow/siem_export.py:98-106` | the reference loop of one incident |
| `Export.ExportedIffWellLinked` | `src/aegisflow/siem_export.py:68-127` | a report is exported exactly if it passes the first checks and every alert is in exactly one in-range incident of its own source, with distinct ids |
| `Export.ExportIsFaithful` | `src/aegisflow/siem_export.py:107-128` | one event for each incident, in order of ids, each with exactly the alerts its incident names, and each alert in exactly one event |
| `ExportLaws.ExportedIffExportable` | `src/aegisflow/siem_export.py:50-127` | exactly when a report is exported, in numbers and words: complete, named in at most 256 characters, within 5000 incidents, 20000 alerts and 16 MiB, every alert in exactly one in-range incident of its source |
| `ExportLaws.RefusalsAreTrue` | `src/aegisflow/siem_export.py:50-127` | every refusal names a defect that the report has |
| `ExportLaws.EventsCarryTheirIdentity` | `src/aegisflow/siem_export.py:107-128` | every event is under the id of its run, its snapshot and its own incident and goes where its alerts went; the manifest repeats run and quality and counts incidents and alerts |
| `ExportLaws.EventIdsAreUnique` | `src/aegisflow/siem_export.py:107-128` | within an export no two events share an id, and incident ids ascend |
| `ExportLaws.EventIdsIdentify` | `src/aegisflow/siem_export.py:43-49` | event ids of any two exports agree exactly for the same incident of the same snapshot: stable when repeated, different for another run or changed evidence |
| `Pipeline.AnalysisSession.ProcessEvent` | `src/aegisflow/analysis_session.py:172-209` | an observation is refused exactly if the session is complete or the observation is older than an earlier one, and then nothing changes |
| `Pipeline.AnalysisSession.CurrentFindings` | `src/aegisflow/analysis_session.py:219-224` | resolved findings so far, or the final ones, which stay once the session is complete |
| `Pipeline.AnalysisSession.CurrentIncidents` | `src/aegisflow/analysis_session.py:226-230` | the findings correlated in a fresh store |
| `Pipeline.IncidentsAreWellGrouped` | `src/aegisflow/analysis_session.py:226-230` | from well-formed alerts in any order, no id of which leads two keys: incidents in range, sharing no alert and no id, that cover every finding |
| `Pipeline.SessionIncidentsAreGapGroups` | `src/aegisflow/analysis_session.py:226-230` | two findings of a session share an incident exactly if a chain of findings of their source links them with no gap above nine hundred seconds |
| `Pipeline.PipelineIsLinked` | `src/aegisflow/analysis_session.py:226-230` | what the analyst store expects of a projection holds of what the session reports exactly if no alert id leads two keys |
| `Pipeline.ExportIsTotalOnRuns` | `src/aegisflow/siem_export.py:50-127` | on what resolution and correlation produce from well-formed alerts the export succeeds exactly if the run's own name, size, counts and quality mark are in order, no alert id leads two keys and no two incident ids have one digest; no linkage, time, risk or severity check can fail |
| `Pipeline.DigestsExist` | `src/aegisflow/incidents.py:288-291` | for the incidents of any exportable run there are digests of twenty hexadecimal digits without a collision |
| `Windowing.KeyedSlidingWindow.Add` | `src/aegisflow/windowing.py:29-45` | after any adds in any order, a key's deque is everything ever added for it in stable time order from the maximum less the window on |
| `Windowing.KeyedSlidingWindow.Values` | `src/aegisflow/windowing.py:47-48` | the same window, unchanged |
| `Windowing.InsertBack` | `src/aegisflow/windowing.py:38-41` | walking back inserts behind everything not later |
| `Windowing.Evict` | `src/aegisflow/windowing.py:43-44` | popping the front removes exactly what is before the cutoff |
| `Windowing.InTimeIsTheStableSort` | `src/aegisflow/windowing.py:35-41` | inserting late values as they arrive sorts stably |
| `Windowing.WindowHolds` | `src/aegisflow/windowing.py:42-45` | a value is in the window exactly if it was added and is not before the maximum less the window |
| `Windowing.ArrivalOrderIsImmaterial` | `src/aegisflow/windowing.py:29-45` | the window's contents, with multiplicity, do not depend on the order of arrival |
| `Features.PassiveFeatureExtractor.EnrichSession` | `src/aegisflow/passive_features.py:98-192` | one session on the ordered cohort map equals the step on the state, with its verdict |
| `Features.ScanPackets` | `src/aegisflow/passive_features.py:48-64` | the packet loop gives the track or the first refusal |
| `Features.ScoreRow` | `src/aegisflow/passive_features.py:82-96` | the scoring loop gives the score, or none if a position has too few references |
| `FeatureLaws.EveryRunIsBounded` | `src/aegisflow/passive_features.py:98-192` | after any traffic cohorts and histories are within their caps, no session twice in a history, and observations = derived + supplied + insufficient |
| `FeatureLaws.KeptAreMostRecentlyUsed` | `src/aegisflow/passive_features.py:107-112` | the cohorts kept are the most recently used, in order of last use |
| `FeatureLaws.CohortsAreIsolated` | `src/aegisflow/passive_features.py:105-116` | after any traffic, evictions included, a cohort's history is what its own sessions since it last entered would leave alone |
| `FeatureLaws.TenureIsAll` | `src/aegisflow/passive_features.py:105-116` | which are all its sessions as long as no more cohorts were seen than are kept |
| `FeatureLaws.VerdictsAreCausal` | `src/aegisflow/passive_features.py:98-142` | a verdict depends on the session and on the sessions of its cohort since that last entered only |
| `FeatureLaws.BaselinesAreRecentPast` | `src/aegisflow/passive_features.py:114-116` | in time order a session is compared with the preceding history length only, and with nothing later than itself |
| `FeatureLaws.LearnedIffSafe` | `src/aegisflow/passive_features.py:180-191` | a session enters its baseline exactly if it is no duplicate and was not scored at the ceiling or above; otherwise nothing but eviction changes |
| `FeatureLaws.BaselinesHoldSafeSessionsOnly` | `src/aegisflow/passive_features.py:180-191` | after any traffic every item of every history is the record of a session of that cohort which, as judged when it came, was no duplicate and not scored at the ceiling or above |
| `FeatureLaws.ScoresComeTogether` | `src/aegisflow/passive_features.py:126-142` | in every reachable state a session has both scores, each from 0 to 1, or neither |
| `FeatureLaws.ScoreIgnoresLoneSpike` | `src/aegisflow/passive_features.py:82-96` | in rows of five or more positions a change at the most deviating position does not move the score |
| `VectorLaws.VectorsDescribeTheTail` | `src/aegisflow/passive_features.py:42-71` | a session has vectors exactly if it shows between the minimum and 128 packets, each readable, of 1 to 65575 bytes, not after the session and in time order; they are signed sizes and gaps of its last packets |
| `VectorLaws.VectorsRememberTheTail` | `src/aegisflow/passive_features.py:67-71` | two sessions have the same vectors exactly if their last packets are the same but for a common shift in time |
| `VectorLaws.PrevalenceIsShare` | `src/aegisflow/passive_features.py:120-123` | the prevalence is the share of the fingerprint among the sessions of the baseline that name one, present exactly if the session names one and they are enough |
| `VectorLaws.ScoredIffEnough` | `src/aegisflow/passive_features.py:125-129` | in every reachable state a session is scored exactly if it has vectors and enough sessions of its baseline show as many packets |
| `VectorLaws.DeviationFromHalves` | `src/aegisflow/passive_features.py:88-91` | against values half low and half high the scale is 1.4826 times half their distance, or the floor |
| `VectorLaws.UniformDeparture` | `src/aegisflow/passive_features.py:82-96` | against sequences all the same, a departure by so many floors at every position scores that number over the anomaly scale, one at most, to six decimals |
| `VectorLaws.SameIsNoAnomaly` | `src/aegisflow/passive_features.py:82-96` | a session that is the same as all it is compared with scores zero |
| `VectorLaws.OutcomeMeans` | `src/aegisflow/passive_features.py:130-177` | derived exactly with all three values and no duplicate; supplied exactly on request, valid, named, without observed packets and no duplicate |
| `VectorLaws.DuplicateMeans` | `src/aegisflow/passive_features.py:117-119` | a duplicate is exactly a session whose flow between its two addresses the history shows |
| `VectorLaws.LearnedComesLast` | `src/aegisflow/passive_features.py:180-189` | what is learned is the session's time, fingerprint, vectors and identity, behind the latest of what was there, the oldest making room |
| `VectorLaws.RecentIsKept` | `src/aegisflow/passive_features.py:114-116` | history is dropped from the front only and only while it is too old |
| `VectorLaws.CohortIsService` | `src/aegisflow/passive_features.py:102-106` | sessions share a cohort exactly if sensor, transport, port, application and kind of fingerprint agree |
| `VectorLaws.CountersCount` | `src/aegisflow/passive_features.py:98-191` | after any traffic each counter is the number of sessions judged so when they came |
| `Quartiles.LoneSpikeIsIgnored` | `src/aegisflow/passive_features.py:92-95` | the upper quartile of five or more values does not depend on the greatest |
| `Quartiles.ShortSpikeCounts` | `src/aegisflow/passive_features.py:92-95` | of one to four values, raising the greatest raises it |
| `Quartiles.IgnoresSpikesIffFive` | `src/aegisflow/passive_features.py:92-95` | so it ignores a lone spike exactly from five values on |
| `Quartiles.EvenlySpaced` | `src/aegisflow/passive_features.py:88-95` | of evenly spaced values in any order the median is the middle and the upper quartile three quarters of the way |
| `PublicSuffix.ReadRules` | `src/aegisflow/public_suffix.py:7-24` | the three sets hold exactly the rules of the lines; unreadable rules and a list without exact rules are refused |
| `PublicSuffix.RegistrableDomain` | `src/aegisflow/public_suffix.py:26-39` | the label loop with its early return gives the registrable domain |
| `PublicSuffix.RegistrableIsFormal` | `src/aegisflow/public_suffix.py:26-39` | the result is that of the Formal Algorithm of the Public Suffix List (exception, longest rule, wildcard, default), for every list and name |
| `PublicSuffix.RegistrableIsIdempotent` | `src/aegisflow/public_suffix.py:26-39` | a registrable domain is its own registrable domain |
| `Corpus.LoadCorpus` | `src/aegisflow/dns_corpus.py:77-135` | the loading loops, the validation and the class check, with the error of each; a loaded corpus keeps names and groups apart and accounts for every line |
| `Corpus.Validate` | `src/aegisflow/dns_model.py:275-297` | validation passes exactly if every name occurs once and no malicious family is in two splits |
| `Corpus.LoadIsSound` | `src/aegisflow/dns_corpus.py:105-130` | whatever the sources, what is read has no name twice, no registrable group in two splits, and lines = rows + duplicates, so only a shared malicious family can fail validation |
| `Corpus.NothingCrossesSplits` | `src/aegisflow/dns_corpus.py:112-131` | rows of different splits of a loaded corpus share no name, no registrable group and no malicious family |
| `CorpusLaws.ReadIff` | `src/aegisflow/dns_corpus.py:85-129` | sources are read exactly if each is in order (family, count, names, no malicious family by groups), no digest occurs twice, the lines are 200000 at most, and no name or group is at odds with itself |
| `CorpusLaws.RowsAreTheLabelledNames` | `src/aegisflow/dns_corpus.py:105-129` | the rows are then the labelled names of the sources, all of them and no other, with the split of the source or of the group's bucket: 60, 20 and 20 of a hundred |
| `CorpusLaws.ChecksMean` | `src/aegisflow/dns_corpus.py:131-135` | the checks after it pass exactly if one family's malicious rows share a split and every split has both labels |
| `Checksum.ComputeChecksum` | `scripts/check_sensor_integration.py:31-36` | word sum and carry-fold loops terminate with the Internet checksum |
| `Checksum.FoldKeepsResidue` | `scripts/check_sensor_integration.py:34-36` | folding keeps the sum modulo 65535 and gives zero for zero only |
| `Checksum.FilledChecksumVerifies` | `scripts/check_sensor_integration.py:31-36` | written into its zeroed even-aligned field, the checksum makes the checksum of the whole zero, whatever the data and its length |
| `Checksum.WrongFieldShows` | `scripts/check_sensor_integration.py:31-36` | any other field value with that effect agrees with it modulo 65535 |
| `Checksum.Ipv4Packet` | `scripts/check_sensor_integration.py:59-65` | header checksum zero, length, identifier, protocol, addresses and payload in place; refused exactly if the length does not fit |
| `Checksum.TcpFrame` | `scripts/check_sensor_integration.py:72-81` | header and pseudo-header checksums both verify at the receiver, odd payloads included |
| `Checksum.SplitRecords` | `scripts/check_sensor_integration.py:146-152` | the splitting loop gives the records from the offset on, or the failure of a header cut short |
| `Checksum.SplitIsInverse` | `scripts/check_sensor_integration.py:49-152` | splitting a capture gives back the recorded packets |
| `Recovery.CommittedJournalsRebuild` | `src/aegisflow/stream_recovery.py:132-152` | in every reachable state with a committed report and within the recovery limits, reconstruction has nothing to object to |
| `Recovery.CopyChecked` | `src/aegisflow/stream_recovery.py:224-241` | the bounded copy loop succeeds exactly on a file of the expected size and digest, and then the copy is the file |
| `Recovery.VerifyPrefix` | `src/aegisflow/stream_recovery.py:106-129` | the prefix loop accepts exactly the original source with the committed prefix |
| `Recovery.RunKeepsFrozen` | `src/aegisflow/stream_recovery.py:44-56` | whatever happens beside a backup, its locks keep workers out and the files copied so far equal to the live ones |
| `Recovery.PublishedIsOneCut` | `src/aegisflow/stream_recovery.py:179-205` | a published manifest describes journal and analyst store as both stand at one moment without a worker, and they agree |
| `Recovery.UndisturbedBackupPublishes` | `src/aegisflow/stream_recovery.py:179-205` | undisturbed, a backup of an agreeing pair publishes, whatever files hold it |
| `Recovery.CleanStopLeavesAPair` | `src/aegisflow/stream_recovery.py:153-176` | after any run, a worker with a repository whose last poll went through leaves an agreeing pair when it exits, if its report is within the recovery limits and can be linked |
| `Recovery.StoppedWorkIsRecoverable` | `src/aegisflow/stream_recovery.py:179-261` | what it leaves can be backed up and is restored as it was |
| `Recovery.FilesExist` | `src/aegisflow/stream_recovery.py:59-72` | for any journal and store there are files that hold them |
| `Recovery.SomeFilesRecover` | `src/aegisflow/stream_recovery.py:179-261` | so every cleanly stopped work has a bundle and a manifest of its cut from which it comes back |
| `Recovery.RestoreGivesTheCut` | `src/aegisflow/stream_recovery.py:244-261` | with the retained anchor, a bundle restores exactly if manifest and files are those of the cut and the source still has its prefix, and gives back both stores |
| `CutLaws.PairIsOneEvidence` | `src/aegisflow/stream_recovery.py:132-176` | whatever pair the checks accept, whoever wrote it: gapless lines within twenty thousand and 64 MiB whose digest, dispositions, quality, analysis and counters are those of a fresh fold, and a store that shows that report, on a source that starts with those lines |
| `CutLaws.OneEvidenceIsPair` | `src/aegisflow/stream_recovery.py:132-176` | and every such pair is accepted |
| `CutLaws.RestoredIsOneEvidence` | `src/aegisflow/stream_recovery.py:244-261` | so every restore, from any bundle and anchor, gives back one evidence, from files of the anchored sizes and digests |
| `CutLaws.PublishedIsOneEvidence` | `src/aegisflow/stream_recovery.py:179-205` | and what a backup publishes is one evidence, whatever happens beside it |
| `Recovery.ResumingEqualsNeverStopping` | `src/aegisflow/stream_recovery.py:244-261` | work resumed from a restored cut equals, for as many lines of the same source, a run that never stopped |

## Left out

- SQLite, files, inodes, fsync and operating-system locks are transactions over values, byte sequences, identities and ownership; torn writes and partial page reads are not modelled.
- Record normalisation and the detectors' internals: an arbitrary parse and an arbitrary analysis of the events so far.
- JSON text, column types and the shape checks on decoded values: the model's types exclude what they reject; the export's byte size is a parameter.
- Floating point: times, scores and confidences are reals, so representation error and the digits that formatting sees are not captured.
- Hash collisions: digests are symbolic values. The exporter's incident ids are any strings of twenty digits, and a collision among those of a run is a case of `Pipeline.ExportIsTotalOnRuns`.
- Text normalisation (case, IDNA, stripping) of domains, families and rules: names are label sequences in normal form.
- `AnalystStore` leaves out feedback, runtime state, list and metrics queries and the back-filled conclusions; they are independent rows, which the ledger model covers as opaque evidence.
- The compatibility path of the worker's delivery for repositories without an atomic projection.
- Narrative conclusions, limitations and scoring-factor texts of incidents, and the manifest's descriptive fields of an export.
- `render_siem_export`, export receipts and their signatures: single-call formatting and signing.
- `Features.PassiveFeatureExtractor.EnrichSession` keeps the six main counters only; the per-reason counters and the provenance metadata are not modelled.
- `Recovery` leaves out the ledger check of the copied analyst store, which `Ledger` and `Forks` treat, the column contract of the journal file, path-distinctness checks and the 30-second budget.
- `Recovery.PublishedIsOneCut`: journal and store are compared as whole values; that SQLite's online backup copies one consistent snapshot under the locks is taken as given.
- `Checksum.SplitIsInverse`: the float timestamps between splitting and writing the merged capture are not modelled.
- `Retention.AuditedStore.ApplyRetention`: the plan is compared as a value in place of its digest.
- The corpus manifest's own validation, pinned-file hashing and the audit record of a loaded corpus.
- FastAPI routes, access middleware, the command line, PCAP and Zeek execution, the PostgreSQL wrapper, the user interface and the PDF builder.
- Model training, calibration, benchmark scoring and fixture scripts: fixed-data checks and counting.
