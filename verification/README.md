# ClawCluster bridges: verified model

The bridges of ClawCluster turn incoming text into work items, decide whether work may start, follow its
cost and publish its results. This project models the state and the parsing of four of them and proves what
holds over whole runs and for every input.

**Budget admission** (policy bridge, with the row updates of the observability bridge).
`TaskRuns` holds the `task_runs` table, the scope predicate of the SQL queries and the two aggregates over it.
`Budget` is the fold of `BudgetPolicy.evaluate`, whatever the tables were when each of its queries ran. `TaskRunStore` is the store class and the link, sync and
complete handlers. `Admission` interleaves admissions, row updates and completions and proves concurrency safety
and the overspend bound, with and without trust in the estimates. `AdmissionLimits` shows that the bound is reached, and gives
the tables and runs that break a guarantee once creation is a step of its own, completions need not be terminal,
requests misstate their work item, costs may pass their estimates or costs arrive late.
`Approvals` is the approvals ledger, the approval policy and the evaluator that combines both verdicts.

**Publishing** (publisher bridge). `Ledger` is the `external_refs` row and its COALESCE upsert. `PublishProtocol` is a
step machine in which any number of `publish` handlers take their steps in any order and may fail at each one, before or
after the statement committed. `PublishStatus` says what a work item's status means in it.
`PublishHandler` is the imperative handler over a repository class, proved to be a run of that machine.
`PublishRaces` says exactly when handlers can publish, and shows what the ledger check does not prevent. `GitlabPublisher` derives commit actions and changes the project.

**Specifications** (intake bridge). `Text` is Python's string handling as explicit functions and `TextLaws` what these functions mean. `SpecParser` is the
extractor: headings, named sections, list items, objective and criteria; `ParserLaws` reads its patterns declaratively, and
`SectionLines` says which lines a section has.
`WorkItemSpec` is the work item's validation and its Markdown printer, and `SpecRoundTrip` is the round trip between the two.

**Trace metrics** (observability bridge). `TraceSearch` is the path lookup and the pre-order walk over a JSON tree.

## How to read the main results

- Money is a whole number of micro-USD, as the column type `numeric(10,6)` stores it. A run's row id is its index.
- In `Admission`, a run is created in the same step as the evaluation that allowed it, limits are fixed, and a completion
  reports a terminal status. For a policy on a workspace or a kind the results also assume that an admitted request repeats
  its work item's workspace and kind (`Truthful`). No service checks this; `TruthNeeded` shows that exactly the global
  scope and the agent profiles do without it. A recorded cost may pass the admitted estimate: `OverspendWithExcess` adds these excesses to the
  bound, and `BoundedOverspend` is the case without any. `complete_task` writes the
  terminal status before it writes the cost, so a finished run may still be waiting for its cost; `late` bounds how many such
  runs of the day a scope has at an admission. With `late == 0`, which is the case when a completed run's cost never
  rises afterwards, `BoundedOverspend` is `daily + (concurrency - 1) * per-task limit`, with the per-task limit
  cut to the daily one and to what the cost column holds. `BoundAttained` reaches the bound for all limits, so no smaller one holds.
- A statement ends in one of three ways: it takes effect and answers, it raises and changed nothing, or it takes effect and
  then raises. `TaskRunStore`, `Approvals`, `GitlabPublisher`, `PublishHandler` and `PublishProtocol` take this outcome for
  each of their writes, and check the foreign keys and the CHECK constraints that the write meets.
- In `PublishProtocol`, only this service writes its ledger columns and the status while handlers run. Every statement may
  raise before or after it committed, the status writes outside the `try` and in its exception handlers included. Each
  publisher's success carries a non-empty ref for its target and an artifact (`PublishersMeetContract`). Work items and task
  runs are neither created nor deleted while handlers run. The ledger may hold anything when
  the service starts; only the results about the status need a database that is `Settled`, as the service leaves it.
- Where a loop or a handler is specified by a function, what the function computes is also stated without it, on the inputs:
  `Reports` and `Exhausted` for budgets, `AsksFor` and `DecidedBy` for approvals, `Landed` for completions, `Delivered` and
  `Appended` for publishing, `Answers`, `Derived` and `Describes` for GitLab, `ObjectiveFrom`, `CriteriaFrom` and
  `SectionSpan` for the extractor, `PrintedPage` for the printer, `Found`, `SameNumber` and `CutTowardsZero` for metrics.
- `CriteriaRoundTrip` needs less than one would expect: the objective line may itself name a criteria section, since the
  section then takes in the printed criteria.

## Where the code and its promises differ

- `COALESCE` keeps a trace id from becoming null, but a completion event with an empty `trace_id` replaces a
  stored one by the empty string, which later reads as none (`EmptyTraceIdErases`).
- A completion event may carry `pending` or `running`, which puts a finished run back into the active count
  (`CompletionStatusMatters`, with the table in `CompletionBreaksLimit`).
- Evaluation and creation are separate requests; two evaluations of the same table can pass on one free slot
  (`StaleEvaluation`, with the table in `OneSlotAllowsBoth`).
- Workspace and kind of an evaluation request are taken as given, while the figures are counted by the work item's own. Requests
  that claim another workspace or kind bring any number of active runs under a policy (`TruthNeeded`).
- Work item and task run of an evaluation request are not looked up either: when approval is needed and one of them is missing, the
  INSERT raises and the caller gets an exception in place of a verdict (`Answers`). An INSERT that commits and raises leaves a
  pending row without an answer, so a retry adds a second one (`LedgerCountsRequests`).
- `complete_task` swallows a metrics write that commits and raises: its answer then carries the old row and reports no sync
  (`AnswerIsCurrent`, `AnswerCanBeStale`).
- A policy of type `global` is enforced only under the id `global`, though the query would count every run for any id;
  under another id the number of active runs has no bound (`GlobalIdExact`).
- The ledger check is not a lock: any number of handlers of one pair that read before the first of them commits can publish
  (`PublishableExact`, `DuplicatesUnbounded`).
- The "publishing" write stands outside the `try`. When it raises after it committed, or the "failed" write raises before it
  does, the work item stays "publishing" with no handler left (`StatusExact`, `ClaimCanStrand`).
- A publish request for a task run without a row publishes and records its ref, then fails on the artifact. Every retry
  answers "skipped" and completes the work item, which never gets its artifact (`MissingRunFails`, `MissingRunThenSkipped`).
- An artifact whose URI ends in `/..` gives a default file path that leaves the target directory (`DefaultPathLeaves`).
- A printed criterion that starts with a checkbox, or one after the first that reads as a heading, does not come back; a title
  that names a section captures it (`CriteriaRoundTrip`, `SectionRoundTripExact`, `ObjectiveRoundTripExact`). An empty list
  of criteria is never read back as empty (`CriteriaRoundTripExact`).

## Model

| member | source | states |
|---|---|---|
| TaskRuns.Conservation | services/policy-bridge/src/storage/supabase.py:134-173 | For spend on any day and for the active count, the scopes of one type never sum to more than the global figure, and to exactly it when they cover every run |
| TaskRuns.ProfileShortfall | services/policy-bridge/src/storage/supabase.py:134-173 | The agent-profile figures fall short of the global one by exactly the runs without a profile |
| TaskRuns.SumOverScopesInsert | services/policy-bridge/src/storage/supabase.py:144-155 | A new run is counted once among the scopes of one type, under its own id, or not at all |
| TaskRuns.OneMoreRun | services/policy-bridge/src/storage/supabase.py:141-170 | What one more row adds to the spend of a day and to the active count of a scope of each type |
| Budget.IterScopes | services/policy-bridge/src/policies/budget.py:108-114 | The scopes checked are global, workspace, work item kind and, when given, agent profile, in that order |
| Budget.RecordViolations | services/policy-bridge/src/policies/budget.py:47-61 | Each failed test adds one message in order and raises its flag |
| Budget.MessagesDistinct | services/policy-bridge/src/policies/budget.py:47-61 | A message says which limit of which scope was passed, whatever the scope's id holds |
| Budget.MessageText | services/policy-bridge/src/policies/budget.py:47-61 | The text of the message for each scope type and limit |
| Budget.Evaluate | services/policy-bridge/src/policies/budget.py:26-69 | Whatever each query finds, the verdict summarises exactly the applicable scopes, and every report is that of its scope's figures; the remaining budget is zero iff some scope has spent its daily limit; there is no verdict iff a query raised |
| Budget.ReportsReadings | services/policy-bridge/src/policies/budget.py:71-106 | For each scope: nothing remains once the spend reaches the daily limit, else spend and remainder make up the limit; and each of the four flags on the figures |
| Budget.MessagesExact | services/policy-bridge/src/policies/budget.py:47-61 | The verdict lists exactly one message for each limit that some report passes, by scope and then daily cost, task cost, tokens, concurrency |
| Budget.ApplicableAt | services/policy-bridge/src/policies/budget.py:33-39 | Every scope with an enabled policy is evaluated and reported with what was read for it, and no other |
| Budget.VerdictCorrect | services/policy-bridge/src/policies/budget.py:26-106 | A request is rejected iff some scope of it passes a limit on what was read for that scope; messages are empty iff it is not rejected; an estimate that passes is at most the remaining budget, which is null iff no policy applies |
| Budget.VerdictOnTables | services/policy-bridge/src/policies/budget.py:26-106 | When the tables stay the same through all queries, a request is rejected iff some scope of it passes a limit on the tables |
| Budget.DailyTestFromMinimum | services/policy-bridge/src/policies/budget.py:88-106 | A daily limit is exceeded iff the estimate is above the reported minimum or some scope is already overspent |
| Admission.ScopeAlignment | services/policy-bridge/src/policies/budget.py:108-114 | A run created from a request counts in exactly the scopes that were checked iff the request repeats its work item's workspace and kind |
| Admission.AlignedAnyway | services/policy-bridge/src/policies/budget.py:108-114 | A run counts in a global or agent-profile scope only if its request was checked there, whatever the request claims |
| Admission.ConcurrencySafety | services/policy-bridge/src/policies/budget.py:105-114 | In every state of every execution no enforced scope has more active runs than its concurrency limit; requests have to be truthful only for workspace and kind scopes |
| Admission.OverspendWithExcess | services/policy-bridge/src/policies/budget.py:71-106 | In every state of every execution, whatever costs are recorded, the spend of an enforced scope on a day is within the bound plus what that day's costs went beyond their estimates |
| Admission.BoundedOverspend | services/policy-bridge/src/policies/budget.py:71-106 | When no cost passes its estimate, the spend of an enforced scope on a day is within the daily limit plus one capped task for each slot but one and each late cost |
| Admission.ExposureSplit | services/policy-bridge/src/storage/supabase.py:134-173 | What may still be spent is at most what is spent plus one cap for each active or late run of the day |
| AdmissionLimits.BoundAttained | services/policy-bridge/src/policies/budget.py:71-106 | For all limits and any number of late costs some execution reaches the overspend bound exactly |
| AdmissionLimits.DailyLimitExact | services/policy-bridge/src/policies/budget.py:102-105 | A lone global policy's daily limit is kept by all executions iff there is one slot and no late cost, or nothing can be spent |
| AdmissionLimits.ExcessAttained | services/policy-bridge/src/policies/budget.py:71-106 | For all limits and any excess of one run that the cost column can hold some execution passes the bound by exactly that excess |
| AdmissionLimits.CompletionStatusMatters | services/observability-bridge/src/linkers/supabase.py:65-88 | At the concurrency limit a completion keeps the limit iff it does not put a finished run back to an active status |
| AdmissionLimits.CompletionBreaksLimit | services/observability-bridge/src/linkers/supabase.py:65-88 | For all limits some reachable table at its limit holds a finished run that an accepted completion brings back over it |
| AdmissionLimits.StaleEvaluation | services/policy-bridge/src/policies/evaluator.py:11-49 | Two requests allowed by the same table both fit iff two slots were free |
| AdmissionLimits.OneSlotAllowsBoth | services/policy-bridge/src/policies/evaluator.py:11-49 | For all limits some reachable table with exactly one free slot allows both, and their runs pass the limit |
| AdmissionLimits.GlobalIdExact | services/policy-bridge/src/policies/budget.py:108-110 | A lone policy of type global keeps its concurrency limit in all executions iff its id is "global" |
| AdmissionLimits.TruthNeeded | services/policy-bridge/src/policies/budget.py:108-114 | With requests that may misstate their work item, the limit of a lone policy is kept by all executions iff its scope is the global one or an agent profile; with truthful ones always |
| TaskRunStore.Store.UpdateTraceLink | services/observability-bridge/src/linkers/supabase.py:22-32 | Sets the trace id of one row and nothing else, finds no row, or raises before or after it committed |
| TaskRunStore.Store.GetTraceId | services/observability-bridge/src/linkers/supabase.py:34-38 | The stored trace id, with the empty one read as none |
| TaskRunStore.Store.UpdateTraceMetrics | services/observability-bridge/src/linkers/supabase.py:40-63 | Merges trace id, cost and tokens into one row; raises on a violated CHECK and changes nothing, or before or after it committed |
| TaskRunStore.Store.CompleteTaskRun | services/observability-bridge/src/linkers/supabase.py:65-88 | Sets status and end time and merges summary, error and trace id, for every way the statement ends |
| TaskRunStore.LinkTrace | services/observability-bridge/src/api/routes.py:28-40 | One link write, not found, or an exception |
| TaskRunStore.SyncTrace | services/observability-bridge/src/api/routes.py:43-64 | The payload's trace id, else the linked one, else a refusal; a failed look-up or fetch changes nothing, and the metrics write decides the rest |
| TaskRunStore.CompleteTask | services/observability-bridge/src/api/routes.py:67-114 | The completion write first, then at most one metrics write whose failure is swallowed: every column of the row and the answer for every way both end |
| TaskRunStore.AnswerIsCurrent | services/observability-bridge/src/api/routes.py:82-114 | The answer carries the table's row iff no metrics write that changes it committed and then raised; a reported sync has always committed |
| TaskRunStore.AnswerCanBeStale | services/observability-bridge/src/api/routes.py:84-95 | A metrics write that commits and raises leaves a cost in the table that the answer lacks |
| TaskRunStore.LastNonNullWins | services/observability-bridge/src/linkers/supabase.py:22-88 | After any writes in any order each column holds the latest non-null value supplied for it, so none returns to null |
| TaskRunStore.StatusIsLastCompletion | services/observability-bridge/src/linkers/supabase.py:65-88 | Status and end time are those of the last completion, whatever else was written |
| TaskRunStore.FollowUpKeepsCompletion | services/observability-bridge/src/api/routes.py:82-107 | Whatever Langfuse and Graphiti do, the row keeps the status, end time, summary and error the completion wrote |
| TaskRunStore.EmptyTraceIdErases | services/observability-bridge/src/linkers/supabase.py:73-73 | A usable trace id survives a completion iff the event does not carry the empty string |
| Approvals.PolicyStorage.CreateApprovalRequest | services/policy-bridge/src/storage/supabase.py:23-58 | Appends one row iff work item and task run exist and the statement did not raise before its commit; answers its id iff it did not raise at all |
| Approvals.PolicyStorage.RecordApprovalDecision | services/policy-bridge/src/storage/supabase.py:60-91 | Stores the decision, decider and time it is given and merges the evidence of one row, finds none, or raises before or after its commit |
| Approvals.PolicyEvaluator.EvaluateApproval | services/policy-bridge/src/policies/approval.py:23-61 | Approves automatically exactly by the matrix of class and risk and without touching the ledger, else inserts one pending row with the request's columns, even when the notification fails, or raises on a missing work item or task run or a failing INSERT |
| Approvals.RequestAsks | services/policy-bridge/src/policies/approval.py:32-45 | The row that is inserted: undecided, with the request's own columns, its gate and its four pieces of evidence |
| Approvals.PolicyEvaluator.Evaluate | services/policy-bridge/src/policies/evaluator.py:11-49 | Answers iff no query raised and a needed INSERT succeeded; then the status is the verdict of the limits and the approval matrix; the ledger grows by one row exactly when an INSERT committed |
| Approvals.VerdictAllows | services/policy-bridge/src/policies/evaluator.py:11-49 | When the tables stay the same through all queries, the verdict is "approved" iff no scope blocks the request on the tables and the approval matrix needs no human |
| Approvals.StepsExact | services/policy-bridge/src/policies/evaluator.py:26-39 | The listed steps of a run are exactly the evaluations of that kind: those that add a row, that answer pending, or that lose their answer |
| Approvals.LedgerCountsRequests | services/policy-bridge/src/storage/supabase.py:23-91 | Over any run of evaluations, each against its own tables, and rulings, with every way they can fail, the rows added are the pending answers returned plus the INSERTs that committed and raised |
| Approvals.RowOfVerdict | services/policy-bridge/src/storage/supabase.py:23-91 | The k-th row added is the approval requested by the k-th evaluation that inserted one, as the rulings on it have left it |
| Approvals.DecidedStaysDecided | services/policy-bridge/src/storage/supabase.py:60-91 | A row is pending iff it was and no ruling on it was committed |
| Approvals.DecisionIsLatest | services/policy-bridge/src/storage/supabase.py:60-91 | Over any run, the decision, decider and time of a row are those of the last committed ruling on it |
| Approvals.NotesAreLatest | services/policy-bridge/src/storage/supabase.py:74-74 | The notes are those of the last committed ruling that carried any, else the ones the row had |
| Approvals.RequestColumnsStay | services/policy-bridge/src/storage/supabase.py:69-78 | Rulings leave work item, task run, gate, addressee and creation time alone |
| Approvals.EvidenceIsLatest | services/policy-bridge/src/storage/supabase.py:71-76 | Under each key the evidence is what the last committed ruling that carried the key said, else the original; no key is lost |
| Approvals.PendingPage | services/policy-bridge/src/storage/supabase.py:93-110 | The page lists pending rows of the work item, oldest first, each once, all of them when it is not full |
| Approvals.NothingOlderOmitted | services/policy-bridge/src/storage/supabase.py:93-110 | A pending row left out of a page is no older than any listed row, and the page is full |
| Approvals.RuledRowLeavesList | services/policy-bridge/src/storage/supabase.py:60-110 | A ruling that commits takes exactly its own row off the pending list |
| Ledger.UpsertIsMerge | services/publisher-bridge/src/storage/supabase.py:79-103 | The generated upsert is a right-biased merge of the known non-null columns, and the returned refs are the stored row's |
| Ledger.UpsertNeverClears | services/publisher-bridge/src/storage/supabase.py:87-89 | A recorded column never returns to null |
| Ledger.UpsertsCommute | services/publisher-bridge/src/storage/supabase.py:79-103 | Two upserts commute iff they agree on the columns they share |
| Ledger.ExtractInjective | services/publisher-bridge/src/storage/supabase.py:184-189 | The extracted refs determine the row's columns |
| Ledger.PublishedTargets | services/publisher-bridge/src/storage/supabase.py:191-196 | Lists exactly the targets the idempotency gate would skip, in table order |
| PublishProtocol.PublishersMeetContract | services/publisher-bridge/src/publishers/gitlab.py:46-74 | What a publisher returns on success carries a non-empty ref for its target and at least one artifact, and never a merge request without its project |
| PublishProtocol.GateAfterPublish | services/publisher-bridge/src/publishers/gitlab.py:46-74 | The columns a publisher's success sets, and that the gate then skips its target, the branch target after a merge request, and what it skipped before |
| PublishProtocol.UpsertColumns | services/publisher-bridge/src/storage/supabase.py:79-103 | Column by column: named with a value, the new value; otherwise the old one |
| PublishProtocol.UpsertRefsIsMerge | services/publisher-bridge/src/storage/supabase.py:79-103 | An upsert merges into one work item's refs and leaves every other work item's alone |
| PublishProtocol.PublishOnceAfterCommit | services/publisher-bridge/src/api/routes.py:62-103 | Under any interleaving a handler that reads after a committed upsert for its pair never calls the publisher and never answers "published" |
| PublishProtocol.SequentialCommitsOnce | services/publisher-bridge/src/api/routes.py:62-103 | Without overlap of handlers of one pair at most one upsert of the pair commits, however attempts fail and whatever other targets do |
| PublishProtocol.SequentialPublishesOnce | services/publisher-bridge/src/api/routes.py:62-103 | Without overlap of handlers of one pair at most one of them answers "published" |
| PublishStatus.StatusIsLastWrite | services/publisher-bridge/src/api/routes.py:62-125 | A status is what the last committed status write said, or what the service found |
| PublishStatus.StatusInvariant | services/publisher-bridge/src/api/routes.py:62-125 | What every step keeps: "complete" and every handler about to write it have a ref in the ledger |
| PublishStatus.ClaimantAfter | services/publisher-bridge/src/api/routes.py:83-125 | Until the next status write a claimant is on its way or its claim is stranded |
| PublishStatus.StatusExact | services/publisher-bridge/src/api/routes.py:62-125 | "publishing" means that the last write was a claim, owned or stranded; "complete" means a ref is recorded; a quiet work item is "publishing" iff its last write was a stranded claim, and otherwise, once written, complete or failed |
| PublishStatus.StatusSafety | services/publisher-bridge/src/api/routes.py:62-125 | Without stranded claims "publishing" has an owner, and a quiet work item that was written is complete or failed |
| PublishProtocol.MrImpliesBranchThroughout | services/publisher-bridge/src/publishers/gitlab.py:57-60 | In every reachable ledger a recorded merge request implies a recorded branch target |
| PublishHandler.Repository.GetExternalRefs | services/publisher-bridge/src/storage/supabase.py:59-68 | The work item's non-null columns, or none without a row |
| PublishHandler.Repository.UpdateWorkItemStatus | services/publisher-bridge/src/storage/supabase.py:105-112 | Sets one status; a missing work item changes nothing |
| PublishHandler.Repository.UpsertExternalRefs | services/publisher-bridge/src/storage/supabase.py:79-103 | The upsert's effect and answer for every way the statement can end |
| PublishHandler.Repository.RecordArtifacts | services/publisher-bridge/src/storage/supabase.py:114-131 | One row more for each artifact, in order, with the task run and the artifact's own kind and URI, for every way the statement can end; a missing task run raises |
| PublishHandler.Publish | services/publisher-bridge/src/api/routes.py:46-125 | Whatever the environment does, the request is a run of the step machine; "published" leaves exactly the named columns, one row for each artifact with its kind and URI, and the status; exactly when artifacts are recorded, and what each error answer goes back to |
| PublishHandler.TryExcept | services/publisher-bridge/src/api/routes.py:84-125 | For a claimed work item, the exact response and tables whatever raises inside the try or in its exception handlers |
| PublishHandler.Try | services/publisher-bridge/src/api/routes.py:84-103 | The first exception inside the try decides the outcome; what was committed before it stays |
| PublishHandler.Finish | services/publisher-bridge/src/api/routes.py:91-93 | The artifacts, then the "complete" write: an artifact that cannot be recorded leaves the status alone |
| PublishHandler.MissingRunFails | migrations/supabase/001-clawcluster-schema.sql:248-250 | A request for a missing task run that fails nowhere else ends in an error with its ref recorded, the item "failed" and no artifact |
| PublishRaces.PublishableExact | services/publisher-bridge/src/api/routes.py:62-103 | From any reachable state any handlers can all go on to answer "published" iff each can: before its read iff it would find no ref and its work item and task run exist, after it whatever refs the ledger holds |
| PublishRaces.WaitingExact | services/publisher-bridge/src/api/routes.py:62-83 | Waiting handlers of one pair, one or many, can all publish iff the work item and their task runs exist and its ref is absent |
| PublishRaces.ArtifactsHaveRuns | migrations/supabase/001-clawcluster-schema.sql:248-250 | In every execution artifacts are only added, and only under existing task runs |
| PublishRaces.MissingRunThenSkipped | services/publisher-bridge/src/api/routes.py:62-125 | From any state, a request for a missing task run followed by a retry can end with the ref recorded, the retry "skipped", the item "complete" and no artifact |
| PublishRaces.ClaimCanStrand | services/publisher-bridge/src/api/routes.py:83-84 | Every handler that can still publish can also leave its work item "publishing" with nobody in flight |
| PublishRaces.DuplicatesUnbounded | services/publisher-bridge/src/api/routes.py:62-103 | For every n some run has n requests of one pair all answer "published", each with its own document and artifact, while the ledger names only the last document |
| GitlabPublisher.ResolveCommitActions | services/publisher-bridge/src/publishers/gitlab.py:122-153 | Specs are resolved in order until the first that fails |
| GitlabPublisher.ResolutionExact | services/publisher-bridge/src/publishers/gitlab.py:122-153 | Resolution succeeds iff every spec has a path and content that is given or can be read |
| GitlabPublisher.ResolutionAnswers | services/publisher-bridge/src/publishers/gitlab.py:122-153 | On success there is one action for each spec, in order, with its path, its content or that of its artifact in the form of the encoding, its action and its mode |
| GitlabPublisher.ResolutionRaises | services/publisher-bridge/src/publishers/gitlab.py:127-141 | On failure the first spec that lacks a path or content decides the error, which says what it lacks |
| GitlabPublisher.BuildCommitActions | services/publisher-bridge/src/publishers/gitlab.py:85-120 | Explicit actions, else files, else the first artifact named ".json" if it is a manifest, else one new file for each artifact; the commit is empty iff there is nothing to publish or a manifest lists nothing |
| GitlabPublisher.DefaultActions | services/publisher-bridge/src/publishers/gitlab.py:96-108 | One create action for each artifact in order, or the first artifact that cannot be read |
| GitlabPublisher.DefaultPathsCollide | services/publisher-bridge/src/publishers/gitlab.py:96-106 | Two default files collide iff their file names are equal, and one lands directly in the target directory iff its file name is neither empty nor ".." |
| GitlabPublisher.FileNameMeans | services/publisher-bridge/src/publishers/gitlab.py:99-99 | The file name of a path is its last component that is neither empty nor a single dot |
| GitlabPublisher.SlashesStripped | services/publisher-bridge/src/publishers/gitlab.py:96-96 | The target directory loses the slashes at both ends and nothing else |
| GitlabPublisher.DefaultPathLeaves | services/publisher-bridge/src/publishers/gitlab.py:96-106 | Every URI that ends in "/.." gives the path of the directory above |
| GitlabPublisher.Project.EnsureBranch | services/publisher-bridge/src/publishers/gitlab.py:209-220 | Succeeds iff the branch was found or the creation call finds it or its base and answers; a new branch starts at its base and nothing else changes, even when its response is lost |
| GitlabPublisher.Project.Publish | services/publisher-bridge/src/publishers/gitlab.py:155-207 | The exact branches and merge requests for every call that raises before or after it took effect, and on success the project, branch and merge request number in refs and artifacts |
| Text.StripIsSlice | services/intake-bridge/src/handlers/base.py:30-30 | Stripping cuts a blank prefix and a blank suffix and nothing else |
| Text.SplitAtNewline | services/intake-bridge/src/handlers/base.py:154-154 | A newline ends a line whatever stands before it: the two sides split independently |
| Text.NormalizeTextCanonical | services/intake-bridge/src/handlers/base.py:25-30 | Idempotent and canonical: no carriage return, no three newlines, no outer white space, every other character kept in order; a text is unchanged iff it has that form |
| Text.NormalizeLineCanonical | services/intake-bridge/src/models/work_item.py:16-17 | Idempotent and canonical, keeps every character that is not white space, and is empty iff the text is blank |
| Text.LowerTable | services/intake-bridge/src/handlers/base.py:200-203 | Lower case letter by letter, with the Kelvin sign |
| TextLaws.LinesRejoin | services/intake-bridge/src/handlers/base.py:154-154 | Lines and breaks in turn give the text back, no line holds a break, and "\r\n" is never taken for two breaks |
| TextLaws.NewlineConventions | services/intake-bridge/src/handlers/base.py:28-30 | The normalised text does not depend on whether lines end in "\r\n", "\r" or "\n" |
| TextLaws.NormalizeLineIsWords | services/intake-bridge/src/models/work_item.py:16-17 | Normalising a line is splitting it into words and joining them by single blanks |
| ParserLaws.DecoratedHeading | services/intake-bridge/src/handlers/base.py:200-203 | Marks before a name, one colon right after it and blanks behind leave a heading its lower-cased name |
| SpecParser.CollectBlock | services/intake-bridge/src/handlers/base.py:160-167 | Collects the section block: leading blank lines skipped, the first line always taken, then up to a heading |
| SpecParser.ExtractNamedSection | services/intake-bridge/src/handlers/base.py:153-171 | The loop over headings gives the specified section |
| SpecParser.FirstHeadingAnswers | services/intake-bridge/src/handlers/base.py:153-171 | The answer always comes from the first matching heading; if only blanks follow it there is none, and no later match |
| SpecParser.SectionExact | services/intake-bridge/src/handlers/base.py:153-171 | A section's text is that of its lines: from the first line with ink behind the first heading of that name to the next heading |
| SpecParser.SectionExists | services/intake-bridge/src/handlers/base.py:153-171 | There is none iff only blank lines follow every line that names one |
| SpecParser.SpanExists | services/intake-bridge/src/handlers/base.py:153-171 | Otherwise there are such lines |
| SpecParser.HeadingExact | services/intake-bridge/src/handlers/base.py:205-223 | A line is a heading iff its first character with ink is a hash or it is one of the ten names once its decoration is taken away |
| SpecParser.BlockIsSlice | services/intake-bridge/src/handlers/base.py:160-167 | A block is a slice from the first line with ink to the next heading or the end |
| SectionLines.SectionLinesAre | services/intake-bridge/src/handlers/base.py:168-170 | The lines of a section's text are its block's lines without surplus blank lines |
| SectionLines.NoHeadingInside | services/intake-bridge/src/handlers/base.py:153-171 | No line of an extracted section after its first is a heading |
| SectionLines.OneLineSection | services/intake-bridge/src/handlers/base.py:160-170 | A section's text is one given line iff its block holds that line and otherwise blanks |
| SpecParser.ExtractListItems | services/intake-bridge/src/handlers/base.py:187-198 | The loop collects the items of the lines |
| ParserLaws.ItemExact | services/intake-bridge/src/handlers/base.py:190-196 | A line gives an item iff it reads as indentation, marker, gap and a rest that is not blank behind its optional checkbox |
| ParserLaws.ItemLineParses | services/intake-bridge/src/handlers/base.py:190-196 | What such a line gives: its rest without the checkbox, normalised, and whether it had one |
| ParserLaws.ItemUnderFlag | services/intake-bridge/src/handlers/base.py:193-194 | With the checkbox required a line gives its item iff it has one with something behind it |
| SpecParser.ItemsClean | services/intake-bridge/src/handlers/base.py:187-198 | Items are non-empty, white-space normalised and distinct |
| SpecParser.ItemsComplete | services/intake-bridge/src/handlers/base.py:187-198 | An item is listed iff some line carries it |
| SpecParser.ItemsOrdered | services/intake-bridge/src/handlers/base.py:187-198 | Items are listed once each, in the order of their first occurrences |
| SpecParser.FirstParagraph | services/intake-bridge/src/handlers/base.py:173-185 | The first paragraph with text that is neither a heading nor a list |
| ParserLaws.ParagraphsRejoin | services/intake-bridge/src/handlers/base.py:176-176 | Paragraphs joined by blank lines give the body back |
| ParserLaws.ParagraphsPlain | services/intake-bridge/src/handlers/base.py:176-176 | No paragraph holds the separator |
| ParserLaws.ParagraphsEarly | services/intake-bridge/src/handlers/base.py:176-176 | Separators are taken as early as possible |
| ParserLaws.SentencesKeepInk | services/intake-bridge/src/handlers/base.py:90-90 | Splitting into sentences loses only white space |
| ParserLaws.SentencesEndInStop | services/intake-bridge/src/handlers/base.py:90-90 | Every sentence but the last ends in a full stop, exclamation or question mark |
| ParserLaws.SentencesExact | services/intake-bridge/src/handlers/base.py:90-90 | Sentences and the white space between them give the text back, and every run of white space behind a stop is a split |
| ParserLaws.ObligationMeans | services/intake-bridge/src/handlers/base.py:91-94 | A sentence states an obligation iff it is not empty and one of the four tokens occurs in it, whatever the case |
| ParserLaws.ObligationExact | services/intake-bridge/src/handlers/base.py:89-94 | The fallback lists exactly the stripped sentences that state an obligation |
| SpecParser.ExtractObjective | services/intake-bridge/src/handlers/base.py:62-74 | The lines of a section, else the first paragraph of prose, else the stripped title; the result is non-empty and trimmed, and there is none only for a blank title |
| SpecParser.ExtractAcceptanceCriteria | services/intake-bridge/src/handlers/base.py:76-98 | The items of a section, else the checked items of the text, else its first five obligations in order, else the default |
| SpecParser.CriteriaTotal | services/intake-bridge/src/handlers/base.py:76-98 | For every body some criterion is found and survives validation, and list items pass validation unchanged |
| SpecParser.NormalizeAcceptanceCriteria | services/intake-bridge/src/models/work_item.py:99-109 | The validator's loop, with no list read as the empty one |
| SpecParser.ValidationCanonical | services/intake-bridge/src/models/work_item.py:99-109 | Validation is idempotent and leaves a list alone iff its items are non-empty, normalised and distinct |
| SpecParser.ValidatedOrdered | services/intake-bridge/src/models/work_item.py:99-109 | Every normalised line that is not empty is kept, once and in the order of first occurrence |
| WorkItemSpec.AcceptCanonical | services/intake-bridge/src/models/work_item.py:74-109 | Validation rejects exactly blank required text and priorities out of range, and is idempotent |
| WorkItemSpec.AcceptKeeps | services/intake-bridge/src/models/work_item.py:81-118 | What an accepted item holds, field by field |
| WorkItemSpec.RenderSpecMarkdown | services/intake-bridge/src/models/work_item.py:124-151 | The lines list gives the specified Markdown |
| WorkItemSpec.RenderedLines | services/intake-bridge/src/models/work_item.py:124-151 | The printed text splits into the title's lines, the specification's lines and the rest |
| WorkItemSpec.PrintedPage | services/intake-bridge/src/models/work_item.py:124-151 | Every line of the printed page: title, objective, bullets, the eight fields, and the stripped source content |
| Prelude.DecimalReads | services/intake-bridge/src/models/work_item.py:142-142 | A printed number reads as that number |
| SpecRoundTrip.ObjectiveRoundTrip | services/intake-bridge/src/models/work_item.py:124-151 | Whatever the title, if none of its lines names an objective section, the printed objective comes back |
| SpecRoundTrip.ObjectiveRoundTripExact | services/intake-bridge/src/models/work_item.py:124-151 | For every title: the printed objective comes back iff no title line names an objective section, or what the first such line heads is that objective alone |
| SpecRoundTrip.ObjectiveUnderOneLineTitle | services/intake-bridge/src/models/work_item.py:124-151 | For one-line titles: iff the title names no objective section or the objective is the printed heading itself |
| SpecRoundTrip.SectionBullets | services/intake-bridge/src/handlers/base.py:153-171 | The criteria section read back lists the bullets up to the first heading among those after the first |
| SpecRoundTrip.CriteriaRoundTrip | services/intake-bridge/src/models/work_item.py:130-131 | When no title line names a criteria section, all printed criteria come back in order iff none after the first reads as a heading and none starts with a checkbox |
| SpecRoundTrip.SectionRoundTripExact | services/intake-bridge/src/models/work_item.py:128-131 | For every title, exactly when the criteria section read back lists the printed criteria |
| SpecRoundTrip.TitleHidesCriteria | services/intake-bridge/src/handlers/base.py:153-171 | A title that names a criteria section decides its items by its own lines, or by the objective when these are blank |
| SpecRoundTrip.LostSection | services/intake-bridge/src/models/work_item.py:124-151 | For every work item with criteria, exactly when the criteria section read back lists nothing |
| SpecRoundTrip.CriteriaRoundTripExact | services/intake-bridge/src/models/work_item.py:124-151 | For every title and every list: the criteria come back iff there are any and the section lists them or, when it lists nothing, the fallback finds them in the whole text |
| TraceSearch.GetPath | services/observability-bridge/src/linkers/langfuse.py:91-97 | The value at the path, or none as soon as a step is no mapping or lacks the key |
| TraceSearch.PathHasAddress | services/observability-bridge/src/linkers/langfuse.py:91-97 | A path that leads to a value leads to it through mappings that hold its keys in turn |
| TraceSearch.AddressHasPath | services/observability-bridge/src/linkers/langfuse.py:91-97 | Where every mapping on the way has its keys once, the value below a path's keys is what the path leads to |
| TraceSearch.WalkAddresses | services/observability-bridge/src/linkers/langfuse.py:99-106 | Each visit of the walk is a mapping of the tree, at the address listed for it |
| TraceSearch.WalkComplete | services/observability-bridge/src/linkers/langfuse.py:99-106 | Every mapping of the tree is visited |
| TraceSearch.WalkOrdered | services/observability-bridge/src/linkers/langfuse.py:99-106 | The visits are in pre-order |
| TraceSearch.WalkSearch | services/observability-bridge/src/linkers/langfuse.py:84-89 | None iff the tree holds no number under a key, else the first one in pre-order |
| TraceSearch.ExtractFirst | services/observability-bridge/src/linkers/langfuse.py:72-89 | The first path that leads to a number decides; without one, the walk does |
| TraceSearch.FirstHitUnique | services/observability-bridge/src/linkers/langfuse.py:84-89 | There is only one first hit, so the walk's answer is determined |
| TraceSearch.PathIsHit | services/observability-bridge/src/linkers/langfuse.py:72-97 | A path that ends in a recursive key and leads to a number is a hit of the walk |
| TraceSearch.FindMetric | services/observability-bridge/src/linkers/langfuse.py:72-89 | When every path ends in a recursive key the search fails iff the tree holds no hit; paths only choose among hits |
| TraceSearch.ExtractCost | services/observability-bridge/src/linkers/langfuse.py:42-55 | The cost search is complete, its paths only reprioritise, and the answer is the number found, unrounded |
| TraceSearch.ExtractTokens | services/observability-bridge/src/linkers/langfuse.py:57-70 | The token search is complete, its paths only reprioritise, and the answer is the number found, cut towards zero |

## Left out

- HTTP routing, authentication, logging, configuration, health routes, Matrix, S3, python-gitlab and Graphiti transport: each outside call is a step that succeeds with any allowed value or raises.
- The Outline, Dify and n8n publishers beyond what they return on success; Dify's `str(None)` would pass the non-empty check as the text "None".
- Webhook payloads, deployment files, scripts, prompts and the Task Center bridge.
- Keyword classifiers for kind, priority and risk: finite case splits.
- JSON and base64 codecs, UUIDs, clocks and time zones: maps, indices and an abstract day stand for them.
- Float rounding: Langfuse costs reach the table as whole micro-USD, and non-finite floats are not modelled.
- Admission.BoundedOverspend: rows are not deleted, so cascades from removed work items are not modelled.
- Admission.ConcurrencySafety: needs truthful requests for workspace and kind scopes, creation in the same step as the allowing evaluation and terminal completions; TruthNeeded, OneSlotAllowsBoth and CompletionBreaksLimit show what happens otherwise. Limits that change during a run are not modelled.
- PublishProtocol.SequentialCommitsOnce: assumes no overlap of handlers of one pair; PublishableExact says what overlap allows.
- PublishHandler.Publish: a request cancelled between two statements is not modelled; it would strand its claim like the two exceptions in StatusExact.
- Ledger.PublishedTargets: the branch target is recognised by the project column, as in the source, so any GitLab publish of a work item counts as its branch publish.
- GitlabPublisher.Project.EnsureBranch: another process that creates the branch between look-up and creation is not modelled.
- SpecRoundTrip.CriteriaRoundTripExact: when the section lists nothing, the fallback over checklists and sentences reads the whole text, source content included, and is not analysed further.
- WorkItemSpec.AcceptCanonical: enumerations, the pattern of the id, unknown fields and the type of the constraints object are checked by the model library and are not part of this model.
- Approvals.LedgerCountsRequests: a request cancelled after its INSERT, while the notification is sent, is not modelled; it would leave a row without an answer as well.
- Approvals.PendingPage: rows of equal age keep insertion order, where the query leaves the order open.
- Text.NormalizeLineCanonical: `lower()` is exact only against ASCII text, which is all the code compares it with; the three regular expressions are written as functions.
