# Houston action plans: a verified model

Houston runs recurring maintenance work. A schedule expands into executions, one
for each date and, in individual chronology, one for each owner; people and the
clock move an execution from scheduled to in progress, pending validation and done,
or cancel it; a journal records every move; lists page through it all. This project
models that engine and five protocols beside it in Dafny 4.11 and proves what it
keeps over whole runs. `dafny verify dfyconfig.toml` checks everything.

How the files divide the work:

- `core.dfy`, `sql.dfy`: shared values; SQL's three-valued conditions and sort keys.
- `journal.dfy`, `journal_ties.dfy`, `lifecycle.dfy`, `lifecycle_theorems.dfy`: one
  execution with its append-only journal, every transition on it, the two readers that
  rebuild past status and deadline, and what every run keeps.
- `journal_parts.dfy`, `journal_cutover.dfy`, `cutover_readers.dfy`, `cutover_reruns.dfy`:
  the cutover that starts the journal of older executions, and what is read after it.
- `schedules.dfy`, `execution_store.dfy`, `execution_runs.dfy`: recurrence dates, the
  synchronisation of executions with a changed schedule, the table with the services
  that write it, and runs of those services.
- `materialization.dfy`, `materialization_passes.dfy`, `materialization_store.dfy`:
  one execution per slot, created, repaired or brought back; passes over many slots;
  the table with its unique constraints.
- `feed_cursor.dfy`, `pagination.dfy`, `feed_pages.dfy`, `history_pages.dfy`: the
  feed's sort keys and its hand-written condition, and what following cursors yields.
- `repair_graphs.dfy`, `repair_merge.dfy`, `leaf_deletion.dfy`, `repair_run.dfy`: the
  repair of marked-done snapshots. `template_deletion.dfy`: deleting a reusable plan.
- `execution_update.dfy`: editing an execution in progress.
- `play_store.dfy`, `refresh_tokens.dfy`, `refresh_runs.dfy`, `planning_hash.dfy`,
  `planning_submission.dfy`, `planning_outbox.dfy`: the concurrent protocols.
- `journal_laws.dfy`, `lifecycle_laws.dfy`, `materialization_laws.dfy`, `feed_laws.dfy`,
  `update_laws.dfy`, `play_laws.dfy`, `refresh_laws.dfy`, `hash_laws.dfy`,
  `submission_laws.dfy`, `outbox_laws.dfy`: what each operation does and when it is
  refused, said of the stored fields alone.

Reading the model:

- A table is a map from keys to rows, held in a field of a class whose methods rewrite
  it. A method's contract gives the whole new table as a function of the old one, and
  the lemmas are about that function: the laws say field by field what it writes, without
  naming its parts, and the theorems what runs of it keep. A transaction is atomic; an error raised inside
  one discards its writes, so a failing method leaves the fields as it found them.
- Clocks, generated identifiers and keys, permissions and the provider's answers are
  parameters. There is one clock that never goes back: transactions on a row commit in
  the order of their instants and may share one. A service that reads the clock several
  times has several instants.
- The conversion of a civil date and a wall-clock time to an instant is an arbitrary
  function in which an occurrence ends after it starts.
- Concurrent protocols are state machines whose steps are the committed transactions;
  a theorem about runs holds of every interleaving of those steps.

Six promises are false of the code as it stands. Each comes with a run that breaks it
and with the condition under which it holds:

- Both journal readers sort events by instant and type, so they can misread transactions
  that share an instant (`LifecycleTheorems.StatusReaderIsRightExactly`,
  `EndReaderIsRightExactly`, `TiedStatusIsMisread`, `TiedDeadlineMayBeMisread`).
- The journal's deadline reader takes a cleared deadline for the one recorded at the
  opening (`LifecycleTheorems.EndReaderIsExactUnlessCleared`, `ClearedDeadlineIsMisread`).
- A rerun of the cutover gives every execution created since the first one a baseline from
  before its creation, so it is read too early and with a later status
  (`CutoverReruns.BackdatedIsRightExactly`, `BackdatedIsReadTooEarly`, `RerunIsMisread`).
- A store-access submission that skips the send reads its record again without checking
  which key it carries, so an address change in between makes it return an unaccepted
  record (`PlayStore.ReturnAfterSkip`, `SkipCanReturnUnaccepted`).
- A processed outbox entry can be taken out of that state once some worker has outlived its
  lease (`PlanningOutbox.WhatLeavesProcessed`, `ProcessedIsFinal`, `LateFailureUndoesSuccess`,
  `LiveWorkerUndoesLateSuccess`).
- An outbox entry can pass its eight attempts, by takeovers of expired leases
  (`PlanningOutbox.WhatPassesTheLimit`, `ClaimsAreLimited`, `AbandonedIsReclaimed`).

## Model

| member | source | states |
|---|---|---|
| `Journal.SanitizeMetadata` | apps/api/houston/action_plans/lifecycle_events.py:23-44 | what is stored of a metadata dictionary: the allowlisted keys whose value is structured, a null only where the key allows it |
| `Journal.TransitionSurvives` | apps/api/houston/action_plans/lifecycle_events.py:71-80 | the target status and the deadline of a transition survive the sanitizing, a null deadline included |
| `Journal.ExecutionStatusAt` | apps/api/houston/analytics/journal.py:217-255 | the reader of a past status, branch by branch, as a function of the fetched events |
| `Journal.ExecutionEndAtAt` | apps/api/houston/analytics/journal.py:258-305 | the reader of a past deadline, branch by branch, as a function of the fetched events; an opening or terminal event without the deadline key is skipped |
| `Journal.StatusReaderIsLastStatus` | apps/api/houston/analytics/journal.py:217-255 | where events that share an instant agree, the status read is that of the last status event before the instant, in whatever order the rows are fetched |
| `Journal.EndReaderIsLastEnds` | apps/api/houston/analytics/journal.py:258-305 | where events that share an instant agree, the deadline read depends only on the events before the instant, not on the order they are fetched in |
| `JournalTies.StatusReadsExactly` | apps/api/houston/analytics/journal.py:217-255 | the status read is the same in every order the rows can be fetched in exactly when every choice among events tied in instant and type tells that status |
| `JournalTies.EndReadsExactly` | apps/api/houston/analytics/journal.py:258-305 | the same for the deadline read |
| `JournalTies.StatusReadsByGreatest` | apps/api/houston/analytics/journal.py:217-255 | the condition on the status, on events alone: every status event of the greatest instant and type before the instant tells it, or the opening event when nothing moved since |
| `JournalTies.PastDecides` | apps/api/houston/analytics/journal.py:217-305 | events at or after the instant have no say in either reading |
| `JournalLaws.StatusOfExactly` | apps/api/houston/analytics/journal.py:200-214 | the status an event tells: its target, else its initial status, else what its type means, else the fallback |
| `JournalLaws.OpenedReadsExactly` | apps/api/houston/analytics/journal.py:217-255 | over any events, sorted: the status of the last move between the opening event and the instant, else the one it opened with, and none at the very instant of a creation |
| `JournalLaws.NothingReadExactly` | apps/api/houston/analytics/journal.py:217-305 | nothing is read before the journal is reliable, and no status without an opening event by then |
| `JournalLaws.DeadlineEventsExactly` | apps/api/houston/action_plans/lifecycle_events.py:83-102 | a moved deadline is recorded with both its ends, one that stays is not |
| `JournalLaws.SanitizedExactly` | apps/api/houston/action_plans/lifecycle_events.py:23-44 | which keys of a metadata dictionary are stored, with which values |
| `JournalLaws.EndOfExactly` | apps/api/houston/analytics/journal.py:258-305 | the deadline an event tells: the target of a change, the stored deadline of any other |
| `JournalLaws.TellingExactly` | apps/api/houston/analytics/journal.py:258-305 | which events have no say in the deadline |
| `JournalLaws.KindsExactly` | apps/api/houston/analytics/journal.py:217-305 | which events each reader selects, by type |
| `LifecycleTheorems.ApplyKeepsInv` | apps/api/houston/action_plans/services.py:1921-2250 | every transition, wherever it is written, keeps the row facts, the journal replaying to the row, legal histories, and stored terminal instants equal to journaled ones |
| `LifecycleTheorems.NewExecutionInv` | apps/api/houston/action_plans/services.py:1165-1263 | a created execution starts with all of that true, and its opening event records its deadline |
| `LifecycleTheorems.RunKeepsInv` | apps/api/houston/action_plans/services.py:1165-1263 | in every run under one clock that never goes back, ties included, the journal replays to exactly the stored status and deadline, successive statuses are legal, and the row facts hold |
| `LifecycleTheorems.RunAgrees` | apps/api/houston/action_plans/lifecycle_events.py:47-102 | in a run whose transactions do not share instants, events that share one tell the same status and deadline |
| `LifecycleTheorems.StatusReaderIsExact` | apps/api/houston/analytics/journal.py:217-255 | in every run whose events agree where they share an instant, at any instant after the opening, the reader gives the status the row really had, for any fetch order |
| `LifecycleTheorems.StatusReaderIsRightExactly` | apps/api/houston/analytics/journal.py:217-255 | in every run, ties included, the reader gives the status the row really had, however the rows are fetched, exactly when in the journal it had then every choice among tied events tells it, which is that every status event of the greatest instant and type does |
| `LifecycleTheorems.EndReaderIsRightExactly` | apps/api/houston/analytics/journal.py:258-305 | the same for the deadline |
| `LifecycleTheorems.TiedStatusIsMisread` | apps/api/houston/analytics/journal.py:217-255 | a concrete run with two transactions in one instant whose status is misread in every fetch order |
| `LifecycleTheorems.TiedDeadlineMayBeMisread` | apps/api/houston/analytics/journal.py:258-305 | a concrete run with two deadline changes in one instant, misread in some fetch order |
| `LifecycleTheorems.BaselineBegins` | apps/api/houston/analytics/cutover.py:125-152 | from its baseline on, the journal of an execution older than the journal is complete, whatever its status; it begins a run like any other exactly when it is not finished |
| `JournalCutover.CutoverIsIdempotent` | apps/api/houston/analytics/cutover.py:45-57 | cut over once, an execution is not changed by another cutover, whatever transitions came in between |
| `CutoverReaders.CutoverStatusIsRightExactly` | apps/api/houston/analytics/cutover.py:125-152 | for any execution older than the journal, finished or not, with older events or without, the status read after the cutover is the real one in every fetch order exactly when the greatest events since the cutover tell it |
| `CutoverReaders.CutoverEndIsRightExactly` | apps/api/houston/analytics/cutover.py:237-378 | the same for the deadline, where what was recorded before the cutover tells the deadline the execution had |
| `CutoverReruns.CutoverKeepsStatusReadings` | apps/api/houston/analytics/cutover.py:125-152 | for an execution with a journal since its creation, a cutover not dated before that creation changes no reading of the status |
| `CutoverReruns.CutoverEndIsExactUnlessCleared` | apps/api/houston/analytics/cutover.py:125-152 | for such an execution the deadline read after the cutover is right exactly when it has one or the last opening event, baseline included, recorded none |
| `CutoverReruns.BackdatedIsRightExactly` | apps/api/houston/analytics/cutover.py:45-57 | an execution created after the first cutover gets from a rerun a baseline dated before its creation; the status read is then right exactly when a change of status precedes the instant or the status is that of the rerun |
| `CutoverReruns.BackdatedIsReadTooEarly` | apps/api/houston/analytics/cutover.py:45-57 | it is also read as existing, with that status, before it was created |
| `CutoverReruns.RerunIsMisread` | apps/api/houston/analytics/cutover.py:45-57 | a concrete run misread in every fetch order after a rerun |
| `LifecycleTheorems.EndReaderIsExactUnlessCleared` | apps/api/houston/analytics/journal.py:258-305 | in every run whose events agree where they share an instant, the deadline reader is right exactly when the row had a deadline or its opening event recorded none; otherwise it gives the opening deadline |
| `LifecycleTheorems.ClearedDeadlineIsMisread` | apps/api/houston/analytics/journal.py:258-305 | a concrete run on which clearing the deadline is read back as the opening deadline |
| `LifecycleTheorems.TerminalInstantAgrees` | apps/api/houston/action_plans/execution_history.py:116-205 | in every run, ties included, exactly finished rows have a terminal instant, it comes from the stored field, and the journal fallback would give the same |
| `LifecycleTheorems.FinishedIsFinal` | apps/api/houston/action_plans/services.py:1921-2250 | a done or manually canceled execution is never changed again by any sequence of transitions |
| `LifecycleTheorems.SyncCanceledNeverBegan` | apps/api/houston/action_plans/schedule_services.py:179-351 | an execution canceled by its schedule was never started, marked done or validated |
| `Schedules.IterOccurrenceDates` | apps/api/houston/action_plans/materialization.py:79-100 | the loop over days returns the matching dates of the clipped interval, or the error for an empty recurrence |
| `Schedules.OccurrenceDatesExact` | apps/api/houston/action_plans/materialization.py:79-100 | those dates are complete, sound and strictly increasing |
| `Schedules.SyncKeepsInv` | apps/api/houston/action_plans/schedule_services.py:699-758 | a synchronisation is made of lifecycle transitions and keeps the whole lifecycle invariant |
| `Schedules.ClassifyExactly` | apps/api/houston/action_plans/schedule_services.py:137-159 | ahead is only what is scheduled and starts later; what should have started by now is protected like what has |
| `Schedules.SyncExtendsRun` | apps/api/houston/action_plans/schedule_services.py:699-758 | a run followed by a synchronisation is a run, so what is proved of runs and of the readers holds of synchronised rows |
| `Schedules.SyncAgrees` | apps/api/houston/action_plans/schedule_services.py:699-758 | the events a synchronisation writes agree wherever they share an instant, among themselves and with what was recorded before it |
| `Schedules.SyncPreservesStarted` | apps/api/houston/action_plans/schedule_services.py:699-758 | started, pending, done and manually canceled executions are untouched; a due one is only promoted inside its window |
| `Schedules.SyncLeavesScheduledRight` | apps/api/houston/action_plans/schedule_services.py:699-758 | what is still scheduled is on a valid date, currently owned, in the computed window and ahead |
| `Schedules.SyncCancelsExactly` | apps/api/houston/action_plans/schedule_services.py:699-758 | an execution is canceled exactly when it is ahead and lost its date or owner, and keeps its window |
| `Schedules.SyncReactivatesExactly` | apps/api/houston/action_plans/schedule_services.py:246-267 | a canceled execution comes back exactly when its schedule canceled it and covers it again before its start |
| `Schedules.NarrowThenRestore` | apps/api/houston/action_plans/schedule_services.py:246-351 | narrowing and restoring a schedule in time returns what it canceled to scheduled with the same window |
| `Schedules.DeactivationLeavesNothingScheduled` | apps/api/houston/action_plans/schedule_services.py:868-901 | deactivation promotes what is due, cancels what is ahead, and changes nothing else |
| `ExecutionStore.Store.Create` | apps/api/houston/action_plans/services.py:1165-1263 | refused exactly for a draft without owner, with its end not after its start or open all day; otherwise a new row with every field and event of its draft |
| `ExecutionStore.Store.MarkDone` | apps/api/houston/action_plans/services.py:1920-2024 | the checks in order; the row is marked at its instant, done or pending validation, with its event, and every other row as it was |
| `ExecutionStore.Store.Validate` | apps/api/houston/action_plans/services.py:2027-2116 | the checks in order; a validation leaves the row done, validated at its instant, with one Validated event, and every other row as it was |
| `ExecutionStore.Store.Reopen` | apps/api/houston/action_plans/services.py:2119-2197 | the checks in order; the row is in progress again with its marks cleared and its event, and every other row as it was |
| `ExecutionStore.Store.Cancel` | apps/api/houston/action_plans/services.py:2200-2274 | the checks in order; the row is canceled by the actor at its instant with its event, and every other row as it was |
| `ExecutionStore.Store.CancelForResolvedSignal` | apps/api/houston/action_plans/services.py:246-307 | exactly the linked unfinished executions are canceled, without an actor |
| `ExecutionStore.Store.PromoteOne` | apps/api/houston/action_plans/lifecycle_promotion.py:67-137 | a row is promoted exactly when it is due on re-reading |
| `ExecutionStore.Store.PromoteDueForSchedule` | apps/api/houston/action_plans/lifecycle_promotion.py:164-175 | every due execution of the schedule is promoted, no other row changes, and the count is theirs |
| `ExecutionStore.Store.ReconcileOne` | apps/api/houston/action_plans/schedule_services.py:699-758 | the branch taken for one row, as the value-level reconciliation |
| `ExecutionStore.Store.SyncAfterUpdate` | apps/api/houston/action_plans/schedule_services.py:699-758 | every linked row becomes its synchronised value and every other row stays |
| `ExecutionStore.Store.Deactivate` | apps/api/houston/action_plans/schedule_services.py:868-901 | refused exactly when something of the schedule has started, naming one that started first; otherwise every linked row becomes its deactivated value |
| `ExecutionStore.StartedExactly` | apps/api/houston/action_plans/schedule_services.py:162-176 | what stops a deactivation: an unfinished execution of the schedule whose start has come, promoted or not |
| `LifecycleLaws.PromotionTable` | apps/api/houston/action_plans/lifecycle_promotion.py:67-137 | started at the instant exactly when scheduled and due; the rest of the row stays, and one Started event tells where it stands |
| `LifecycleLaws.MarkingTable` | apps/api/houston/action_plans/services.py:1920-2024 | from in progress only: done, or pending validation where the row requires it, marked at the instant, with one MarkedDone event carrying its start |
| `LifecycleLaws.ValidationTable` | apps/api/houston/action_plans/services.py:2027-2116 | from pending validation only: done, validated at the instant, the activity not before it, one Validated event, nothing else |
| `LifecycleLaws.ReopeningTable` | apps/api/houston/action_plans/services.py:2119-2197 | from pending validation only: in progress with every mark of completion cleared, reopened at the instant, one Reopened event |
| `LifecycleLaws.CancellationTable` | apps/api/houston/action_plans/services.py:2200-2274 | who may cancel what: canceled at the instant, by the actor or by nobody, with its origin stored and journaled |
| `LifecycleLaws.ReactivationTable` | apps/api/houston/action_plans/schedule_services.py:270-351 | only what its schedule canceled: in the window given, scheduled and unstarted or in progress by its start, the cancellation cleared |
| `LifecycleLaws.WindowTable` | apps/api/houston/action_plans/schedule_services.py:370-410 | only what is scheduled and ahead: the window given, an event and an activity exactly when the deadline moved |
| `LifecycleLaws.EditTable` | apps/api/houston/action_plans/execution_update.py:144-329 | accepted exactly in progress with a sensible window; the named fields and no others, with the activity and the event of a moved deadline |
| `LifecycleLaws.CreationTable` | apps/api/houston/action_plans/services.py:1165-1263 | which drafts are accepted, and every field and event of the new row |
| `LifecycleLaws.ActionTable` | apps/api/houston/action_plans/services.py:1921-2250 | every action does its work on exactly the rows it may, and leaves the others alone |
| `ExecutionRuns.Perform` | apps/api/houston/action_plans/schedule_services.py:699-901 | each service of the store leaves the table as it was or leaves every row as a run of lifecycle transactions would |
| `ExecutionRuns.ServiceKeepsTraces` | apps/api/houston/action_plans/schedule_services.py:699-901 | a service keeps every row of the table the row of some run from its creation |
| `ExecutionRuns.TablesKeepInv` | apps/api/houston/action_plans/services.py:1165-1263 | in every run of services every row of every table keeps the lifecycle invariant and is the row of a run of its own |
| `FeedCursor.CursorKeysAreSqlKeys` | apps/api/houston/action_plans/feed_cursor.py:79-185 | rank and deadline bucket computed for the cursor equal the SQL cases |
| `FeedCursor.AfterCursorFilter` | apps/api/houston/action_plans/feed_cursor.py:425-464 | the condition accumulated column by column |
| `FeedCursor.AfterCursorIsAfter` | apps/api/houston/action_plans/feed_cursor.py:425-464 | the condition written from one row is true of another exactly when that one comes strictly after, for all rows and instants, under three-valued logic |
| `FeedCursor.DecidingKeyDecides` | apps/api/houston/action_plans/feed_cursor.py:122-198 | two different rows are ordered by the eight sort columns exactly as by the keys a cursor remembers, and always in one of the two directions |
| `Pagination.NeverServedTwice` | apps/api/houston/action_plans/execution_feed.py:114-228 | over tables that change between requests, following the cursors serves no sort key twice |
| `Pagination.ServedSomewhere` | apps/api/houston/action_plans/execution_feed.py:114-228 | a row listed at every request with an unchanged key is served by a finished traversal |
| `Pagination.FollowingCursorsYieldsAll` | apps/api/houston/action_plans/execution_feed.py:114-228 | over an unchanged table the pages concatenate to the whole ordered list |
| `FeedPages.RetainedIsRecentTerminal` | apps/api/houston/action_plans/selectors.py:634-671 | a reachable row is retained exactly when it started, finished inside its retention window and was visible by its terminal instant |
| `FeedPages.SectionsPartitionFeed` | apps/api/houston/action_plans/selectors.py:903-947 | every feed row is in exactly one section, so the counts add up to the feed |
| `FeedPages.ReadsTraverses` | apps/api/houston/action_plans/execution_feed.py:114-228 | reading page after page by cursor is a keyset traversal at one frozen instant |
| `FeedPages.FeedNeverRepeats` | apps/api/houston/action_plans/execution_feed.py:114-228 | no row is served twice with the same sort keys, whatever changes in between |
| `FeedPages.FeedMissesNothing` | apps/api/houston/action_plans/execution_feed.py:114-228 | a row that stays eligible with unchanged keys is on some page |
| `FeedPages.FeedYieldsWholeList` | apps/api/houston/action_plans/execution_feed.py:114-228 | over unchanged rows the pages are the whole ordered category list, once, in order |
| `FeedLaws.FeedShowsExactly` | apps/api/houston/action_plans/selectors.py:634-689 | for every row, whatever is null in it: active ones from the instant they are visible, done ones for ten days and canceled ones for two after the end they were started and visible by, scheduled ones never |
| `FeedLaws.CategoriesExactly` | apps/api/houston/action_plans/selectors.py:838-860 | the categories by status and deadline |
| `FeedLaws.CountsExactly` | apps/api/houston/action_plans/selectors.py:903-947 | a section count is the number of rows shown in its category, pinned ones included |
| `FeedLaws.CursorOrderExactly` | apps/api/houston/action_plans/feed_cursor.py:141-198 | the deciding keys order rows by section, then waiting ones by the instant they were marked done, the others by deadline and then by latest activity |
| `FeedLaws.FeedOrderExactly` | apps/api/houston/action_plans/feed_cursor.py:141-198 | so does the sort of the query, for any two different rows |
| `FeedLaws.CursorPassesExactly` | apps/api/houston/action_plans/feed_cursor.py:254-464 | a cursor lets through exactly the rows that come after its row by those fields |
| `FeedLaws.ReaderReceivesExactly` | apps/api/houston/action_plans/execution_feed.py:114-228 | over steady rows the pages hold every unpinned row that is shown and in the category by its fields, nothing else, each once, in that order |
| `FeedLaws.ListedRowIsServed` | apps/api/houston/action_plans/execution_feed.py:114-228 | a row that is listed at every request and keeps its place is on some page, whatever else changes |
| `FeedLaws.PagesAreWellCut` | apps/api/houston/action_plans/execution_feed.py:114-228 | every page but the last is full and says that there are more, and all carry one frozen instant |
| `HistoryPages.HistoryCursorIsAfter` | apps/api/houston/action_plans/history_cursor.py:116-130 | inside one list the cursor filter is the order, undated rows last included |
| `HistoryPages.HistoryYieldsWholeList` | apps/api/houston/action_plans/execution_history.py:236-304 | over unchanged rows the history pages are the whole list, once |
| `HistoryPages.HistoryMissesNothing` | apps/api/houston/action_plans/execution_history.py:236-304 | a row that stays in the history with one terminal instant is on some page, whatever else of it changes |
| `HistoryPages.HistoryNeverRepeats` | apps/api/houston/action_plans/execution_history.py:236-304 | no row is on two pages while its terminal instant stays the same |
| `HistoryPages.TerminalAtExactly` | apps/api/houston/action_plans/execution_history.py:116-152 | the terminal instant is the stored one, or else that of the latest event of the kind that finishes the row |
| `HistoryPages.DateSourceExactly` | apps/api/houston/action_plans/execution_history.py:195-205 | where the instant comes from: unknown exactly without one, a stored field when one decides |
| `HistoryPages.ReaderReceivesExactly` | apps/api/houston/action_plans/execution_history.py:236-304 | over unchanged rows the pages hold exactly the rows that ended inside the window, each once, the last to end first |
| `Materialization.MergeTaskAssignees` | apps/api/houston/action_plans/services.py:838-865 | the loop that appends the members of the plan's tasks computes the merged list |
| `Materialization.MergedAssignsEveryTask` | apps/api/houston/action_plans/services.py:838-865 | the merged list extends the given one, names no member twice, covers every assigned task, and adds only members and units of tasks |
| `Materialization.RepairIsSettling` | apps/api/houston/action_plans/materialization.py:214-983 | a repair leaves nothing to repair, and does nothing exactly when the calendar says the row needs nothing |
| `Materialization.ShortcutAgrees` | apps/api/houston/action_plans/materialization.py:370-543 | skipping the lookup ends in the same row as the full path, whatever has appeared in the slot |
| `Materialization.SettledIsUnchanged` | apps/api/houston/action_plans/materialization.py:986-1050 | a row that is not canceled is settled exactly when full materialization would leave execution, teams, assignees and tasks as they are |
| `Materialization.SettledNeverChanges` | apps/api/houston/action_plans/materialization.py:986-1050 | a settled row is unchanged by materialization even when validation fails |
| `Materialization.FullIsIdempotent` | apps/api/houston/action_plans/materialization.py:370-543 | materializing a slot again later changes nothing |
| `Materialization.MaterializationIsLifecycle` | apps/api/houston/action_plans/materialization.py:269-343 | an existing execution changes only by the lifecycle's reactivation, exactly when its schedule may bring it back |
| `MaterializationLaws.AssigneesTable` | apps/api/houston/action_plans/materialization.py:137-543 | assignees are resolved exactly when the schedule is on and recurs, the plan is offered and everyone it names may be assigned; they are those named and those the tasks bring |
| `MaterializationLaws.MergedExactly` | apps/api/houston/action_plans/services.py:838-865 | who is in the merged list, and in which unit |
| `MaterializationLaws.CreationLaw` | apps/api/houston/action_plans/materialization.py:370-543 | when a free slot is filled, and every field of what fills it: schedule, date, owner, validation, start and end by the clock, visibility an hour ahead, the tasks of the plan, and a team for the pilot and each unit |
| `MaterializationStore.FreeSlotGets` | apps/api/houston/action_plans/materialization.py:370-543 | so what the table holds in a free slot after materializing it is such an execution |
| `MaterializationLaws.FillingLaw` | apps/api/houston/action_plans/materialization.py:214-266 | only missing child rows are added, and the error is that one of them lacks its team |
| `MaterializationLaws.ExistingLaw` | apps/api/houston/action_plans/materialization.py:269-343 | in an occupied slot what is missing is added, and the execution comes back in the window of its date exactly when its schedule canceled it, covers it, and it has not started |
| `MaterializationLaws.ExistingExactly` | apps/api/houston/action_plans/materialization.py:370-543 | exactly when materializing an occupied slot succeeds |
| `MaterializationLaws.SlotExactly` | apps/api/houston/action_plans/materialization.py:181-207 | the slot an execution holds: its schedule, its date and, in individual chronology, its owner |
| `MaterializationLaws.WeekdaysFollow` | apps/api/houston/action_plans/materialization.py:79-100 | the weekday of a date, by which it recurs |
| `MaterializationPasses.FastRefinesSlow` | apps/api/houston/action_plans/materialization.py:1053-1176 | deciding everything from one early reading ends in the same table as full materialization of every occurrence |
| `MaterializationPasses.SecondPassChangesNothing` | apps/api/houston/action_plans/materialization.py:590-632 | a second full pass, later, leaves the table of the first |
| `MaterializationPasses.SecondWindowChangesNothing` | apps/api/houston/action_plans/materialization.py:1053-1176 | a second calendar read, from its own reading, leaves the table of the first |
| `MaterializationPasses.NothingRevived` | apps/api/houston/action_plans/materialization.py:269-297 | no pass, erring or not, changes an execution that its schedule had not canceled, and none removes a row |
| `MaterializationPasses.WindowVisitsExact` | apps/api/houston/action_plans/materialization.py:1053-1176 | a window pass visits each slot of each matching date of its schedules exactly once |
| `MaterializationPasses.HorizonCovers` | apps/api/houston/action_plans/materialization.py:590-632 | a completed horizon pass covers every matching date for every owner |
| `MaterializationPasses.WhosExactly` | apps/api/houston/action_plans/materialization.py:546-587 | one execution of a date for everyone, or one for each assignee in order |
| `MaterializationPasses.VisibleExactly` | apps/api/houston/action_plans/materialization.py:346-367 | a date shows an hour before its start, when it has anybody to show |
| `MaterializationPasses.VisitedExactly` | apps/api/houston/action_plans/materialization.py:1053-1176 | a visit fills its own slot and no other; a validation error takes its schedule out of the pass, any other error ends it |
| `MaterializationStore.Table.EnsureStructure` | apps/api/houston/action_plans/materialization.py:214-266 | the child rows added in place, or the failed team lookup with nothing added |
| `MaterializationStore.Table.ResolveAssignees` | apps/api/houston/action_plans/materialization.py:388-456 | the assignees of one execution, or the validation error |
| `MaterializationStore.Table.Materialize` | apps/api/houston/action_plans/materialization.py:370-543 | one materialization writes exactly one slot as specified, keeps the unique constraints and loses no row |
| `MaterializationStore.Table.InsertOrRepair` | apps/api/houston/action_plans/materialization.py:469-519 | the insert, and the repair that answers a collision with the unique constraint |
| `MaterializationStore.Table.MaterializeWindow` | apps/api/houston/action_plans/materialization.py:1053-1176 | the nested loops over schedules, dates and owners compute the fast pass from the table they started with; a completed pass returns the slots of the dates it handled, without the dates its reading calls settled and those an error cut short |
| `MaterializationStore.CleanCounts` | apps/api/houston/action_plans/materialization.py:1053-1176 | without errors that count is of exactly the slots on dates the reading did not call settled |
| `MaterializationStore.Table.MaterializeHorizon` | apps/api/houston/action_plans/materialization.py:590-632 | the loops compute the full pass; when it completes, exactly one row holds each slot of each date it covers and the count returned is of all of them |
| `RepairGraphs.QuietRoundIsClosed` | apps/api/houston/action_plans/repair_marked_done_snapshots.py:204-295 | a round that changes none of the five counted sizes has closed the graph, although tasks are not counted |
| `RepairGraphs.RoundIsForced` | apps/api/houston/action_plans/repair_marked_done_snapshots.py:204-295 | a round adds only rows that every closed graph around the start has to hold |
| `RepairGraphs.LeastIsUnique` | apps/api/houston/action_plans/repair_marked_done_snapshots.py:204-295 | there is one least closed graph |
| `RepairMerge.GraphIds.Grow` | apps/api/houston/action_plans/repair_marked_done_snapshots.py:204-295 | one round of queries, each seeing what the ones before it added |
| `RepairMerge.ExpandFromExecutions` | apps/api/houston/action_plans/repair_marked_done_snapshots.py:204-295 | the loop stops with the least graph that holds the seeds and is closed under the links |
| `RepairMerge.MergedIsComponents` | apps/api/houston/action_plans/repair_marked_done_snapshots.py:298-325 | the merged graphs do not overlap, hold exactly the rows of the inputs, and two inputs share one exactly when a chain of overlaps links them |
| `RepairMerge.MergedKeepsRows` | apps/api/houston/action_plans/repair_marked_done_snapshots.py:298-325 | merging loses and adds no row |
| `RepairMerge.AttachEach` | apps/api/houston/action_plans/repair_marked_done_snapshots.py:298-325 | one pass over the list, merging in place |
| `RepairMerge.MergeGraphs` | apps/api/houston/action_plans/repair_marked_done_snapshots.py:298-325 | the passes repeated until nothing attaches |
| `LeafDeletion.LeaflessHasCycle` | apps/api/houston/action_plans/repair_marked_done_snapshots.py:547-561 | a nonempty set in which everything is pointed at contains a cycle |
| `LeafDeletion.Table.DeleteComments` | apps/api/houston/action_plans/repair_marked_done_snapshots.py:547-561 | deletion in batches succeeds exactly when no cycle and no outside reply exists, and then removes exactly the given comments |
| `LeafDeletion.Table.DeleteTransactions` | apps/api/houston/action_plans/repair_marked_done_snapshots.py:564-585 | the same for point transactions with one level of their reversals |
| `LeafDeletion.Table.DeleteCommentTree` | apps/api/houston/action_plans/template_deletion_services.py:73-91 | the same for the comments of one execution, where a reply from anywhere makes a comment wait |
| `RepairRun.NothingUnclassifiableLeft` | apps/api/houston/action_plans/repair_marked_done_snapshots.py:660-735 | after a repair no marked-done event is left unclassifiable |
| `RepairRun.SecondRepairIsIdle` | apps/api/houston/action_plans/repair_marked_done_snapshots.py:660-735 | a second repair has nothing to fill and nothing to delete |
| `RepairRun.DryRunPredicts` | apps/api/houston/action_plans/repair_marked_done_snapshots.py:164-735 | the population projected by a dry run is the one found after applying, at the same instant |
| `RepairRun.NothingDangles` | apps/api/houston/action_plans/repair_marked_done_snapshots.py:588-735 | nothing that is kept points at a plan, signal, schedule, execution, task or observation that is deleted |
| `RepairRun.TogetherIsLeast` | apps/api/houston/action_plans/repair_marked_done_snapshots.py:660-735 | expanding each execution alone and merging dooms exactly what expanding them together would |
| `RepairRun.Repair.DashboardPopulation` | apps/api/houston/action_plans/repair_marked_done_snapshots.py:164-201 | the counting loops compute the three counts |
| `RepairRun.Repair.Sort` | apps/api/houston/action_plans/repair_marked_done_snapshots.py:660-735 | the fills and the unrecoverable executions |
| `RepairRun.DoomedGraph` | apps/api/houston/action_plans/repair_marked_done_snapshots.py:660-735 | the graphs expanded, merged and collected are the least closed graph around the unrecoverable executions |
| `RepairRun.Repair.Run` | apps/api/houston/action_plans/repair_marked_done_snapshots.py:660-735 | a dry run writes nothing; an applied one succeeds exactly when comments and transactions can go, and then leaves exactly the repaired database |
| `RepairRun.CommentsGo` | apps/api/houston/action_plans/repair_marked_done_snapshots.py:475-483 | a comment goes exactly when its signal or its execution is in the doomed graph |
| `RepairRun.PointsGo` | apps/api/houston/action_plans/repair_marked_done_snapshots.py:484-536 | a point transaction goes exactly when it is within two reversals of one earned for a doomed execution, a doomed signal or its resolution |
| `RepairRun.RepairLeaves` | apps/api/houston/action_plans/repair_marked_done_snapshots.py:588-657 | which rows of every table are left, unchanged, and which events take the window of their execution |
| `RepairRun.PopulationExactly` | apps/api/houston/action_plans/repair_marked_done_snapshots.py:164-201 | the three counts by the stored windows and statuses |
| `TemplateDeletion.Catalog.HardDelete` | apps/api/houston/action_plans/template_deletion_services.py:94-136 | the checks in order; the execution goes with exactly its comments |
| `TemplateDeletion.Catalog.Detach` | apps/api/houston/action_plans/template_deletion_services.py:139-169 | only an execution that is not scheduled is cut loose |
| `TemplateDeletion.Catalog.StopMaterialization` | apps/api/houston/action_plans/template_deletion_services.py:172-204 | the plan's schedules are switched off and nothing else |
| `TemplateDeletion.Catalog.DeleteReusablePlan` | apps/api/houston/action_plans/template_deletion_services.py:242-293 | succeeds exactly when no scheduled execution of the plan is observed or has undeletable comments; on failure nothing changes; on success exactly those executions and the comments on them are gone, the other executions of the plan keep every field but their links, and everything of other plans is as it was |
| `TemplateDeletion.DeletionIsExact` | apps/api/houston/action_plans/template_deletion_services.py:242-293 | exactly the scheduled executions of the plan go; each other keeps status and journal and, if the plan's, links to none of it |
| `TemplateDeletion.LinkedExactly` | apps/api/houston/action_plans/template_deletion_services.py:242-293 | what keeps a plan from being deleted: an execution of it or of one of its schedules |
| `TemplateDeletion.UnlinkedExactly` | apps/api/houston/action_plans/template_deletion_services.py:242-293 | with the tasks of a plan go the links to them and nothing else of a row |
| `PlayStore.Requests.Prepare` | apps/api/houston/accounts/play_store_access.py:147-191 | the record and the frozen send, in every branch |
| `PlayLaws.PrepareTable` | apps/api/houston/accounts/play_store_access.py:147-306 | which record is left: the same one, or a renewed one with a mail to the operator about the address asked for that says whether it asks, corrects or repeats |
| `PlayLaws.ReadbackTable` | apps/api/houston/accounts/play_store_access.py:94-121 | exactly when a submission returns its record, and which error it raises |
| `PlayLaws.PreparedTable` | apps/api/houston/accounts/play_store_access.py:147-319 | a submission remembers the record it left and skips the send exactly for an accepted address |
| `PlayLaws.DeliverTable` | apps/api/houston/accounts/play_store_access.py:78-121 | a delivery sends the frozen mail under its key, and only a confirmed one goes on |
| `PlayLaws.MarkTable` | apps/api/houston/accounts/play_store_access.py:110-114 | marking writes the acceptance into the record that still carries the sent key and nowhere else |
| `PlayLaws.RecordsAreAddressed` | apps/api/houston/accounts/play_store_access.py:194-261 | in every interleaving each stored mail is about the address of its record |
| `PlayLaws.SentForItsAddress` | apps/api/houston/accounts/play_store_access.py:78-121 | in every interleaving what a submission sends is about the address it asked for |
| `PlayLaws.MailsAreAsked` | apps/api/houston/accounts/play_store_access.py:78-121 | and no other mail is ever sent |
| `PlayStore.Requests.MarkAccepted` | apps/api/houston/accounts/play_store_access.py:110-114 | compare and set on the sent key |
| `PlayStore.Requests.ReadBack` | apps/api/houston/accounts/play_store_access.py:94-121 | what a submission returns or raises |
| `PlayStore.OneMailPerKey` | apps/api/houston/accounts/play_store_access.py:78-121 | in every interleaving all mails sent under one key are the same |
| `PlayStore.SentWhileFresh` | apps/api/houston/accounts/play_store_access.py:322-323 | a key is only sent if it was under a day old when the send was prepared |
| `PlayStore.MarkedWasAccepted` | apps/api/houston/accounts/play_store_access.py:110-114 | a record is marked accepted only if the provider accepted its current key |
| `PlayStore.ReturnAfterSendIsAccepted` | apps/api/houston/accounts/play_store_access.py:78-121 | a return after a send carries the sent key, accepted and marked |
| `PlayStore.ReturnAfterSkip` | apps/api/houston/accounts/play_store_access.py:94-95 | in every run, a skipped send returns an accepted key exactly when the record still carries the prepared one or a mail under the new one has reached the provider since; it says so exactly when the new key has been marked since; and the key is new exactly when a later submission rewrote the record |
| `PlayStore.SkipCanReturnUnaccepted` | apps/api/houston/accounts/play_store_access.py:94-95 | a concrete interleaving in which a skipped send returns a record whose key nobody accepted |
| `RefreshTokens.Accounts.UniqueDigest` | apps/api/houston/accounts/services.py:349-360 | the first generated digest that is free, if there is one among the attempts |
| `RefreshTokens.Accounts.RevokeSession` | apps/api/houston/accounts/services.py:223-245 | session, access tokens and refresh tokens are revoked |
| `RefreshTokens.Accounts.EnsureConsumable` | apps/api/houston/accounts/services.py:377-394 | passes exactly for an unexpired token of a live session of an active user, and the marks written before each error |
| `RefreshTokens.Accounts.RefreshSession` | apps/api/houston/accounts/services.py:106-141 | what each branch commits, with the writes of a raised error discarded |
| `RefreshTokens.Accounts.CreateLoginSession` | apps/api/houston/accounts/services.py:76-103 | a login commits a session with one access and one refresh token, or nothing |
| `RefreshRuns.OneLiveToken` | apps/api/houston/accounts/services.py:106-141 | in every interleaving a session has at most one refresh token neither used nor revoked |
| `RefreshRuns.RotatesOnce` | apps/api/houston/accounts/services.py:106-141 | the tokens listed as exchanged are all different |
| `RefreshRuns.ExchangedOnce` | apps/api/houston/accounts/services.py:106-141 | in every interleaving at most one refresh with the same token succeeds |
| `RefreshRuns.ExpiriesAreBounded` | apps/api/houston/accounts/services.py:422-426 | no refresh expiry is later than the session's absolute expiry |
| `RefreshRuns.ReuseEndsTheSession` | apps/api/houston/accounts/services.py:397-419 | after a used token is presented again no token of the session is live and no refresh on it succeeds, ever |
| `RefreshRuns.OnlyReuseCommits` | apps/api/houston/accounts/services.py:106-141 | of the failing refreshes only a detected reuse writes, and it leaves the session without a live token |
| `RefreshLaws.RefreshTable` | apps/api/houston/accounts/services.py:106-141 | the exact condition of each outcome, and what it leaves: a rotation with the first free digests, whose refresh token expires a lifetime after its issue or with its session, whichever is earlier |
| `RefreshLaws.RevocationTable` | apps/api/houston/accounts/services.py:223-245 | every token and access of the session that was not revoked is revoked at the instant, the rest is untouched |
| `RefreshLaws.MarksTable` | apps/api/houston/accounts/services.py:377-394 | which mark is written before each error, in the order of the checks |
| `RefreshLaws.LoginTable` | apps/api/houston/accounts/services.py:76-87 | a new session with its expiries, one refresh and one access token and nothing else, or the error |
| `RefreshLaws.StepTable` | apps/api/houston/accounts/services.py:77-260 | what each committed transaction of a run writes and leaves, logouts in three parts and outdated readings included |
| `PlanningOutbox.BackoffShape` | apps/api/houston/action_plans/planning_outbox_tasks.py:29-30 | the delay grows, doubles with each attempt that can be retried, and is capped |
| `OutboxLaws.ClaimableExactly` | apps/api/houston/action_plans/planning_outbox_tasks.py:38-55 | which entries a claim may take |
| `OutboxLaws.LeasedOrClaimable` | apps/api/houston/action_plans/planning_outbox_tasks.py:38-55 | an entry in processing is either leased or can be taken over |
| `OutboxLaws.ClaimTable` | apps/api/houston/action_plans/planning_outbox_tasks.py:33-67 | a claim counts an attempt and leases the entry for two minutes |
| `OutboxLaws.RetriedExactly` | apps/api/houston/action_plans/planning_outbox_tasks.py:134-174 | a failed entry with attempts left can be claimed again exactly once the delay of its attempts has passed, one without them and a processed one never |
| `OutboxLaws.FinalizeTable` | apps/api/houston/action_plans/planning_outbox_tasks.py:29-174 | every field of a finalized entry, with the delay in seconds by its attempts |
| `PlanningOutbox.Outbox.ClaimEntries` | apps/api/houston/action_plans/planning_outbox_tasks.py:33-67 | the earliest eligible entries, no more than a batch, are leased and counted, and nothing else changes |
| `PlanningOutbox.Outbox.FinalizeEntry` | apps/api/houston/action_plans/planning_outbox_tasks.py:134-174 | the written entry, for success and for failure |
| `PlanningOutbox.Outbox.ProcessBatch` | apps/api/houston/action_plans/planning_outbox_tasks.py:177-203 | every claimed entry is finalized by its own outcome and the successes are counted |
| `OutboxLaws.SoonerExactly` | apps/api/houston/action_plans/planning_outbox_tasks.py:54-55 | the order in which entries are taken |
| `PlanningOutbox.ClaimedWithoutLease` | apps/api/houston/action_plans/planning_outbox_tasks.py:33-67 | an entry is claimed only while nobody holds an unexpired lease |
| `PlanningOutbox.AttemptsCountClaims` | apps/api/houston/action_plans/planning_outbox_tasks.py:33-67 | in every interleaving the attempts of an entry are its claims |
| `PlanningOutbox.ClaimsAreLimited` | apps/api/houston/action_plans/planning_outbox_tasks.py:33-174 | when no worker keeps an entry past its lease, an entry is claimed at most eight times |
| `PlanningOutbox.AllClaimsAreLimited` | apps/api/houston/action_plans/planning_outbox_tasks.py:177-203 | and all claims together are at most eight per entry |
| `PlanningOutbox.ProcessedIsFinal` | apps/api/houston/action_plans/planning_outbox_tasks.py:134-174 | when no worker keeps an entry past its lease, a processed entry stays as it is |
| `PlanningOutbox.WhatLeavesProcessed` | apps/api/houston/action_plans/planning_outbox_tasks.py:134-174 | in any run exactly a failing finalization takes an entry out of the processed state, and only where this or an earlier finalization of it came after its worker's lease |
| `PlanningOutbox.NothingToTakeOver` | apps/api/houston/action_plans/planning_outbox_tasks.py:33-67 | when no worker keeps an entry past its lease, no claim ever meets an entry in processing |
| `PlanningOutbox.LiveWorkerUndoesLateSuccess` | apps/api/houston/action_plans/planning_outbox_tasks.py:134-174 | a concrete run in which a worker within its lease undoes the success of one that was late |
| `PlanningOutbox.WhatPassesTheLimit` | apps/api/houston/action_plans/planning_outbox_tasks.py:38-55 | exactly the takeover of an expired lease takes an entry past the limit |
| `PlanningOutbox.LateFailureUndoesSuccess` | apps/api/houston/action_plans/planning_outbox_tasks.py:134-174 | a concrete run in which a late worker turns a processed entry into a failed one |
| `PlanningOutbox.AbandonedIsReclaimed` | apps/api/houston/action_plans/planning_outbox_tasks.py:38-55 | an entry whose workers never finalize is claimed any number of times |
| `PlanningHash.ComputeCanonicalBody` | apps/api/houston/action_plans/planning_submission_hash.py:42-60 | the loops compute the canonical body, or fail where sorting does |
| `PlanningHash.SameFormExactly` | apps/api/houston/action_plans/planning_submission_hash.py:42-60 | two requests have the same canonical form exactly when mode, validation flag and canonical items agree |
| `PlanningHash.OrderDoesNotMatter` | apps/api/houston/action_plans/planning_submission_hash.py:22-60 | requests that differ only in the order of items, recurrence days and assignees have the same canonical form |
| `PlanningHash.DaysIgnoreOrder` | apps/api/houston/action_plans/planning_submission_hash.py:50-52 | recurrence days sort the same in any order, repeated days included |
| `HashLaws.SortExactly` | apps/api/houston/action_plans/planning_submission_hash.py:22-39 | the sort leaves the rows of every key in their order and no row before one its key puts it after |
| `HashLaws.FieldTextExactly` | apps/api/houston/action_plans/planning_submission_hash.py:22-39 | a key is the text of its field, empty when the field is absent or empty |
| `HashLaws.ObjectsExactly` | apps/api/houston/action_plans/planning_submission_hash.py:22-39 | each value of an object is made canonical, and what fails in one fails |
| `HashLaws.ListsExactly` | apps/api/houston/action_plans/planning_submission_hash.py:22-39 | only a list that starts with an assignee is sorted, by member and unit, and it fails on anything but objects; other lists keep their order |
| `HashLaws.BodyExactly` | apps/api/houston/action_plans/planning_submission_hash.py:42-60 | for any request, repeated ids included: each item canonical, stably sorted by id, its recurrence days sorted as texts; none exactly when an item fails |
| `HashLaws.DaysExactly` | apps/api/houston/action_plans/planning_submission_hash.py:50-52 | recurrence days become their texts in order, each as often as it was given |
| `HashLaws.ItemDaysExactly` | apps/api/houston/action_plans/planning_submission_hash.py:50-52 | nothing else of a canonical item changes |
| `PlanningSubmission.SnapshotRoundTrip` | apps/api/houston/action_plans/planning_services.py:220-259 | reading the stored snapshot gives the stored result, marked as replayed |
| `PlanningSubmission.CreateResources` | apps/api/houston/action_plans/planning_services.py:615-741 | the results in item order, each list of its kind and fit to be committed, and the effects, or the first item that fails |
| `PlanningSubmission.EffectsDistinct` | apps/api/houston/action_plans/planning_services.py:262-318 | effect keys never collide, and every created execution notifies exactly its recipients |
| `SubmissionLaws.ResultExactly` | apps/api/houston/action_plans/planning_services.py:615-741 | what the result of one item holds |
| `SubmissionLaws.ResultsExactly` | apps/api/houston/action_plans/planning_services.py:615-741 | the results of several items are those of each, in item order |
| `SubmissionLaws.OnceInOrder` | apps/api/houston/action_plans/planning_services.py:262-318 | executions made twice over are kept once, in the order they first appear |
| `SubmissionLaws.NotificationsExactly` | apps/api/houston/action_plans/planning_services.py:262-318 | execution by execution, each recipient in turn |
| `SubmissionLaws.BatchExactly` | apps/api/houston/action_plans/planning_services.py:262-318 | the batch entry is there exactly when something was created, first, and anchored at the first execution |
| `SubmissionLaws.LookTable` | apps/api/houston/action_plans/planning_services.py:534-552 | a row answers with what its set stored, or conflicts when the request is another one |
| `SubmissionLaws.InsertTable` | apps/api/houston/action_plans/planning_services.py:580-612 | an insert meets the unique row of its key or holds the key |
| `SubmissionLaws.EndTable` | apps/api/houston/action_plans/planning_services.py:615-741 | a commit adds its set and snapshot as the row of its key, an abort leaves nothing |
| `SubmissionLaws.DeletePlanTable` | apps/api/houston/action_plans/models.py:784-790 | deleting a plan takes the rows of its submissions with it and no others |
| `PlanningSubmission.RowsAlwaysExist` | apps/api/houston/action_plans/planning_services.py:580-741 | in every race every row others can see belongs to a committed resource set |
| `PlanningSubmission.OneResourceSetPerKey` | apps/api/houston/action_plans/planning_services.py:580-796 | in every race each key creates resources once for as long as its plan is there: between two resource sets of one key the plan of the first was deleted |
| `PlanningSubmission.ReturnsAgree` | apps/api/houston/action_plans/planning_services.py:534-796 | submissions answered from one resource set carried the same request and return the same plan, executions and schedules; those of one key are, unless the plan was deleted in between |
| `PlanningSubmission.LaterSubmissions` | apps/api/houston/action_plans/planning_services.py:534-552 | while the plan is there, a later submission is answered from the snapshot when its request is the same and conflicts otherwise; after its deletion none is answered from it |
| `ExecutionUpdate.Service.ResolveFinalAssignees` | apps/api/houston/action_plans/execution_update.py:332-441 | the final assignees or the first error, and a diff that names exactly who joined, left or got another end |
| `ExecutionUpdate.Service.ResolveTasks` | apps/api/houston/action_plans/execution_update.py:489-642 | the submitted tasks, against the positions and ids taken so far |
| `ExecutionUpdate.Service.DropOthers` | apps/api/houston/action_plans/execution_update.py:643-662 | whether the pending tasks left out can go, and the error of the first that cannot |
| `ExecutionUpdate.Service.SyncTeams` | apps/api/houston/action_plans/execution_update.py:855-879 | missing teams are created and useless ones deleted |
| `ExecutionUpdate.Service.Update` | apps/api/houston/action_plans/execution_update.py:144-329 | the checks in order; a refused update, a stale one included, changes nothing; a protected pending task undoes every write |
| `ExecutionUpdate.ResolvedMembersDistinct` | apps/api/houston/action_plans/execution_update.py:332-441 | no member is assigned twice |
| `ExecutionUpdate.TreatedTasksUnchanged` | apps/api/houston/action_plans/execution_update.py:772-852 | treated tasks come through unchanged |
| `ExecutionUpdate.KeptTasksKeepIdentity` | apps/api/houston/action_plans/execution_update.py:444-662 | a kept task keeps its id, plan task, observation and state |
| `ExecutionUpdate.KeptExactly` | apps/api/houston/action_plans/execution_update.py:444-662 | a pending task is kept exactly when it is named or tasks are left alone, and goes only if it may |
| `ExecutionUpdate.TasksArePositioned` | apps/api/houston/action_plans/execution_update.py:444-662 | positions stay distinct and between one and ten |
| `ExecutionUpdate.AtMostTenTasks` | apps/api/houston/action_plans/execution_update.py:444-662 | there are at most ten tasks |
| `ExecutionUpdate.DoersAreAssigned` | apps/api/houston/action_plans/execution_update.py:444-662 | submitted pending tasks are only assigned to final assignees; tasks left alone are exactly when none is done by a member neither assigned before nor in the end |
| `ExecutionUpdate.TeamsAreExact` | apps/api/houston/action_plans/execution_update.py:855-879 | the teams are exactly those of pilot, assignees and tasks |
| `ExecutionUpdate.UpdateKeepsInv` | apps/api/houston/action_plans/execution_update.py:144-329 | an accepted update keeps positions, number, pilot flag and comment links, and from any stored execution ends with exactly the needed teams and an assignee, with assigned doers in exactly the stated case, acting on the execution as the lifecycle's edit |
| `ExecutionUpdate.Service.WriteTasks` | apps/api/houston/action_plans/execution_update.py:772-852 | pending tasks are deleted and the final ones inserted, unless an observation protects one |
| `ExecutionUpdate.RewritingCutsLinks` | apps/api/houston/action_plans/execution_update.py:772-852 | an accepted update that submits tasks has met no observation of a pending one, and cuts exactly the comment links to pending tasks, kept ones included |
| `ExecutionUpdate.DroppedMembersKeepTasks` | apps/api/houston/action_plans/schedule_services.py:354-367 | dropping members from a shared execution keeps what every execution satisfies, and leaves doers unassigned in exactly the stated case |
| `ExecutionUpdate.StaleIsRefused` | apps/api/houston/action_plans/execution_update.py:165-166 | a request made from an outdated reading is refused |
| `ExecutionUpdate.ActivityFound` | apps/api/houston/action_plans/execution_update.py:275-277 | the flags raised along the way say exactly whether an assignee, an end, a doer or a deadline changed |
| `UpdateLaws.SubmittedTasksAreWritten` | apps/api/houston/action_plans/execution_update.py:444-852 | after an accepted update with tasks the task of each item holds the item's text, description, unit, deadline and doer, and its position or its number; treated tasks are as they were and there are no others |
| `UpdateLaws.TasksLeftAlone` | apps/api/houston/action_plans/execution_update.py:772-852 | without submitted tasks only a pending task loses its doer, when that member is no longer assigned |
| `UpdateLaws.ItemsTable` | apps/api/houston/action_plans/execution_update.py:444-662 | all items are resolved, or the first that does not fit gives the error, which says whether it made sense |
| `UpdateLaws.SubmittedAssigneesAreWritten` | apps/api/houston/action_plans/execution_update.py:332-769 | every submitted member is assigned with its end; a kept one keeps unit and start, a new one starts as the chronology says; nobody else stays |
| `UpdateLaws.RowsTable` | apps/api/houston/action_plans/execution_update.py:332-441 | which assignees are accepted, and the error of the first that is not |
| `UpdateLaws.ActivityExactly` | apps/api/houston/action_plans/execution_update.py:275-277 | a content change counts as activity exactly when an assignee, an end, a doer or a deadline is another one |
| `UpdateLaws.ContentIsWritten` | apps/api/houston/action_plans/execution_update.py:144-329 | an accepted update writes the submitted title and description and makes the lifecycle edit it names, with the activity of what it changed |
| `UpdateLaws.AcceptedExactly` | apps/api/houston/action_plans/execution_update.py:144-329 | an update is accepted exactly when nothing refuses it: reading, status, rights, edit, assignees, tasks |
| `UpdateLaws.ErrorOrder` | apps/api/houston/action_plans/execution_update.py:144-329 | which of several refusals is raised |
| `UpdateLaws.RefusalTable` | apps/api/houston/action_plans/execution_update.py:144-329 | the refusals that come before assignees and tasks, and which is raised |
| `UpdateLaws.TaskErrors` | apps/api/houston/action_plans/execution_update.py:444-662 | which error the submitted tasks raise |
| `UpdateLaws.AssigneeErrors` | apps/api/houston/action_plans/execution_update.py:332-441 | which error the submitted assignees raise |

## Left out

- ExecutionStore.Store.SyncAfterUpdate: does not prune the assignees of shared executions, which nothing restores later; that step is `ExecutionUpdate.Pruned`, on the execution as the update sees it.
- MaterializationStore.Table.MaterializeHorizon: does not stamp `last_materialized_at` on the schedule; it returns the number of the materialized executions, not their list.
- MaterializationPasses.FastRefinesSlow: is about passes in which full materialization raises nothing; after a validation error the fast pass may reach dates the full pass never got to.
- RepairRun.Repair.Run: the deletions of the other kinds of row are taken to succeed; of the failures only those of comments and point transactions are modelled.
- TemplateDeletion.Catalog.DeleteReusablePlan: assumes replies stay on the execution of the comment they answer, and does not model notifications and comment media.
- ExecutionUpdate.Service.Update: text normalisation, the kinds of malformed payload, the staff restriction (a boolean here) and the recipients of notifications are not modelled.
- PlanningHash.ComputeCanonicalBody: the JSON text and the SHA-256 digest are left out; equal digests are taken to mean equal canonical bodies.
- PlayStore.Requests.Prepare: the mail's text is a value of what it is made from, and addresses arrive normalised.
- The update of a schedule's own fields and its validation, and creating schedules and plans.
- LifecycleTheorems.RunKeepsInv: a promotion reads the clock before it locks the row (apps/api/houston/action_plans/lifecycle_promotion.py:68-77), so one that has waited may record an instant before the last one; runs here are in the order of their instants.
- ExecutionStore.Store.ReconcileOne: the synchronisation re-reads a row and saves it without a lock (apps/api/houston/action_plans/schedule_services.py:179-201, 721-755), so a manual cancel committed between the two can be overwritten as a schedule cancel; the model takes the reading and the writing of a row as one step.
- JournalCutover.CutoverIsIdempotent: the cutover is modelled on one execution; the signals' cutover, which has the same form, is not.
- CutoverReaders.CutoverStatusIsRightExactly: is about rows that store the instants their status implies, as the services leave them; an older row without one gets no terminal event for it.
- CutoverReaders.CutoverEndIsRightExactly: no transaction shares the cutover's instant, and all that the execution recorded before is from before it.
- ExecutionRuns.Perform: edits and materialization are steps of a run of services (`Act`, `Creation`) but are carried out by the tables of their own modules.
- The capped periodic promotion, a prefix of the exhaustive one that is modelled.
- Feed pins, the upcoming cursor, the cross-establishment feed and the text encoding of cursors.
- Actors recorded beside timestamps (who started, validated or reactivated); only who canceled is kept.
- Signal statuses, gamification, realtime invalidation, notifications and media.
- Time zones and daylight saving; the conversion to instants is abstract.
- Web application, settings, Celery wiring, AI providers.
