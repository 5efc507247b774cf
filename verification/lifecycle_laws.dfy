/**
 What each transition does to a row, field by field: the table of the services, said apart from the functions
 that compute it.
 */
module LifecycleLaws {
  import opened Core
  import opened Journal
  import opened Lifecycle

  // ----- what stays -----

  /** What the execution is for. */
  ghost predicate SamePlace(e: Execution, r: Execution) {
    r.scheduleId == e.scheduleId && r.occurrenceDate == e.occurrenceDate
    && r.useSharedChronology == e.useSharedChronology && r.owner == e.owner
  }

  ghost predicate SameWindow(e: Execution, r: Execution) {
    r.startAt == e.startAt && r.endAt == e.endAt && r.visibleFrom == e.visibleFrom && r.allDay == e.allDay
  }

  ghost predicate SameCancellation(e: Execution, r: Execution) {
    r.canceledAt == e.canceledAt && r.canceledBy == e.canceledBy && r.cancelOrigin == e.cancelOrigin
  }

  ghost predicate SameMarks(e: Execution, r: Execution) {
    r.markedDoneAt == e.markedDoneAt && r.validatedAt == e.validatedAt
  }

  ghost predicate SameReturns(e: Execution, r: Execution) {
    r.reopenedAt == e.reopenedAt && r.reactivatedAt == e.reactivatedAt
  }

  // ----- what is recorded -----

  /** The last activity is now, unless a later one is known. */
  ghost predicate Stirred(e: Execution, r: Execution, now: Time) {
    r.lastActivityAt == if e.lastActivityAt < now then now else e.lastActivityAt
  }

  ghost predicate Extends(e: Execution, r: Execution, count: nat) {
    |r.journal| == |e.journal| + count && r.journal[..|e.journal|] == e.journal
  }

  /** An event of a transition that tells where the row now stands. */
  ghost predicate Announces(ev: Event, kind: EventKind, r: Execution, now: Time) {
    ev.kind == kind && ev.at == now && StatusOf(ev, None) == Some(r.status) && EndAt in ev.meta && EndOf(ev) == r.endAt
  }

  /** One event more in the journal. */
  ghost predicate Notes(e: Execution, r: Execution, kind: EventKind, now: Time) {
    Extends(e, r, 1) && Announces(r.journal[|e.journal|], kind, r, now)
  }

  /** An event that tells which deadline became which. */
  ghost predicate TellsMove(ev: Event, fromEnd: Option<Time>, toEnd: Option<Time>, now: Time) {
    && ev.kind == DeadlineChanged && ev.at == now
    && FromEndAt in ev.meta && TimeOf(ev.meta, FromEndAt) == fromEnd && ToEndAt in ev.meta && TimeOf(ev.meta, ToEndAt) == toEnd
  }

  /** After `count` events, one more exactly when the deadline moved. */
  ghost predicate NotesDeadline(e: Execution, r: Execution, count: nat, now: Time) {
    if r.endAt == e.endAt then Extends(e, r, count)
    else Extends(e, r, count + 1) && TellsMove(r.journal[|e.journal| + count], e.endAt, r.endAt, now)
  }

  // ----- the table -----

  ghost predicate IsStarted(e: Execution, r: Execution, now: Time) {
    && r.status == InProgress && r.startedAt == Some(now) && Stirred(e, r, now) && Notes(e, r, Started, now)
    && SamePlace(e, r) && SameWindow(e, r) && SameMarks(e, r) && SameCancellation(e, r) && SameReturns(e, r)
    && r.requiresValidation == e.requiresValidation
  }

  ghost predicate IsMarkedDone(e: Execution, r: Execution, now: Time) {
    && r.status == (if e.requiresValidation then PendingValidation else Done)
    && r.markedDoneAt == Some(now) && Stirred(e, r, now)
    && Notes(e, r, MarkedDone, now) && TimeOf(r.journal[|e.journal|].meta, StartAt) == e.startAt
    && SamePlace(e, r) && SameWindow(e, r) && SameCancellation(e, r) && SameReturns(e, r)
    && r.startedAt == e.startedAt && r.validatedAt == e.validatedAt && r.requiresValidation == e.requiresValidation
  }

  ghost predicate IsValidated(e: Execution, r: Execution, now: Time) {
    && r.status == Done && r.validatedAt == Some(now) && Stirred(e, r, now) && Notes(e, r, Validated, now)
    && SamePlace(e, r) && SameWindow(e, r) && SameCancellation(e, r) && SameReturns(e, r)
    && r.startedAt == e.startedAt && r.markedDoneAt == e.markedDoneAt && r.requiresValidation == e.requiresValidation
  }

  ghost predicate IsReopened(e: Execution, r: Execution, now: Time) {
    && r.status == InProgress && r.reopenedAt == Some(now) && Stirred(e, r, now) && Notes(e, r, Reopened, now)
    && r.markedDoneAt.None? && r.validatedAt.None? && r.canceledAt.None? && r.canceledBy.None? && r.cancelOrigin.None?
    && SamePlace(e, r) && SameWindow(e, r)
    && r.startedAt == e.startedAt && r.reactivatedAt == e.reactivatedAt && r.requiresValidation == e.requiresValidation
  }

  ghost predicate IsCanceled(e: Execution, r: Execution, actor: Option<Id>, origin: CancelOrigin, now: Time) {
    && r.status == Canceled && r.canceledAt == Some(now) && r.canceledBy == actor && r.cancelOrigin == Some(origin)
    && Stirred(e, r, now) && Notes(e, r, CanceledEvent, now)
    && CancelOriginKey in r.journal[|e.journal|].meta && r.journal[|e.journal|].meta[CancelOriginKey] == OriginText(origin)
    && SamePlace(e, r) && SameWindow(e, r) && SameMarks(e, r) && SameReturns(e, r)
    && r.startedAt == e.startedAt && r.requiresValidation == e.requiresValidation
  }

  ghost predicate InWindow(r: Execution, w: Window) {
    r.startAt == Some(w.startAt) && r.endAt == Some(w.endAt) && r.visibleFrom == Some(w.visibleFrom) && r.allDay == w.allDay
  }

  /** Back before its start it is scheduled again, and not started; back later it is in progress. */
  ghost predicate IsReactivated(e: Execution, r: Execution, w: Window, now: Time) {
    && r.status == (if now < w.startAt then Scheduled else InProgress) && InWindow(r, w)
    && r.startedAt == (if now < w.startAt then None else e.startedAt)
    && r.reactivatedAt == Some(now) && r.canceledAt.None? && r.canceledBy.None? && r.cancelOrigin.None?
    && Stirred(e, r, now) && NotesDeadline(e, r, 1, now)
    && Announces(r.journal[|e.journal|], Reactivated, r, now)
    && ReactivationOrigin in r.journal[|e.journal|].meta
    && r.journal[|e.journal|].meta[ReactivationOrigin] == OriginText(ScheduleSync)
    && SamePlace(e, r) && SameMarks(e, r) && r.reopenedAt == e.reopenedAt && r.requiresValidation == e.requiresValidation
  }

  /** Moved to another window, which counts as activity when its deadline is another. */
  ghost predicate IsMoved(e: Execution, r: Execution, w: Window, now: Time) {
    && InWindow(r, w) && r.status == e.status && NotesDeadline(e, r, 0, now)
    && (if r.endAt == e.endAt then r.lastActivityAt == e.lastActivityAt else Stirred(e, r, now))
    && SamePlace(e, r) && SameMarks(e, r) && SameCancellation(e, r) && SameReturns(e, r)
    && r.startedAt == e.startedAt && r.requiresValidation == e.requiresValidation
  }

  /** What the edit names is changed and nothing else; a moved deadline or changed assignment counts as activity. */
  ghost predicate IsEdited(e: Execution, r: Execution, edit: Edit, assignmentChanged: bool, now: Time) {
    && (edit.requiresValidation == Some(r.requiresValidation)
        || (edit.requiresValidation.None? && r.requiresValidation == e.requiresValidation))
    && (edit.endAt == Some(r.endAt) || (edit.endAt.None? && r.endAt == e.endAt))
    && (edit.allDay == Some(r.allDay) || (edit.allDay.None? && r.allDay == e.allDay))
    && (if assignmentChanged || r.endAt != e.endAt then Stirred(e, r, now) else r.lastActivityAt == e.lastActivityAt)
    && NotesDeadline(e, r, 0, now) && r.status == e.status
    && SamePlace(e, r) && SameMarks(e, r) && SameCancellation(e, r) && SameReturns(e, r)
    && r.startAt == e.startAt && r.visibleFrom == e.visibleFrom && r.startedAt == e.startedAt
  }

  /** An edit of an execution in progress is accepted when the deadline it leaves is after a start, and an all-day one has both. */
  ghost predicate MayEdit(e: Execution, edit: Edit) {
    var endAt := if edit.endAt.Some? then edit.endAt.value else e.endAt;
    var allDay := if edit.allDay.Some? then edit.allDay.value else e.allDay;
    && e.status == InProgress
    && (edit.endAt.Some? && endAt.Some? ==> e.startAt.Some? && e.startAt.value < endAt.value)
    && (allDay ==> e.startAt.Some? && endAt.Some?)
  }

  lemma NotesOne(e: Execution, row: Execution, kind: EventKind, now: Time, extra: Meta)
    requires StatusKinds.Has(kind) && ToStatus !in extra && EndAt !in extra && row.journal == e.journal
    ensures Notes(e, Record(row, kind, now, extra), kind, now)
    ensures Record(row, kind, now, extra).journal[|e.journal|] == Recorded(kind, now, extra + TransitionMeta(row.status, row.endAt))
  {
    TransitionSurvives(kind, now, row.status, row.endAt, extra);
  }

  lemma NotesMove(e: Execution, row: Execution, count: nat, now: Time)
    requires Extends(e, row, count)
    ensures NotesDeadline(e, RecordDeadline(row, e.endAt, now), count, now)
    ensures RecordDeadline(row, e.endAt, now).journal[..|row.journal|] == row.journal
  {
  }

  /** A promotion starts exactly what is scheduled and due. */
  lemma PromotionTable(e: Execution, now: Time)
    ensures if e.status == Scheduled && e.startAt.Some? && e.startAt.value <= now then IsStarted(e, Promote(e, now), now)
            else Promote(e, now) == e
  {
    NotesOne(e, Touched(e.(status := InProgress, startedAt := Some(now)), now), Started, now, map[]);
  }

  lemma MarkingTable(e: Execution, now: Time)
    ensures if e.status == InProgress then IsMarkedDone(e, MarkDone(e, now), now) else MarkDone(e, now) == e
  {
    var status := if e.requiresValidation then PendingValidation else Done;
    NotesOne(e, Touched(e.(status := status, markedDoneAt := Some(now)), now), MarkedDone, now, map[StartAt := MomentOf(e.startAt)]);
  }

  lemma ValidationTable(e: Execution, now: Time)
    ensures if e.status == PendingValidation then IsValidated(e, Validate(e, now), now) else Validate(e, now) == e
  {
    NotesOne(e, Touched(e.(status := Done, validatedAt := Some(now)), now), Validated, now, map[]);
  }

  lemma ReopeningTable(e: Execution, now: Time)
    ensures if e.status == PendingValidation then IsReopened(e, Reopen(e, now), now) else Reopen(e, now) == e
  {
    NotesOne(e, Touched(e.(status := InProgress, markedDoneAt := None, validatedAt := None, canceledAt := None,
                           canceledBy := None, cancelOrigin := None, reopenedAt := Some(now)), now), Reopened, now, map[]);
  }

  lemma CancelingTable(e: Execution, actor: Option<Id>, origin: CancelOrigin, now: Time)
    ensures IsCanceled(e, CanceledRow(e, actor, origin, now), actor, origin, now)
  {
    NotesOne(e, Touched(e.(status := Canceled, canceledAt := Some(now), canceledBy := actor, cancelOrigin := Some(origin)), now),
             CanceledEvent, now, map[CancelOriginKey := OriginText(origin)]);
  }

  /** Anybody may cancel what is not done or canceled; a synchronisation cancels what was scheduled and ahead. */
  lemma CancellationTable(e: Execution, actor: Option<Id>, asOf: Time, now: Time)
    ensures if e.status == Done || e.status == Canceled then CancelManually(e, actor, now) == e
            else IsCanceled(e, CancelManually(e, actor, now), actor, Manual, now)
    ensures if e.status == Scheduled && e.startAt.Some? && asOf < e.startAt.value
            then IsCanceled(e, CancelBySync(e, asOf, now), None, ScheduleSync, now) else CancelBySync(e, asOf, now) == e
  {
    CancelingTable(e, actor, Manual, now);
    CancelingTable(e, None, ScheduleSync, now);
  }

  /** What its schedule canceled comes back, and nothing else does. */
  lemma ReactivationTable(e: Execution, w: Window, now: Time)
    ensures if e.status == Canceled && e.cancelOrigin == Some(ScheduleSync) && e.occurrenceDate.Some?
            then IsReactivated(e, Reactivate(e, w, now), w, now) else Reactivate(e, w, now) == e
  {
    var status := StartingStatus(Some(w.startAt), now);
    var row := Touched(WithWindow(e.(status := status, canceledAt := None, canceledBy := None, cancelOrigin := None,
                                     reactivatedAt := Some(now),
                                     startedAt := if status == Scheduled then None else e.startedAt), w), now);
    NotesReturn(e, row, now);
  }

  lemma NotesReturn(e: Execution, row: Execution, now: Time)
    requires row.journal == e.journal
    ensures var r := RecordDeadline(Record(row, Reactivated, now, map[ReactivationOrigin := OriginText(ScheduleSync)]), e.endAt, now);
            && NotesDeadline(e, r, 1, now) && Announces(r.journal[|e.journal|], Reactivated, row, now)
            && ReactivationOrigin in r.journal[|e.journal|].meta
            && r.journal[|e.journal|].meta[ReactivationOrigin] == OriginText(ScheduleSync)
  {
    NotesOne(e, row, Reactivated, now, map[ReactivationOrigin := OriginText(ScheduleSync)]);
    NotesMove(e, Record(row, Reactivated, now, map[ReactivationOrigin := OriginText(ScheduleSync)]), 1, now);
  }

  /** A synchronisation moves what is scheduled and ahead. */
  lemma WindowTable(e: Execution, w: Window, asOf: Time, now: Time)
    ensures if e.status == Scheduled && e.startAt.Some? && asOf < e.startAt.value && e.occurrenceDate.Some?
            then IsMoved(e, SyncWindow(e, w, asOf, now), w, now) else SyncWindow(e, w, asOf, now) == e
  {
    var row := WithWindow(e, w);
    NotesMove(e, if e.endAt != Some(w.endAt) then Touched(row, now) else row, 0, now);
  }

  lemma EditTable(e: Execution, edit: Edit, assignmentChanged: bool, now: Time)
    ensures if MayEdit(e, edit) then IsEdited(e, EditContent(e, edit, assignmentChanged, now), edit, assignmentChanged, now)
            else EditContent(e, edit, assignmentChanged, now) == e
  {
    var row := EditedRow(e, edit);
    NotesMove(e, if assignmentChanged || row.endAt != e.endAt then Touched(row, now) else row, 0, now);
  }

  // ----- creation -----

  /** Individual chronology needs an owner, a deadline a start before it, an all-day occurrence both. */
  predicate MayCreate(d: Draft) {
    && (d.useSharedChronology || d.owner.Some?)
    && (d.endAt.Some? ==> d.startAt.Some? && d.startAt.value < d.endAt.value)
    && (d.allDay ==> d.startAt.Some? && d.endAt.Some?)
  }

  /** A new execution is scheduled when it starts later, and otherwise has started. */
  ghost predicate IsNew(d: Draft, r: Execution, now: Time, createdAt: Time) {
    var later := d.startAt.Some? && now < d.startAt.value;
    && r.status == (if later then Scheduled else InProgress) && r.startedAt == (if later then None else Some(now))
    && r.scheduleId == d.scheduleId && r.occurrenceDate == d.occurrenceDate
    && r.useSharedChronology == d.useSharedChronology && r.owner == (if d.useSharedChronology then None else d.owner)
    && r.requiresValidation == d.requiresValidation
    && r.startAt == d.startAt && r.endAt == d.endAt && r.visibleFrom == d.visibleFrom && r.allDay == d.allDay
    && r.markedDoneAt.None? && r.validatedAt.None? && r.canceledAt.None? && r.canceledBy.None? && r.cancelOrigin.None?
    && r.reopenedAt.None? && r.reactivatedAt.None? && r.lastActivityAt == now
    && |r.journal| == (if later then 1 else 2) && Announces(r.journal[0], Created, r, createdAt)
    && InitialStatus in r.journal[0].meta && r.journal[0].meta[InitialStatus] == StatusText(r.status)
    && (!later ==> Announces(r.journal[1], Started, r, createdAt))
  }

  lemma CreationTable(d: Draft, now: Time, createdAt: Time)
    ensures Creatable(d) <==> MayCreate(d)
    ensures IsNew(d, NewExecution(d, now, createdAt), now, createdAt)
  {
    var status := StartingStatus(d.startAt, now);
    var extra: Meta := map[InitialStatus := StatusText(status)];
    TransitionSurvives(Created, createdAt, status, d.endAt, extra);
    TransitionSurvives(Started, createdAt, status, d.endAt, map[]);
  }

  // ----- all of it -----

  /** What an action does when it is not refused. */
  ghost predicate IsDone(e: Execution, a: Action, now: Time, r: Execution) {
    match a
    case DoPromote => IsStarted(e, r, now)
    case DoMarkDone => IsMarkedDone(e, r, now)
    case DoValidate => IsValidated(e, r, now)
    case DoReopen => IsReopened(e, r, now)
    case DoCancel(actor) => IsCanceled(e, r, actor, Manual, now)
    case DoSyncCancel(_) => IsCanceled(e, r, None, ScheduleSync, now)
    case DoReactivate(w) => IsReactivated(e, r, w, now)
    case DoSyncWindow(w, _) => IsMoved(e, r, w, now)
    case DoEdit(edit, assignmentChanged) => IsEdited(e, r, edit, assignmentChanged, now)
  }

  /** The rows it is not refused for. */
  ghost predicate MayDo(e: Execution, a: Action, now: Time) {
    match a
    case DoPromote => e.status == Scheduled && e.startAt.Some? && e.startAt.value <= now
    case DoMarkDone => e.status == InProgress
    case DoValidate => e.status == PendingValidation
    case DoReopen => e.status == PendingValidation
    case DoCancel(_) => e.status != Done && e.status != Canceled
    case DoSyncCancel(asOf) => e.status == Scheduled && e.startAt.Some? && asOf < e.startAt.value
    case DoReactivate(_) => e.status == Canceled && e.cancelOrigin == Some(ScheduleSync) && e.occurrenceDate.Some?
    case DoSyncWindow(_, asOf) =>
      e.status == Scheduled && e.startAt.Some? && asOf < e.startAt.value && e.occurrenceDate.Some?
    case DoEdit(edit, _) => MayEdit(e, edit)
  }

  /** Every action does its work on exactly the rows it may, and leaves the others alone. */
  lemma ActionTable(e: Execution, a: Action, now: Time)
    ensures if MayDo(e, a, now) then IsDone(e, a, now, Apply(e, a, now)) else Apply(e, a, now) == e
  {
    match a
    case DoPromote => PromotionTable(e, now);
    case DoMarkDone => MarkingTable(e, now);
    case DoValidate => ValidationTable(e, now);
    case DoReopen => ReopeningTable(e, now);
    case DoCancel(actor) => CancellationTable(e, actor, now, now);
    case DoSyncCancel(asOf) => CancellationTable(e, None, asOf, now);
    case DoReactivate(w) => ReactivationTable(e, w, now);
    case DoSyncWindow(w, asOf) => WindowTable(e, w, asOf, now);
    case DoEdit(edit, assignmentChanged) => EditTable(e, edit, assignmentChanged, now);
  }
}
