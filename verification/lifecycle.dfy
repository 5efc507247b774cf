/**
 One action-plan execution with its journal, and every transition the services
 make on it.  A transition is a function of the stored row and the instant read
 from the clock; a refused transition leaves the row alone.
 */
module Lifecycle {
  import opened Core
  import opened Journal

  datatype Execution = Execution(
    scheduleId: Option<Id>,
    occurrenceDate: Option<Date>,
    useSharedChronology: bool,
    owner: Option<Id>,
    requiresValidation: bool,
    status: Status,
    startAt: Option<Time>,
    endAt: Option<Time>,
    visibleFrom: Option<Time>,
    allDay: bool,
    startedAt: Option<Time>,
    markedDoneAt: Option<Time>,
    validatedAt: Option<Time>,
    canceledAt: Option<Time>,
    canceledBy: Option<Id>,
    cancelOrigin: Option<CancelOrigin>,
    reopenedAt: Option<Time>,
    reactivatedAt: Option<Time>,
    lastActivityAt: Time,
    journal: seq<Event>)

  /** The window a schedule gives one occurrence. */
  datatype Window = Window(startAt: Time, endAt: Time, visibleFrom: Time, allDay: bool)

  datatype Error = StateError | ValidationError

  predicate Finished(s: Status) { s == Done || s == Canceled }

  // ----- guards -----

  predicate EndAfterStart(startAt: Option<Time>, endAt: Option<Time>) {
    endAt.Some? ==> startAt.Some? && startAt.value < endAt.value
  }

  predicate AllDayClosed(allDay: bool, startAt: Option<Time>, endAt: Option<Time>) {
    allDay ==> startAt.Some? && endAt.Some?
  }

  function StartingStatus(startAt: Option<Time>, now: Time): Status {
    if startAt.Some? && startAt.value > now then Scheduled else InProgress
  }

  predicate IsDue(e: Execution, now: Time) {
    e.status == Scheduled && e.startAt.Some? && e.startAt.value <= now
  }

  /** Scheduled and, at the given instant, not started yet. */
  predicate IsFuture(e: Execution, now: Time) {
    e.status == Scheduled && e.startAt.Some? && now < e.startAt.value
  }

  // ----- transitions -----

  function Record(e: Execution, kind: EventKind, at: Time, extra: Meta): Execution {
    e.(journal := e.journal + [Recorded(kind, at, extra + TransitionMeta(e.status, e.endAt))])
  }

  function RecordDeadline(e: Execution, fromEnd: Option<Time>, at: Time): Execution {
    e.(journal := e.journal + DeadlineEvents(fromEnd, e.endAt, at))
  }

  function Touched(e: Execution, now: Time): Execution {
    e.(lastActivityAt := Max(e.lastActivityAt, now))
  }

  /** What a new execution is created from. */
  datatype Draft = Draft(
    scheduleId: Option<Id>,
    occurrenceDate: Option<Date>,
    useSharedChronology: bool,
    owner: Option<Id>,
    requiresValidation: bool,
    startAt: Option<Time>,
    endAt: Option<Time>,
    visibleFrom: Option<Time>,
    allDay: bool)

  predicate Creatable(d: Draft) {
    && (d.useSharedChronology || d.owner.Some?)
    && EndAfterStart(d.startAt, d.endAt)
    && AllDayClosed(d.allDay, d.startAt, d.endAt)
  }

  /** `createdAt` is read by the database after `now` was read by the service. */
  function NewExecution(d: Draft, now: Time, createdAt: Time): Execution {
    var status := StartingStatus(d.startAt, now);
    var row := Execution(
      d.scheduleId, d.occurrenceDate, d.useSharedChronology,
      if d.useSharedChronology then None else d.owner,
      d.requiresValidation, status, d.startAt, d.endAt, d.visibleFrom, d.allDay,
      if status == InProgress then Some(now) else None,
      None, None, None, None, None, None, None, now, []);
    var created := Record(row, Created, createdAt, map[InitialStatus := StatusText(status)]);
    if status == InProgress then Record(created, Started, createdAt, map[]) else created
  }

  function Promote(e: Execution, now: Time): Execution {
    if !IsDue(e, now) then e
    else Record(Touched(e.(status := InProgress, startedAt := Some(now)), now), Started, now, map[])
  }

  function MarkDone(e: Execution, now: Time): Execution {
    if e.status != InProgress then e
    else
      var status := if e.requiresValidation then PendingValidation else Done;
      Record(Touched(e.(status := status, markedDoneAt := Some(now)), now), MarkedDone, now,
             map[StartAt := MomentOf(e.startAt)])
  }

  function Validate(e: Execution, now: Time): Execution {
    if e.status != PendingValidation then e
    else Record(Touched(e.(status := Done, validatedAt := Some(now)), now), Validated, now, map[])
  }

  function Reopen(e: Execution, now: Time): Execution {
    if e.status != PendingValidation then e
    else
      Record(Touched(e.(status := InProgress, markedDoneAt := None, validatedAt := None, canceledAt := None,
                        canceledBy := None, cancelOrigin := None, reopenedAt := Some(now)), now),
             Reopened, now, map[])
  }

  function CanceledRow(e: Execution, actor: Option<Id>, origin: CancelOrigin, now: Time): Execution {
    Record(Touched(e.(status := Canceled, canceledAt := Some(now), canceledBy := actor,
                      cancelOrigin := Some(origin)), now),
           CanceledEvent, now, map[CancelOriginKey := OriginText(origin)])
  }

  /** By an actor, or by nobody when the linked signal is resolved. */
  function CancelManually(e: Execution, actor: Option<Id>, now: Time): Execution {
    if e.status == Done || e.status == Canceled then e else CanceledRow(e, actor, Manual, now)
  }

  /** `asOf` is the instant the schedule synchronisation classified the row at. */
  function CancelBySync(e: Execution, asOf: Time, now: Time): Execution {
    if !IsFuture(e, asOf) then e else CanceledRow(e, None, ScheduleSync, now)
  }

  predicate SyncCanceled(e: Execution) {
    e.status == Canceled && e.cancelOrigin == Some(ScheduleSync)
  }

  function WithWindow(e: Execution, w: Window): Execution {
    e.(startAt := Some(w.startAt), endAt := Some(w.endAt), visibleFrom := Some(w.visibleFrom), allDay := w.allDay)
  }

  function Reactivate(e: Execution, w: Window, now: Time): Execution {
    if !SyncCanceled(e) || e.occurrenceDate.None? then e
    else
      var status := StartingStatus(Some(w.startAt), now);
      var row := WithWindow(
                   e.(status := status, canceledAt := None, canceledBy := None, cancelOrigin := None,
                      reactivatedAt := Some(now),
                      startedAt := if status == Scheduled then None else e.startedAt), w);
      RecordDeadline(Record(Touched(row, now), Reactivated, now, map[ReactivationOrigin := OriginText(ScheduleSync)]),
                     e.endAt, now)
  }

  /** Moves a future scheduled row to the window its schedule now computes. */
  function SyncWindow(e: Execution, w: Window, asOf: Time, now: Time): Execution {
    if !IsFuture(e, asOf) || e.occurrenceDate.None? then e
    else
      var row := WithWindow(e, w);
      RecordDeadline(if e.endAt != Some(w.endAt) then Touched(row, now) else row, e.endAt, now)
  }

  datatype Edit = Edit(requiresValidation: Option<bool>, endAt: Option<Option<Time>>, allDay: Option<bool>)

  function EditedRow(e: Execution, edit: Edit): Execution {
    e.(requiresValidation := if edit.requiresValidation.Some? then edit.requiresValidation.value else e.requiresValidation,
       endAt := if edit.endAt.Some? then edit.endAt.value else e.endAt,
       allDay := if edit.allDay.Some? then edit.allDay.value else e.allDay)
  }

  predicate EditAccepted(e: Execution, edit: Edit) {
    && e.status == InProgress
    && (edit.endAt.Some? ==> EndAfterStart(e.startAt, edit.endAt.value))
    && AllDayClosed(EditedRow(e, edit).allDay, e.startAt, EditedRow(e, edit).endAt)
  }

  /** The lifecycle part of a content update; `assignmentChanged` also counts as activity. */
  function EditContent(e: Execution, edit: Edit, assignmentChanged: bool, now: Time): Execution {
    if !EditAccepted(e, edit) then e
    else
      var row := EditedRow(e, edit);
      RecordDeadline(if assignmentChanged || row.endAt != e.endAt then Touched(row, now) else row, e.endAt, now)
  }

  // ----- runs -----

  datatype Action =
    | DoPromote | DoMarkDone | DoValidate | DoReopen
    | DoCancel(actor: Option<Id>)
    | DoSyncCancel(asOf: Time)
    | DoReactivate(window: Window)
    | DoSyncWindow(window: Window, asOf: Time)
    | DoEdit(edit: Edit, assignmentChanged: bool)

  function Apply(e: Execution, a: Action, now: Time): Execution {
    match a
    case DoPromote => Promote(e, now)
    case DoMarkDone => MarkDone(e, now)
    case DoValidate => Validate(e, now)
    case DoReopen => Reopen(e, now)
    case DoCancel(actor) => CancelManually(e, actor, now)
    case DoSyncCancel(asOf) => CancelBySync(e, asOf, now)
    case DoReactivate(w) => Reactivate(e, w, now)
    case DoSyncWindow(w, asOf) => SyncWindow(e, w, asOf, now)
    case DoEdit(edit, assignmentChanged) => EditContent(e, edit, assignmentChanged, now)
  }

  /** Windows come from validated schedules. */
  predicate Sensible(a: Action) {
    (a.DoReactivate? || a.DoSyncWindow?) ==> a.window.startAt < a.window.endAt
  }

  datatype Step = Step(action: Action, now: Time)

  /** One clock that never goes back; transactions may share an instant. */
  ghost predicate Clocked(createdAt: Time, steps: seq<Step>) {
    && (forall i :: 0 <= i < |steps| ==> Sensible(steps[i].action) && createdAt <= steps[i].now)
    && (forall i, j :: 0 <= i < j < |steps| ==> steps[i].now <= steps[j].now)
  }

  /** No two transactions share an instant. */
  ghost predicate Untied(createdAt: Time, steps: seq<Step>) {
    && (forall i :: 0 <= i < |steps| ==> createdAt != steps[i].now)
    && (forall i, j :: 0 <= i < j < |steps| ==> steps[i].now != steps[j].now)
  }

  ghost function Run(e: Execution, steps: seq<Step>): Execution {
    if steps == [] then e
    else var last := steps[|steps| - 1]; Apply(Run(e, steps[..|steps| - 1]), last.action, last.now)
  }

  // ----- what every run keeps -----

  ghost predicate RowInv(e: Execution) {
    && EndAfterStart(e.startAt, e.endAt)
    && AllDayClosed(e.allDay, e.startAt, e.endAt)
    && (e.status == Scheduled ==> e.startAt.Some? && e.startedAt.None?)
    && ((e.status == Scheduled || e.status == InProgress) ==> e.markedDoneAt.None? && e.validatedAt.None?)
    && (e.status == PendingValidation ==> e.requiresValidation && e.markedDoneAt.Some? && e.validatedAt.None?)
    && (e.status == Done ==> e.markedDoneAt.Some? && (e.requiresValidation <==> e.validatedAt.Some?))
    && (e.status == Canceled ==> e.canceledAt.Some? && e.cancelOrigin.Some?)
    && (e.status != Canceled ==> e.canceledAt.None? && e.cancelOrigin.None?)
    && (SyncCanceled(e) ==> e.startedAt.None? && e.markedDoneAt.None? && e.validatedAt.None?)
    && (e.useSharedChronology <==> e.owner.None?)
  }

  /** The latest instant at which an event of one kind occurred. */
  function LatestAt(j: seq<Event>, kind: EventKind): Option<Time> {
    if j == [] then None
    else
      var prior, last := LatestAt(j[..|j| - 1], kind), j[|j| - 1];
      if last.kind != kind then prior
      else if prior.Some? then Some(Max(prior.value, last.at)) else Some(last.at)
  }

  ghost predicate Legal(from: Status, to: Status) {
    match from
    case Scheduled => to == InProgress || to == Canceled
    case InProgress => to == InProgress || to == PendingValidation || to == Done || to == Canceled
    case PendingValidation => to == Done || to == InProgress || to == Canceled
    case Done => false
    case Canceled => to == Scheduled || to == InProgress
  }

  ghost predicate LegalHistory(j: seq<Event>) {
    forall i {:trigger j[i]} :: 0 < i < |j| && StatusKinds.Has(j[i].kind) ==>
      var before := Last(j[..i], StatusKinds);
      before.Some? && StatusOf(before.value, None).Some? && StatusOf(j[i], None).Some? &&
      Legal(StatusOf(before.value, None).value, StatusOf(j[i], None).value)
  }

  /** The journal tells exactly what the row stores. */
  ghost predicate JournalInv(e: Execution) {
    var j := e.journal;
    && WellFormed(j) && Chronological(j)
    && Last(j, StatusKinds).Some?
    && StatusOf(Last(j, StatusKinds).value, None) == Some(e.status)
    && EndOf(j[|j| - 1]) == e.endAt
    && EndsTell(e)
  }

  /** What the last events of the kinds the deadline reader looks at tell. */
  ghost predicate EndsTell(e: Execution) {
    var j := e.journal;
    && (Last(j, DeadlineKinds).Some? ==> LastEnd(j, DeadlineKinds) == e.endAt)
    && (Last(j, DeadlineKinds).None? ==> LastEnd(j, OpeningKinds) == e.endAt)
    && (Finished(e.status) && Last(j, TerminalKinds).Some? ==> LastEnd(j, TerminalKinds) == e.endAt)
  }

  /** A finished row has its terminal event, and the stored terminal instant is the journal's. */
  ghost predicate TerminalInv(e: Execution) {
    && (Finished(e.status) ==> Last(e.journal, TerminalKinds).Some?)
    && (e.status == Canceled ==> LatestAt(e.journal, CanceledEvent) == e.canceledAt)
    && (e.status == Done && e.requiresValidation ==> LatestAt(e.journal, Validated) == e.validatedAt)
    && (e.status == Done && !e.requiresValidation ==> LatestAt(e.journal, MarkedDone) == e.markedDoneAt)
  }

  ghost predicate NotAfter(j: seq<Event>, now: Time) {
    forall x :: x in j ==> x.at <= now
  }

  /** What the readers of the journal need. */
  ghost predicate Told(e: Execution) {
    RowInv(e) && JournalInv(e) && LegalHistory(e.journal)
  }

  ghost predicate Inv(e: Execution) {
    Told(e) && TerminalInv(e)
  }
}
