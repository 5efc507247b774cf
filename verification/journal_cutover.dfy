/**
 The cutover gives every execution without one a baseline in the journal, and the terminal events its row
 still knows about.  What the two readers return for executions older than the journal, and for those
 that already had one.
 */
module JournalCutover {
  import opened Core
  import opened Journal
  import opened Lifecycle
  import opened JournalParts
  import opened JournalTies
  import opened LifecycleTheorems

  // ----- the statements, one after the other -----

  predicate Holds(j: seq<Event>, kind: EventKind, at: Time) {
    exists x :: x in j && x.kind == kind && x.at == at
  }

  predicate HasBaseline(j: seq<Event>) {
    exists x :: x in j && x.kind == HistoryBaseline
  }

  function WithBaseline(e: Execution, at: Time): Execution {
    if HasBaseline(e.journal) then e else e.(journal := e.journal + [BaselineOf(e, at)])
  }

  function Backdated(kind: EventKind, at: Time, status: Status, endAt: Option<Time>): Event {
    Recorded(kind, at, map[] + TransitionMeta(status, endAt))
  }

  /** One event, unless its instant is not known or one of the type is already there at that instant. */
  function Missing(j: seq<Event>, kind: EventKind, at: Option<Time>, status: Status, endAt: Option<Time>): seq<Event> {
    if at.None? || Holds(j, kind, at.value) then [] else [Backdated(kind, at.value, status, endAt)]
  }

  function MissingDone(e: Execution): seq<Event> {
    Missing(e.journal, MarkedDone, e.markedDoneAt, if e.validatedAt.Some? then PendingValidation else Done, e.endAt)
  }

  function MissingTerminals(e: Execution): seq<Event> {
    match e.status
    case PendingValidation => Missing(e.journal, MarkedDone, e.markedDoneAt, PendingValidation, e.endAt)
    case Done =>
      if e.markedDoneAt.None? then []
      else MissingDone(e) + Missing(e.journal + MissingDone(e), Validated, e.validatedAt, Done, e.endAt)
    case Canceled => Missing(e.journal, CanceledEvent, e.canceledAt, Canceled, e.endAt)
    case _ => []
  }

  function WithTerminals(e: Execution): Execution { e.(journal := e.journal + MissingTerminals(e)) }

  function Cutover(e: Execution, at: Time): Execution { WithTerminals(WithBaseline(e, at)) }

  /** The instants the row stores are in its journal. */
  ghost predicate StampsRecorded(e: Execution) {
    && (e.status == PendingValidation || e.status == Done ==>
          e.markedDoneAt.Some? ==> Holds(e.journal, MarkedDone, e.markedDoneAt.value))
    && (e.status == Done && e.markedDoneAt.Some? && e.validatedAt.Some? ==> Holds(e.journal, Validated, e.validatedAt.value))
    && (e.status == Canceled && e.canceledAt.Some? ==> Holds(e.journal, CanceledEvent, e.canceledAt.value))
  }

  /** An instant the row stores for its present status. */
  predicate IsStamp(e: Execution, at: Time) {
    e.markedDoneAt == Some(at) || e.validatedAt == Some(at) || e.canceledAt == Some(at)
  }

  /** A terminal event made from what the row stores. */
  ghost predicate FromRow(e: Execution, x: Event) {
    IsStamp(e, x.at) && TerminalKinds.Has(x.kind) && EndOf(x) == e.endAt && EndAt in x.meta && StatusOf(x, None).Some?
  }

  lemma MissingHolds(j: seq<Event>, kind: EventKind, at: Option<Time>, status: Status, endAt: Option<Time>)
    requires TerminalKinds.Has(kind)
    ensures at.Some? ==> Holds(j + Missing(j, kind, at, status, endAt), kind, at.value)
    ensures forall x :: x in Missing(j, kind, at, status, endAt) ==>
                          at == Some(x.at) && x.kind == kind && EndOf(x) == endAt && EndAt in x.meta && StatusOf(x, None).Some?
  {
    var missing := Missing(j, kind, at, status, endAt);
    if missing != [] {
      TransitionSurvives(kind, at.value, status, endAt, map[]);
      assert (j + missing)[|j|] == missing[0];
    } else {
      assert j + missing == j;
    }
  }

  lemma HoldsStays(j: seq<Event>, added: seq<Event>, kind: EventKind, at: Time)
    requires Holds(j, kind, at)
    ensures Holds(j + added, kind, at)
  {
    var x :| x in j && x.kind == kind && x.at == at;
    assert x in j + added;
  }

  lemma BaselineStays(j: seq<Event>, added: seq<Event>)
    requires HasBaseline(j)
    ensures HasBaseline(j + added)
  {
    var x :| x in j && x.kind == HistoryBaseline;
    assert x in j + added;
  }

  /** What is missing is made from the row, and afterwards nothing is. */
  lemma TerminalsRecord(e: Execution)
    ensures StampsRecorded(WithTerminals(e))
    ensures StampsRecorded(e) ==> MissingTerminals(e) == []
    ensures forall x :: x in MissingTerminals(e) ==> FromRow(e, x)
  {
    match e.status
    case PendingValidation => MissingHolds(e.journal, MarkedDone, e.markedDoneAt, PendingValidation, e.endAt);
    case Done => DoneRecords(e);
    case Canceled => MissingHolds(e.journal, CanceledEvent, e.canceledAt, Canceled, e.endAt);
    case _ =>
  }

  lemma DoneRecords(e: Execution)
    requires e.status == Done
    ensures StampsRecorded(WithTerminals(e))
    ensures StampsRecorded(e) ==> MissingTerminals(e) == []
    ensures forall x :: x in MissingTerminals(e) ==> FromRow(e, x)
  {
    if e.markedDoneAt.Some? {
      var marked := MissingDone(e);
      MissingHolds(e.journal, MarkedDone, e.markedDoneAt, if e.validatedAt.Some? then PendingValidation else Done, e.endAt);
      var validated := Missing(e.journal + marked, Validated, e.validatedAt, Done, e.endAt);
      MissingHolds(e.journal + marked, Validated, e.validatedAt, Done, e.endAt);
      HoldsStays(e.journal + marked, validated, MarkedDone, e.markedDoneAt.value);
      assert e.journal + marked + validated == e.journal + (marked + validated);
      assert e.journal + [] == e.journal;
    }
  }

  // ----- a second cutover -----

  /** A status is entered with its instant, which is recorded in the same transaction. */
  lemma StampsMove(e: Execution, a: Action, now: Time)
    requires RowInv(e) && Apply(e, a, now) != e
    ensures var next := Apply(e, a, now);
            match next.status
            case PendingValidation => a.DoMarkDone? && next.markedDoneAt == Some(now)
            case Done =>
              if a.DoMarkDone? then next.markedDoneAt == Some(now) && next.validatedAt.None?
              else a.DoValidate? && e.status == PendingValidation && next.markedDoneAt == e.markedDoneAt && next.validatedAt == Some(now)
            case Canceled => (a.DoCancel? || a.DoSyncCancel?) && next.canceledAt == Some(now)
            case _ => true
  {
  }

  lemma ApplyRecords(e: Execution, a: Action, now: Time) returns (added: seq<Event>)
    requires Apply(e, a, now) != e
    ensures Apply(e, a, now).journal == e.journal + added
    ensures Moves(a) ==> Holds(e.journal + added, KindOf(a), now)
  {
    var next := Apply(e, a, now);
    ActionAppends(e, a, now);
    added := Added(MovedBy(e, a, now), e.endAt, next.endAt, now);
    if Moves(a) {
      assert added[0] == MovedBy(e, a, now).value;
      assert (e.journal + added)[|e.journal|] == added[0];
    }
  }

  lemma ApplyKeepsStamps(e: Execution, a: Action, now: Time)
    requires RowInv(e) && Sensible(a) && StampsRecorded(e)
    ensures RowInv(Apply(e, a, now)) && StampsRecorded(Apply(e, a, now))
    ensures HasBaseline(e.journal) ==> HasBaseline(Apply(e, a, now).journal)
  {
    if Apply(e, a, now) != e {
      var added := ApplyRecords(e, a, now);
      ApplyGrows(e, a, now);
      StampsMove(e, a, now);
      if e.status == PendingValidation {
        HoldsStays(e.journal, added, MarkedDone, e.markedDoneAt.value);
      }
      if HasBaseline(e.journal) {
        BaselineStays(e.journal, added);
      }
    }
  }

  lemma {:induction false} RunKeepsStamps(e: Execution, steps: seq<Step>)
    requires RowInv(e) && StampsRecorded(e) && forall i :: 0 <= i < |steps| ==> Sensible(steps[i].action)
    ensures RowInv(Run(e, steps)) && StampsRecorded(Run(e, steps))
    ensures HasBaseline(e.journal) ==> HasBaseline(Run(e, steps).journal)
  {
    if steps != [] {
      var front, last := steps[..|steps| - 1], steps[|steps| - 1];
      RunKeepsStamps(e, front);
      ApplyKeepsStamps(Run(e, front), last.action, last.now);
    }
  }

  lemma CutoverRecords(e: Execution, at: Time)
    ensures StampsRecorded(Cutover(e, at)) && HasBaseline(Cutover(e, at).journal)
    ensures StampsRecorded(e) && HasBaseline(e.journal) ==> Cutover(e, at) == e
    ensures RowInv(e) ==> RowInv(Cutover(e, at))
  {
    var with := WithBaseline(e, at);
    var added := MissingTerminals(with);
    TerminalsRecord(with);
    if !HasBaseline(e.journal) {
      assert with.journal[|e.journal|] == BaselineOf(e, at);
      assert HasBaseline(with.journal);
    }
    BaselineStays(with.journal, added);
  }

  /** Cut over once, an execution is never changed by another cutover, whatever has happened to it since. */
  lemma CutoverIsIdempotent(e: Execution, at: Time, steps: seq<Step>, later: Time)
    requires steps != [] ==> RowInv(e) && forall i :: 0 <= i < |steps| ==> Sensible(steps[i].action)
    ensures Cutover(Run(Cutover(e, at), steps), later) == Run(Cutover(e, at), steps)
  {
    CutoverRecords(e, at);
    if steps != [] {
      RunKeepsStamps(Cutover(e, at), steps);
    }
    CutoverRecords(Run(Cutover(e, at), steps), later);
  }

  // ----- a run writes the same, whatever the journal already holds -----

  /** The same row behind an older piece of journal. */
  function Behind(e: Execution, older: seq<Event>): Execution { e.(journal := older + e.journal) }

  lemma RecordBehind(e: Execution, older: seq<Event>, kind: EventKind, at: Time, extra: Meta)
    ensures Record(Behind(e, older), kind, at, extra) == Behind(Record(e, kind, at, extra), older)
  {
    var ev := Recorded(kind, at, extra + TransitionMeta(e.status, e.endAt));
    assert older + e.journal + [ev] == older + (e.journal + [ev]);
  }

  lemma RecordDeadlineBehind(e: Execution, older: seq<Event>, fromEnd: Option<Time>, at: Time)
    ensures RecordDeadline(Behind(e, older), fromEnd, at) == Behind(RecordDeadline(e, fromEnd, at), older)
  {
    var added := DeadlineEvents(fromEnd, e.endAt, at);
    assert older + e.journal + added == older + (e.journal + added);
  }

  lemma PromoteBehind(e: Execution, older: seq<Event>, now: Time)
    ensures Promote(Behind(e, older), now) == Behind(Promote(e, now), older)
  {
    RecordBehind(Touched(e.(status := InProgress, startedAt := Some(now)), now), older, Started, now, map[]);
  }

  lemma MarkDoneBehind(e: Execution, older: seq<Event>, now: Time)
    ensures MarkDone(Behind(e, older), now) == Behind(MarkDone(e, now), older)
  {
    var status := if e.requiresValidation then PendingValidation else Done;
    RecordBehind(Touched(e.(status := status, markedDoneAt := Some(now)), now), older, MarkedDone, now,
                 map[StartAt := MomentOf(e.startAt)]);
  }

  lemma ValidateBehind(e: Execution, older: seq<Event>, now: Time)
    ensures Validate(Behind(e, older), now) == Behind(Validate(e, now), older)
  {
    RecordBehind(Touched(e.(status := Done, validatedAt := Some(now)), now), older, Validated, now, map[]);
  }

  lemma ReopenBehind(e: Execution, older: seq<Event>, now: Time)
    ensures Reopen(Behind(e, older), now) == Behind(Reopen(e, now), older)
  {
    RecordBehind(Touched(e.(status := InProgress, markedDoneAt := None, validatedAt := None, canceledAt := None,
                            canceledBy := None, cancelOrigin := None, reopenedAt := Some(now)), now),
                 older, Reopened, now, map[]);
  }

  lemma CanceledBehind(e: Execution, older: seq<Event>, actor: Option<Id>, origin: CancelOrigin, now: Time)
    ensures CanceledRow(Behind(e, older), actor, origin, now) == Behind(CanceledRow(e, actor, origin, now), older)
  {
    RecordBehind(Touched(e.(status := Canceled, canceledAt := Some(now), canceledBy := actor, cancelOrigin := Some(origin)), now),
                 older, CanceledEvent, now, map[CancelOriginKey := OriginText(origin)]);
  }

  lemma ReactivateBehind(e: Execution, older: seq<Event>, w: Window, now: Time)
    ensures Reactivate(Behind(e, older), w, now) == Behind(Reactivate(e, w, now), older)
  {
    var status := StartingStatus(Some(w.startAt), now);
    var row := WithWindow(e.(status := status, canceledAt := None, canceledBy := None, cancelOrigin := None,
                             reactivatedAt := Some(now), startedAt := if status == Scheduled then None else e.startedAt), w);
    var extra: Meta := map[ReactivationOrigin := OriginText(ScheduleSync)];
    RecordBehind(Touched(row, now), older, Reactivated, now, extra);
    RecordDeadlineBehind(Record(Touched(row, now), Reactivated, now, extra), older, e.endAt, now);
  }

  lemma SyncWindowBehind(e: Execution, older: seq<Event>, w: Window, asOf: Time, now: Time)
    ensures SyncWindow(Behind(e, older), w, asOf, now) == Behind(SyncWindow(e, w, asOf, now), older)
  {
    var row := WithWindow(e, w);
    RecordDeadlineBehind(if e.endAt != Some(w.endAt) then Touched(row, now) else row, older, e.endAt, now);
  }

  lemma EditedBehind(e: Execution, older: seq<Event>, edit: Edit)
    ensures EditedRow(Behind(e, older), edit) == Behind(EditedRow(e, edit), older)
    ensures EditAccepted(Behind(e, older), edit) == EditAccepted(e, edit)
  {
  }

  lemma EditBehind(e: Execution, older: seq<Event>, edit: Edit, assignmentChanged: bool, now: Time)
    ensures EditContent(Behind(e, older), edit, assignmentChanged, now) == Behind(EditContent(e, edit, assignmentChanged, now), older)
  {
    EditedBehind(e, older, edit);
    if EditAccepted(e, edit) {
      var row := EditedRow(e, edit);
      if assignmentChanged || row.endAt != e.endAt {
        RecordDeadlineBehind(Touched(row, now), older, e.endAt, now);
      } else {
        RecordDeadlineBehind(row, older, e.endAt, now);
      }
    }
  }

  lemma ApplyBehind(e: Execution, older: seq<Event>, a: Action, now: Time)
    ensures Apply(Behind(e, older), a, now) == Behind(Apply(e, a, now), older)
  {
    match a
    case DoPromote => PromoteBehind(e, older, now);
    case DoMarkDone => MarkDoneBehind(e, older, now);
    case DoValidate => ValidateBehind(e, older, now);
    case DoReopen => ReopenBehind(e, older, now);
    case DoCancel(actor) => CanceledBehind(e, older, actor, Manual, now);
    case DoSyncCancel(_) => CanceledBehind(e, older, None, ScheduleSync, now);
    case DoReactivate(w) => ReactivateBehind(e, older, w, now);
    case DoSyncWindow(w, asOf) => SyncWindowBehind(e, older, w, asOf, now);
    case DoEdit(edit, assignmentChanged) => EditBehind(e, older, edit, assignmentChanged, now);
  }

  lemma {:induction false} RunBehind(e: Execution, older: seq<Event>, steps: seq<Step>)
    ensures Run(Behind(e, older), steps) == Behind(Run(e, steps), older)
  {
    if steps != [] {
      var front, last := steps[..|steps| - 1], steps[|steps| - 1];
      RunBehind(e, older, front);
      ApplyBehind(Run(e, front), older, last.action, last.now);
    }
  }

  function Bare(e: Execution): Execution { e.(journal := []) }

  /** What a run writes to the journal. */
  ghost function Written(e: Execution, steps: seq<Step>): seq<Event> { Run(Bare(e), steps).journal }

  lemma RunWrites(e: Execution, steps: seq<Step>)
    ensures Run(e, steps) == Run(Bare(e), steps).(journal := e.journal + Written(e, steps))
  {
    assert e.journal + [] == e.journal;
    RunBehind(Bare(e), e.journal, steps);
  }

  // ----- executions older than the journal -----

  /** Nothing opens its journal, and all that it holds and the row stores is from before the cutover. */
  ghost predicate Precedes(e: Execution, cut: Time) {
    && RowInv(e)
    && (forall x :: x in e.journal ==> x.at < cut && !OriginKinds.Has(x.kind))
    && (forall at :: IsStamp(e, at) ==> at < cut)
  }

  function From(cut: Time): Event -> bool { (ev: Event) => cut <= ev.at }

  /** What the journal holds next to the baseline. */
  function Older(e: Execution, cut: Time): seq<Event> { e.journal + MissingTerminals(WithBaseline(e, cut)) }

  lemma CutoverOfOlder(e: Execution, cut: Time)
    requires Precedes(e, cut)
    ensures Cutover(e, cut) == e.(journal := e.journal + [BaselineOf(e, cut)] + MissingTerminals(WithBaseline(e, cut)))
    ensures forall x :: x in Older(e, cut) ==> x.at < cut && !OriginKinds.Has(x.kind) && (x in e.journal || FromRow(e, x))
  {
    assert !HasBaseline(e.journal);
    MissingIsOlder(e, cut, WithBaseline(e, cut));
  }

  lemma MissingIsOlder(e: Execution, cut: Time, with: Execution)
    requires Precedes(e, cut) && with == e.(journal := with.journal)
    ensures forall x :: x in MissingTerminals(with) ==> x.at < cut && !OriginKinds.Has(x.kind) && FromRow(e, x)
  {
    TerminalsRecord(with);
    forall x | x in MissingTerminals(with) ensures IsStamp(e, x.at) && FromRow(e, x) {
      assert FromRow(with, x);
    }
  }

  /** All but the older events is the journal of a run from the baseline. */
  lemma RunFromCutover(e: Execution, cut: Time, steps: seq<Step>)
    requires Precedes(e, cut) && Clocked(cut, steps)
    ensures var all, since := Run(Cutover(e, cut), steps), Run(Baselined(e, cut), steps);
            && Those(all.journal, From(cut)) == since.journal
            && all == since.(journal := all.journal)
            && (forall x :: x in all.journal <==> x in Older(e, cut) || x in since.journal)
            && (forall x :: x in since.journal ==> cut <= x.at)
  {
    CutoverOfOlder(e, cut);
    var b, terminals, written := BaselineOf(e, cut), MissingTerminals(WithBaseline(e, cut)), Written(e, steps);
    RunWrites(Cutover(e, cut), steps);
    RunWrites(Baselined(e, cut), steps);
    SinceBaseline(e, cut, steps);
    ThoseNone(e.journal, From(cut));
    ThoseNone(terminals, From(cut));
    ThoseAll([b] + written, From(cut));
    SplitThose(e.journal, b, terminals, written, From(cut));
  }

  lemma SplitThose(j: seq<Event>, b: Event, t: seq<Event>, w: seq<Event>, keep: Event -> bool)
    requires keep(b) && Those(j, keep) == [] && Those(t, keep) == [] && Those([b] + w, keep) == [b] + w
    ensures Those(j + [b] + t + w, keep) == [b] + w
  {
    ThoseAppend(j + [b] + t, w, keep);
    ThoseAppend(j + [b], t, keep);
    ThoseAppend(j, [b], keep);
    ThoseAppend([b], w, keep);
  }

  lemma SinceBaseline(e: Execution, cut: Time, steps: seq<Step>)
    requires RowInv(e) && Clocked(cut, steps)
    ensures var j := Run(Baselined(e, cut), steps).journal;
            && WellFormed(j) && Chronological(j) && j[0] == BaselineOf(e, cut) && j == [BaselineOf(e, cut)] + Written(e, steps)
            && (forall x :: x in j ==> cut <= x.at)
            && (forall x :: x in j && OriginKinds.Has(x.kind) ==> x == BaselineOf(e, cut))
  {
    BaselineBegins(e, cut);
    RunKeepsTold(Baselined(e, cut), cut, steps);
    RunWrites(Baselined(e, cut), steps);
    OnlyOrigin(Run(Baselined(e, cut), steps).journal);
  }

  /** The rows of a cut-over execution, fetched in any order: without the older ones they list the run from the baseline. */
  lemma FetchedSince(e: Execution, cut: Time, steps: seq<Step>, events: seq<Event>)
    requires Precedes(e, cut) && Clocked(cut, steps) && SameEvents(events, Run(Cutover(e, cut), steps).journal)
    ensures SameEvents(Those(events, From(cut)), Run(Baselined(e, cut), steps).journal)
    ensures Opens(events, BaselineOf(e, cut)) && Opens(Those(events, From(cut)), BaselineOf(e, cut))
    ensures forall x :: x in events && x.at < cut <==> x in Older(e, cut)
  {
    CutoverOfOlder(e, cut);
    RunFromCutover(e, cut, steps);
    SinceBaseline(e, cut, steps);
    ThoseMembers(events, From(cut));
  }

  /** What happened before the cutover does not count for the status. */
  lemma OlderStatusesDoNotCount(e: Execution, cut: Time, steps: seq<Step>, events: seq<Event>, at: Time, reliableFrom: Time)
    requires Precedes(e, cut) && Clocked(cut, steps) && SameEvents(events, Run(Cutover(e, cut), steps).journal)
    requires reliableFrom <= at && cut <= at
    ensures StatusAt(at, reliableFrom, events) == StatusAt(at, reliableFrom, Those(events, From(cut)))
  {
    FetchedSince(e, cut, steps, events);
    StatusOfPart(events, From(cut), at, reliableFrom, BaselineOf(e, cut));
  }
}
