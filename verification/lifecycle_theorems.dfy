/** What every run of one execution keeps, and what its journal lets the readers rebuild. */
module LifecycleTheorems {
  import opened Core
  import opened Journal
  import opened Lifecycle
  import opened JournalTies

  // ----- one transaction appends to the journal -----

  /** The events one transaction adds: at most one transition, then at most one change of deadline. */
  function Added(moved: Option<Event>, fromEnd: Option<Time>, toEnd: Option<Time>, now: Time): seq<Event> {
    (if moved.Some? then [moved.value] else []) + DeadlineEvents(fromEnd, toEnd, now)
  }

  /** A transition event that says where the row now is. */
  ghost predicate Tells(ev: Event, e: Execution, now: Time) {
    && ev.at == now && StatusKinds.Has(ev.kind) && !OriginKinds.Has(ev.kind)
    && StatusOf(ev, None) == Some(e.status) && EndOf(ev) == e.endAt && EndAt in ev.meta
  }

  /** `e` became `next` in a transaction at `now`, which recorded `moved`. */
  ghost predicate Grows(e: Execution, next: Execution, moved: Option<Event>, now: Time) {
    && next.journal == e.journal + Added(moved, e.endAt, next.endAt, now)
    && (moved.None? ==> next.status == e.status && !Finished(next.status))
    && (moved.Some? ==>
          && Tells(moved.value, next, now)
          && Legal(e.status, next.status)
          && (Finished(next.status) ==> TerminalKinds.Has(moved.value.kind) && next.endAt == e.endAt)
          && (moved.value.kind == Started ==> next.endAt == e.endAt))
  }

  lemma DeadlineEventTells(fromEnd: Option<Time>, toEnd: Option<Time>, now: Time)
    requires fromEnd != toEnd
    ensures |DeadlineEvents(fromEnd, toEnd, now)| == 1
    ensures var ev := DeadlineEvents(fromEnd, toEnd, now)[0];
            ev.kind == DeadlineChanged && ev.at == now && EndOf(ev) == toEnd
  {
  }

  lemma LastOfOne(ev: Event, kinds: Kinds)
    ensures Last([ev], kinds) == if kinds.Has(ev.kind) then Some(ev) else None
  {
    assert [ev][..0] == [];
  }

  lemma LastOfAdded(moved: Option<Event>, fromEnd: Option<Time>, toEnd: Option<Time>, now: Time, kinds: Kinds)
    requires moved.Some? ==> StatusKinds.Has(moved.value.kind)
    ensures var added := Added(moved, fromEnd, toEnd, now);
            Last(added, kinds) ==
            if fromEnd != toEnd && kinds.Has(DeadlineChanged) then Some(DeadlineEvents(fromEnd, toEnd, now)[0])
            else if moved.Some? && kinds.Has(moved.value.kind) then moved
            else None
  {
    var first := if moved.Some? then [moved.value] else [];
    if moved.Some? {
      LastOfOne(moved.value, kinds);
    }
    if fromEnd != toEnd {
      DeadlineEventTells(fromEnd, toEnd, now);
      var d := DeadlineEvents(fromEnd, toEnd, now)[0];
      assert DeadlineEvents(fromEnd, toEnd, now) == [d];
      LastOfOne(d, kinds);
      LastAppend(first, [d], kinds);
    } else {
      assert first + [] == first;
    }
  }

  lemma AddedShape(moved: Option<Event>, next: Execution, fromEnd: Option<Time>, now: Time)
    requires moved.Some? ==> Tells(moved.value, next, now)
    ensures var added := Added(moved, fromEnd, next.endAt, now);
            && (forall x :: x in added ==>
                  x.at == now && !OriginKinds.Has(x.kind) && EndOf(x) == next.endAt &&
                  (StatusKinds.Has(x.kind) ==> StatusOf(x, None) == Some(next.status) && EndAt in x.meta))
            && (added == [] ==> fromEnd == next.endAt)
  {
    if fromEnd != next.endAt {
      DeadlineEventTells(fromEnd, next.endAt, now);
    }
  }

  /** What the transaction adds keeps the journal's shape. */
  lemma ShapeGrows(j: seq<Event>, added: seq<Event>, now: Time)
    requires WellFormed(j) && Chronological(j) && NotAfter(j, now)
    requires forall x :: x in added ==>
               x.at == now && !OriginKinds.Has(x.kind) &&
               (StatusKinds.Has(x.kind) ==> StatusOf(x, None).Some? && EndAt in x.meta)
    ensures WellFormed(j + added) && Chronological(j + added) && NotAfter(j + added, now)
  {
    var all := j + added;
    forall i | 0 <= i < |all| ensures all[i].at <= now && (i >= |j| ==> all[i] in added) {
      if i < |j| {
        assert j[i] in j;
      } else {
        assert all[i] == added[i - |j|];
      }
    }
  }

  lemma JournalGrows(e: Execution, next: Execution, moved: Option<Event>, now: Time)
    requires JournalInv(e) && NotAfter(e.journal, now)
    requires Grows(e, next, moved, now)
    ensures JournalInv(next) && NotAfter(next.journal, now)
  {
    var j, added := e.journal, Added(moved, e.endAt, next.endAt, now);
    AddedShape(moved, next, e.endAt, now);
    ShapeGrows(j, added, now);
    assert EndOf(next.journal[|next.journal| - 1]) == next.endAt by {
      if added != [] {
        assert added[|added| - 1] in added;
      } else {
        assert j + added == j;
      }
    }
    LastsGrow(e, next, moved, now);
  }

  lemma LastsGrow(e: Execution, next: Execution, moved: Option<Event>, now: Time)
    requires JournalInv(e)
    requires Grows(e, next, moved, now)
    ensures Last(next.journal, StatusKinds).Some? && StatusOf(Last(next.journal, StatusKinds).value, None) == Some(next.status)
    ensures EndsTell(next)
  {
    LastAppend(e.journal, Added(moved, e.endAt, next.endAt, now), StatusKinds);
    LastOfAdded(moved, e.endAt, next.endAt, now, StatusKinds);
    EndsGrow(e, next, moved, now);
  }

  lemma EndsGrow(e: Execution, next: Execution, moved: Option<Event>, now: Time)
    requires EndsTell(e)
    requires Grows(e, next, moved, now)
    ensures EndsTell(next)
  {
    var j, added := e.journal, Added(moved, e.endAt, next.endAt, now);
    LastAppend(j, added, DeadlineKinds);
    LastAppend(j, added, OpeningKinds);
    LastAppend(j, added, TerminalKinds);
    LastOfAdded(moved, e.endAt, next.endAt, now, DeadlineKinds);
    LastOfAdded(moved, e.endAt, next.endAt, now, OpeningKinds);
    LastOfAdded(moved, e.endAt, next.endAt, now, TerminalKinds);
    if e.endAt != next.endAt {
      DeadlineEventTells(e.endAt, next.endAt, now);
    }
  }

  lemma LegalGrows(e: Execution, next: Execution, moved: Option<Event>, now: Time)
    requires JournalInv(e) && LegalHistory(e.journal)
    requires Grows(e, next, moved, now)
    ensures LegalHistory(next.journal)
  {
    var j, j' := e.journal, next.journal;
    forall i {:trigger j'[i]} | 0 < i < |j'| && StatusKinds.Has(j'[i].kind)
      ensures var before := Last(j'[..i], StatusKinds);
              before.Some? && StatusOf(before.value, None).Some? && StatusOf(j'[i], None).Some? &&
              Legal(StatusOf(before.value, None).value, StatusOf(j'[i], None).value)
    {
      if i < |j| {
        assert j'[i] == j[i];
        assert j'[..i] == j[..i];
      } else {
        if e.endAt != next.endAt {
          DeadlineEventTells(e.endAt, next.endAt, now);
        }
        assert i == |j| && moved == Some(j'[i]);
        assert j'[..i] == j;
      }
    }
  }

  lemma {:induction false} LatestBound(j: seq<Event>, kind: EventKind, now: Time)
    requires NotAfter(j, now)
    ensures LatestAt(j, kind).Some? ==> LatestAt(j, kind).value <= now
  {
    if j != [] {
      forall x | x in j[..|j| - 1] ensures x in j {}
      LatestBound(j[..|j| - 1], kind, now);
      assert j[|j| - 1] in j;
    }
  }

  /** The instants a terminal transition stores on the row. */
  ghost predicate Stamped(next: Execution, moved: Option<Event>, now: Time) {
    && (next.status == Canceled ==>
          moved.Some? && moved.value.kind == CanceledEvent && next.canceledAt == Some(now))
    && (next.status == Done ==>
          moved.Some? &&
          if next.requiresValidation then moved.value.kind == Validated && next.validatedAt == Some(now)
          else moved.value.kind == MarkedDone && next.markedDoneAt == Some(now))
  }

  lemma TerminalGrows(e: Execution, next: Execution, moved: Option<Event>, now: Time)
    requires NotAfter(e.journal, now)
    requires Grows(e, next, moved, now) && Stamped(next, moved, now)
    ensures TerminalInv(next)
  {
    if Finished(next.status) {
      var ev := moved.value;
      assert next.journal == e.journal + [ev];
      LastOfOne(ev, TerminalKinds);
      LastAppend(e.journal, [ev], TerminalKinds);
      assert next.journal[..|next.journal| - 1] == e.journal;
      LatestBound(e.journal, ev.kind, now);
    }
  }

  // ----- every transition is such a transaction -----

  predicate Moves(a: Action) { !a.DoSyncWindow? && !a.DoEdit? }

  function KindOf(a: Action): EventKind
    requires Moves(a)
  {
    match a
    case DoPromote => Started
    case DoMarkDone => MarkedDone
    case DoValidate => Validated
    case DoReopen => Reopened
    case DoCancel(_) => CanceledEvent
    case DoSyncCancel(_) => CanceledEvent
    case DoReactivate(_) => Reactivated
  }

  function ExtraOf(e: Execution, a: Action): Meta {
    match a
    case DoMarkDone => map[StartAt := MomentOf(e.startAt)]
    case DoCancel(_) => map[CancelOriginKey := OriginText(Manual)]
    case DoSyncCancel(_) => map[CancelOriginKey := OriginText(ScheduleSync)]
    case DoReactivate(_) => map[ReactivationOrigin := OriginText(ScheduleSync)]
    case _ => map[]
  }

  /** The transition event an action records, when it is not refused. */
  function MovedBy(e: Execution, a: Action, now: Time): Option<Event> {
    var next := Apply(e, a, now);
    if next == e || !Moves(a) then None
    else Some(Recorded(KindOf(a), now, ExtraOf(e, a) + TransitionMeta(next.status, next.endAt)))
  }

  lemma MovedTells(e: Execution, a: Action, now: Time)
    requires Apply(e, a, now) != e && Moves(a)
    ensures MovedBy(e, a, now).Some? && Tells(MovedBy(e, a, now).value, Apply(e, a, now), now)
  {
    var next := Apply(e, a, now);
    TransitionSurvives(KindOf(a), now, next.status, next.endAt, ExtraOf(e, a));
  }

  lemma ActionAppends(e: Execution, a: Action, now: Time)
    requires Apply(e, a, now) != e
    ensures var next := Apply(e, a, now);
            next.journal == e.journal + Added(MovedBy(e, a, now), e.endAt, next.endAt, now)
  {
    if a.DoReactivate? {
      ReactivateAppends(e, a, now);
    } else if Moves(a) {
      TransitionAppends(e, a, now);
    }
  }

  lemma TransitionAppends(e: Execution, a: Action, now: Time)
    requires Apply(e, a, now) != e && Moves(a) && !a.DoReactivate?
    ensures Apply(e, a, now).endAt == e.endAt
    ensures MovedBy(e, a, now).Some? && Apply(e, a, now).journal == e.journal + [MovedBy(e, a, now).value]
  {
    if a.DoCancel? || a.DoSyncCancel? {
      CancelAppends(e, a, now);
    } else {
      StepAppends(e, a, now);
    }
  }

  lemma CancelAppends(e: Execution, a: Action, now: Time)
    requires Apply(e, a, now) != e && (a.DoCancel? || a.DoSyncCancel?)
    ensures Apply(e, a, now).endAt == e.endAt
    ensures MovedBy(e, a, now).Some? && Apply(e, a, now).journal == e.journal + [MovedBy(e, a, now).value]
  {
  }

  lemma StepAppends(e: Execution, a: Action, now: Time)
    requires Apply(e, a, now) != e && (a.DoPromote? || a.DoMarkDone? || a.DoValidate? || a.DoReopen?)
    ensures Apply(e, a, now).endAt == e.endAt
    ensures MovedBy(e, a, now).Some? && Apply(e, a, now).journal == e.journal + [MovedBy(e, a, now).value]
  {
  }

  lemma ReactivateAppends(e: Execution, a: Action, now: Time)
    requires Apply(e, a, now) != e && a.DoReactivate?
    ensures var next := Apply(e, a, now);
            MovedBy(e, a, now).Some? &&
            next.journal == e.journal + [MovedBy(e, a, now).value] + DeadlineEvents(e.endAt, next.endAt, now)
  {
  }

  /** The statuses, stamps and deadlines a transition may leave behind. */
  ghost predicate MovesLegally(e: Execution, a: Action, now: Time) {
    var next, moved := Apply(e, a, now), MovedBy(e, a, now);
    && Stamped(next, moved, now)
    && (moved.None? ==> next.status == e.status && !Finished(next.status))
    && (moved.Some? ==>
          && Legal(e.status, next.status)
          && (Finished(next.status) ==> TerminalKinds.Has(moved.value.kind) && next.endAt == e.endAt)
          && (moved.value.kind == Started ==> next.endAt == e.endAt))
  }

  predicate ByPeople(a: Action) { a.DoMarkDone? || a.DoValidate? || a.DoReopen? || a.DoCancel? || a.DoEdit? }

  lemma PeopleMove(e: Execution, a: Action, now: Time)
    requires RowInv(e) && ByPeople(a) && Apply(e, a, now) != e
    ensures MovesLegally(e, a, now) && RowInv(Apply(e, a, now))
  {
  }

  lemma ClockMoves(e: Execution, a: Action, now: Time)
    requires RowInv(e) && (a.DoPromote? || a.DoSyncCancel?) && Apply(e, a, now) != e
    ensures MovesLegally(e, a, now) && RowInv(Apply(e, a, now))
  {
  }

  lemma WindowMoves(e: Execution, a: Action, now: Time)
    requires RowInv(e) && Sensible(a) && (a.DoReactivate? || a.DoSyncWindow?) && Apply(e, a, now) != e
    ensures MovesLegally(e, a, now) && RowInv(Apply(e, a, now))
  {
  }

  /** Every transition that is not refused is such a transaction. */
  lemma ApplyGrows(e: Execution, a: Action, now: Time)
    requires RowInv(e) && Sensible(a) && Apply(e, a, now) != e
    ensures Grows(e, Apply(e, a, now), MovedBy(e, a, now), now)
    ensures Stamped(Apply(e, a, now), MovedBy(e, a, now), now)
    ensures RowInv(Apply(e, a, now))
  {
    ActionAppends(e, a, now);
    if ByPeople(a) {
      PeopleMove(e, a, now);
    } else if a.DoReactivate? || a.DoSyncWindow? {
      WindowMoves(e, a, now);
    } else {
      ClockMoves(e, a, now);
    }
    if Moves(a) {
      MovedTells(e, a, now);
    }
  }

  lemma ApplyKeepsTold(e: Execution, a: Action, now: Time)
    requires Told(e) && Sensible(a) && NotAfter(e.journal, now)
    ensures Told(Apply(e, a, now)) && NotAfter(Apply(e, a, now).journal, now)
    ensures Apply(e, a, now) == e || TerminalInv(Apply(e, a, now))
  {
    var next, moved := Apply(e, a, now), MovedBy(e, a, now);
    if next != e {
      ApplyGrows(e, a, now);
      JournalGrows(e, next, moved, now);
      LegalGrows(e, next, moved, now);
      TerminalGrows(e, next, moved, now);
    }
  }

  /** One transaction, at any instant not before the last event, keeps the whole invariant. */
  lemma ApplyKeepsInv(e: Execution, a: Action, now: Time)
    requires Inv(e) && Sensible(a) && NotAfter(e.journal, now)
    ensures Inv(Apply(e, a, now)) && NotAfter(Apply(e, a, now).journal, now)
  {
    ApplyKeepsTold(e, a, now);
  }

  lemma NewExecutionInv(d: Draft, now: Time, createdAt: Time)
    requires Creatable(d)
    ensures Inv(NewExecution(d, now, createdAt)) && NotAfter(NewExecution(d, now, createdAt).journal, createdAt)
    ensures Agreeing(NewExecution(d, now, createdAt).journal)
    ensures NewExecution(d, now, createdAt).journal[0].at == createdAt
    ensures LastEnd(NewExecution(d, now, createdAt).journal, OpeningKinds) == d.endAt
  {
    NewRowInv(d, now, createdAt);
    var first, second := NewJournal(d, now, createdAt);
    ShapedJournal(NewExecution(d, now, createdAt), first, second, createdAt);
  }

  lemma NewJournal(d: Draft, now: Time, createdAt: Time) returns (first: Event, second: Event)
    ensures var e := NewExecution(d, now, createdAt);
            && Opened(e, first, second, createdAt)
            && e.journal == (if e.status == InProgress then [first, second] else [first])
            && !Finished(e.status) && e.endAt == d.endAt
  {
    var e := NewExecution(d, now, createdAt);
    first, second := FirstEvents(e, createdAt);
    if e.status == InProgress {
      assert e.journal == [first, second];
    } else {
      assert e.journal == [first];
    }
  }

  /** The events an execution opens with. */
  ghost predicate Opened(e: Execution, first: Event, second: Event, createdAt: Time) {
    && first.kind == Created && second.kind == Started && first.at == second.at == createdAt
    && StatusOf(first, None) == StatusOf(second, None) == Some(e.status)
    && EndOf(first) == EndOf(second) == e.endAt && EndAt in first.meta && EndAt in second.meta
  }

  lemma ShapedJournal(e: Execution, first: Event, second: Event, createdAt: Time)
    requires Opened(e, first, second, createdAt) && !Finished(e.status)
    requires e.journal == (if e.status == InProgress then [first, second] else [first])
    ensures JournalInv(e) && LegalHistory(e.journal) && Agreeing(e.journal) && NotAfter(e.journal, createdAt)
    ensures e.journal[0].at == createdAt && LastEnd(e.journal, OpeningKinds) == e.endAt
  {
    if e.status == InProgress {
      OpeningJournal(e, first, second);
    } else {
      SingleEventJournal(e, first);
    }
  }

  lemma FirstEvents(e: Execution, createdAt: Time) returns (first: Event, second: Event)
    ensures first == Recorded(Created, createdAt, map[InitialStatus := StatusText(e.status)] + TransitionMeta(e.status, e.endAt))
    ensures second == Recorded(Started, createdAt, map[] + TransitionMeta(e.status, e.endAt))
    ensures first.kind == Created && second.kind == Started && first.at == second.at == createdAt
    ensures StatusOf(first, None) == StatusOf(second, None) == Some(e.status)
    ensures EndOf(first) == EndOf(second) == e.endAt && EndAt in first.meta && EndAt in second.meta
  {
    var extra: Meta := map[InitialStatus := StatusText(e.status)];
    TransitionSurvives(Created, createdAt, e.status, e.endAt, extra);
    TransitionSurvives(Started, createdAt, e.status, e.endAt, map[]);
    first := Recorded(Created, createdAt, extra + TransitionMeta(e.status, e.endAt));
    second := Recorded(Started, createdAt, map[] + TransitionMeta(e.status, e.endAt));
  }

  lemma NewRowInv(d: Draft, now: Time, createdAt: Time)
    requires Creatable(d)
    ensures RowInv(NewExecution(d, now, createdAt)) && TerminalInv(NewExecution(d, now, createdAt))
  {
  }

  lemma SingleEventJournal(e: Execution, first: Event)
    requires e.journal == [first]
    requires OriginKinds.Has(first.kind) && StatusOf(first, None) == Some(e.status)
    requires EndOf(first) == e.endAt && EndAt in first.meta
    ensures JournalInv(e) && LegalHistory(e.journal) && Agreeing(e.journal)
    ensures LastEnd(e.journal, OpeningKinds) == e.endAt
  {
    LastOfOne(first, StatusKinds);
    LastOfOne(first, OpeningKinds);
    LastOfOne(first, DeadlineKinds);
    LastOfOne(first, TerminalKinds);
  }

  lemma OpeningJournal(e: Execution, first: Event, second: Event)
    requires e.journal == [first, second] && first.at == second.at
    requires first.kind == Created && second.kind == Started && e.status == InProgress
    requires StatusOf(first, None) == Some(InProgress) && StatusOf(second, None) == Some(InProgress)
    requires EndOf(first) == e.endAt && EndOf(second) == e.endAt && EndAt in first.meta && EndAt in second.meta
    ensures JournalInv(e) && LegalHistory(e.journal) && Agreeing(e.journal)
    ensures LastEnd(e.journal, OpeningKinds) == e.endAt
  {
    assert e.journal[..1] == [first];
    LastOfOne(first, StatusKinds);
    LastOfOne(first, DeadlineKinds);
  }

  // ----- whole runs -----

  /** From here on the journal is complete. */
  ghost predicate Journaled(e: Execution, createdAt: Time) {
    && Told(e) && NotAfter(e.journal, createdAt) && Agreeing(e.journal)
    && e.journal[0].at == createdAt
  }

  ghost predicate Began(e: Execution, createdAt: Time) {
    Journaled(e, createdAt) && TerminalInv(e)
  }

  /** An execution older than its journal gets one event that records where it stands. */
  function Baselined(e: Execution, at: Time): Execution {
    e.(journal := [BaselineOf(e, at)])
  }

  function BaselineOf(e: Execution, at: Time): Event {
    Recorded(HistoryBaseline, at, map[] + TransitionMeta(e.status, e.endAt))
  }

  /** From then on its journal is complete, and if it is not finished all that is proved of runs holds of it. */
  lemma BaselineBegins(e: Execution, at: Time)
    requires RowInv(e)
    ensures Journaled(Baselined(e, at), at)
    ensures Began(Baselined(e, at), at) <==> !Finished(e.status)
  {
    TransitionSurvives(HistoryBaseline, at, e.status, e.endAt, map[]);
    SingleEventJournal(Baselined(e, at), BaselineOf(e, at));
    LastOfOne(BaselineOf(e, at), TerminalKinds);
  }

  function LastInstant(createdAt: Time, steps: seq<Step>): Time {
    if steps == [] then createdAt else steps[|steps| - 1].now
  }

  lemma {:induction false} RunKeepsTold(e: Execution, createdAt: Time, steps: seq<Step>)
    requires Journaled(e, createdAt) && Clocked(createdAt, steps)
    ensures Told(Run(e, steps)) && NotAfter(Run(e, steps).journal, LastInstant(createdAt, steps))
  {
    if steps != [] {
      var front, last := steps[..|steps| - 1], steps[|steps| - 1];
      RunKeepsTold(e, createdAt, front);
      ApplyKeepsTold(Run(e, front), last.action, last.now);
    }
  }

  /** Every reachable row satisfies the invariant: its journal replays to exactly what it stores. */
  lemma {:induction false} RunKeepsInv(e: Execution, createdAt: Time, steps: seq<Step>)
    requires Began(e, createdAt) && Clocked(createdAt, steps)
    ensures Inv(Run(e, steps)) && NotAfter(Run(e, steps).journal, LastInstant(createdAt, steps))
  {
    if steps != [] {
      var front, last := steps[..|steps| - 1], steps[|steps| - 1];
      RunKeepsInv(e, createdAt, front);
      ApplyKeepsInv(Run(e, front), last.action, last.now);
    }
  }

  lemma {:induction false} RunAppend(e: Execution, s: seq<Step>, t: seq<Step>)
    ensures Run(e, s + t) == Run(Run(e, s), t)
  {
    if t == [] {
      assert s + t == s;
    } else {
      var front := t[..|t| - 1];
      assert (s + t)[..|s + t| - 1] == s + front;
      RunAppend(e, s, front);
    }
  }

  lemma ClockedAppend(createdAt: Time, s: seq<Step>, t: seq<Step>)
    requires Clocked(createdAt, s) && Clocked(LastInstant(createdAt, s), t)
    ensures Clocked(createdAt, s + t)
  {
  }

  lemma ApplyAppends(e: Execution, a: Action, now: Time) returns (added: seq<Event>)
    requires RowInv(e) && Sensible(a)
    ensures Apply(e, a, now).journal == e.journal + added
    ensures forall x :: x in added ==> x.at == now
    ensures Agreeing(added)
  {
    var next := Apply(e, a, now);
    if next == e {
      added := [];
    } else {
      ApplyGrows(e, a, now);
      added := Added(MovedBy(e, a, now), e.endAt, next.endAt, now);
      AddedShape(MovedBy(e, a, now), next, e.endAt, now);
    }
  }

  lemma AgreeingGrows(j: seq<Event>, added: seq<Event>, now: Time)
    requires Agreeing(j) && Agreeing(added)
    requires forall x :: x in j ==> x.at < now
    requires forall x :: x in added ==> x.at == now
    ensures Agreeing(j + added)
  {
  }

  lemma SameTail(j: seq<Event>, a: seq<Event>, b: seq<Event>)
    requires j + a == j + b
    ensures a == b
  {
    assert (j + a)[|j|..] == a && (j + b)[|j|..] == b;
  }

  /** Two writes in a row agree with what is older, and with each other if they share an instant. */
  lemma TwoWritesAgree(j: seq<Event>, a: seq<Event>, b: seq<Event>, t: Time, u: Time)
    requires Agreeing(j) && Agreeing(a) && Agreeing(b) && t <= u
    requires (forall x :: x in j ==> x.at < t) && (forall x :: x in a ==> x.at == t) && (forall x :: x in b ==> x.at == u)
    requires t == u ==> Agreeing(a + b)
    ensures Agreeing(j + a + b)
  {
    if t == u {
      AgreeingGrows(j, a + b, t);
      assert j + a + b == j + (a + b);
    } else {
      AgreeingGrows(j, a, t);
      AgreeingGrows(j + a, b, u);
    }
  }

  /** When transactions do not share instants, events that share one come from one transaction, and their order does not matter. */
  lemma {:induction false} RunAgrees(e: Execution, createdAt: Time, steps: seq<Step>)
    requires Journaled(e, createdAt) && Clocked(createdAt, steps) && Untied(createdAt, steps)
    ensures Agreeing(Run(e, steps).journal)
  {
    if steps != [] {
      var front, last := steps[..|steps| - 1], steps[|steps| - 1];
      RunAgrees(e, createdAt, front);
      RunKeepsTold(e, createdAt, front);
      assert LastInstant(createdAt, front) < last.now;
      var added := ApplyAppends(Run(e, front), last.action, last.now);
      AgreeingGrows(Run(e, front).journal, added, last.now);
    }
  }

  lemma {:induction false} UntilNothing(s: seq<Event>, at: Time)
    requires forall x :: x in s ==> at <= x.at
    ensures Until(s, at) == []
  {
    if s != [] {
      assert s[|s| - 1] in s;
      forall x | x in s[..|s| - 1] ensures x in s {}
      UntilNothing(s[..|s| - 1], at);
    }
  }

  /** The journal cut at an instant is the journal the row had then. */
  lemma {:induction false} CutIsPast(e: Execution, createdAt: Time, steps: seq<Step>, n: nat, at: Time)
    requires Journaled(e, createdAt) && Clocked(createdAt, steps)
    requires n <= |steps| && createdAt < at
    requires forall i :: 0 <= i < n ==> steps[i].now < at
    requires forall i :: n <= i < |steps| ==> at <= steps[i].now
    ensures Until(Run(e, steps).journal, at) == Run(e, steps[..n]).journal
  {
    if n == |steps| {
      assert steps[..n] == steps;
      RunKeepsTold(e, createdAt, steps);
      var j := Run(e, steps).journal;
      forall i | 0 <= i < |j| ensures j[i].at < at {
        assert j[i] in j;
      }
      UntilIsPrefix(j, |j|, at);
    } else {
      var front, last := steps[..|steps| - 1], steps[|steps| - 1];
      CutIsPast(e, createdAt, front, n, at);
      assert front[..n] == steps[..n];
      RunKeepsTold(e, createdAt, front);
      var added := ApplyAppends(Run(e, front), last.action, last.now);
      UntilAppend(Run(e, front).journal, added, at);
      UntilNothing(added, at);
    }
  }

  /** Where the run stood just before an instant. */
  ghost predicate StoodAt(steps: seq<Step>, n: nat, at: Time) {
    && n <= |steps|
    && (forall i :: 0 <= i < n ==> steps[i].now < at)
    && (forall i :: n <= i < |steps| ==> at <= steps[i].now)
  }

  /**
   However the rows are fetched, the status read is the one the row really had just before the
   instant: exactly when, in the journal it had then, every choice among the events tied in instant
   and type tells that status.
   */
  lemma StatusReaderIsRightExactly(e: Execution, createdAt: Time, steps: seq<Step>, n: nat, at: Time, reliableFrom: Time)
    requires Journaled(e, createdAt) && Clocked(createdAt, steps)
    requires StoodAt(steps, n, at) && createdAt < at && reliableFrom <= at
    ensures var row := Run(e, steps[..n]);
            && row.journal != []
            && (AlwaysReadsStatus(Run(e, steps).journal, at, reliableFrom, Some(row.status))
                <==> EveryChoiceTellsStatus(row.journal, at, Some(row.status)))
            && (EveryChoiceTellsStatus(row.journal, at, Some(row.status)) <==> GreatestTell(row.journal, at, Some(row.status)))
  {
    RunKeepsTold(e, createdAt, steps);
    FirstEventStays(e, createdAt, steps);
    CutIsPast(e, createdAt, steps, n, at);
    StatusReadsExactly(Run(e, steps).journal, at, reliableFrom, Some(Run(e, steps[..n]).status));
    PastDecides(Run(e, steps).journal, at, Some(Run(e, steps[..n]).status), None);
    StatusReadsByGreatest(Run(e, steps[..n]).journal, at, Some(Run(e, steps[..n]).status));
  }

  /** The same for the deadline. */
  lemma EndReaderIsRightExactly(e: Execution, createdAt: Time, steps: seq<Step>, n: nat, at: Time, reliableFrom: Time)
    requires Journaled(e, createdAt) && Clocked(createdAt, steps)
    requires StoodAt(steps, n, at) && createdAt < at && reliableFrom <= at
    ensures var row := Run(e, steps[..n]);
            && row.journal != []
            && (AlwaysReadsEnd(Run(e, steps).journal, at, reliableFrom, row.endAt)
                <==> EveryChoiceTellsEnd(row.journal, at, row.endAt))
  {
    RunKeepsTold(e, createdAt, steps);
    FirstEventStays(e, createdAt, steps);
    CutIsPast(e, createdAt, steps, n, at);
    EndReadsExactly(Run(e, steps).journal, at, reliableFrom, Run(e, steps[..n]).endAt);
    PastDecides(Run(e, steps).journal, at, None, Run(e, steps[..n]).endAt);
  }

  /** Where events that share an instant agree, the status reader is right. */
  lemma StatusReaderIsExact(e: Execution, createdAt: Time, steps: seq<Step>, n: nat,
                            events: seq<Event>, at: Time, reliableFrom: Time)
    requires Journaled(e, createdAt) && Clocked(createdAt, steps) && Agreeing(Run(e, steps).journal)
    requires StoodAt(steps, n, at) && createdAt < at && reliableFrom <= at
    requires SameEvents(events, Run(e, steps).journal)
    ensures StatusAt(at, reliableFrom, events) == Some(Run(e, steps[..n]).status)
  {
    RunKeepsTold(e, createdAt, steps);
    CutIsPast(e, createdAt, steps, n, at);
    RunKeepsTold(e, createdAt, steps[..n]);
    FirstEventStays(e, createdAt, steps);
    StatusReaderIsLastStatus(Run(e, steps).journal, events, at, reliableFrom);
  }

  lemma {:induction false} FirstEventStays(e: Execution, createdAt: Time, steps: seq<Step>)
    requires Journaled(e, createdAt) && Clocked(createdAt, steps)
    ensures Run(e, steps).journal != [] && Run(e, steps).journal[0].at == createdAt
  {
    if steps != [] {
      var front, last := steps[..|steps| - 1], steps[|steps| - 1];
      FirstEventStays(e, createdAt, front);
      RunKeepsTold(e, createdAt, front);
      var added := ApplyAppends(Run(e, front), last.action, last.now);
    }
  }

  /** The deadline recorded when the execution was created, or when it last started. */
  function OpeningEnd(j: seq<Event>): Option<Time> {
    LastEnd(j, OpeningKinds)
  }

  lemma EndInExact(e: Execution)
    requires EndsTell(e)
    ensures EndIn(e.journal, Some(e.status)) == e.endAt <==> e.endAt.Some? || OpeningEnd(e.journal).None?
    ensures e.endAt.None? ==> EndIn(e.journal, Some(e.status)) == OpeningEnd(e.journal)
  {
  }

  /**
   Where events that share an instant agree, the deadline reader is right unless the deadline was
   cleared after an opening event recorded one: a cleared deadline is read as that opening deadline.
   */
  lemma EndReaderIsExactUnlessCleared(e: Execution, createdAt: Time, steps: seq<Step>, n: nat,
                                      events: seq<Event>, at: Time, reliableFrom: Time)
    requires Journaled(e, createdAt) && Clocked(createdAt, steps) && Agreeing(Run(e, steps).journal)
    requires StoodAt(steps, n, at) && createdAt < at && reliableFrom <= at
    requires SameEvents(events, Run(e, steps).journal)
    ensures EndAtAt(at, reliableFrom, events) == Run(e, steps[..n]).endAt
            <==> Run(e, steps[..n]).endAt.Some? || OpeningEnd(Run(e, steps[..n]).journal).None?
    ensures Run(e, steps[..n]).endAt.None? ==>
              EndAtAt(at, reliableFrom, events) == OpeningEnd(Run(e, steps[..n]).journal)
  {
    RunKeepsTold(e, createdAt, steps);
    CutIsPast(e, createdAt, steps, n, at);
    RunKeepsTold(e, createdAt, steps[..n]);
    FirstEventStays(e, createdAt, steps);
    EndReaderIsLastEnds(Run(e, steps).journal, events, at, reliableFrom);
    EndInExact(Run(e, steps[..n]));
  }

  /** A one-step run on which the deadline reader is wrong. */
  lemma ClearedDeadlineIsMisread()
    ensures var draft := Draft(None, None, true, None, false, Some(1), Some(9), None, false);
            var e := NewExecution(draft, 2, 2);
            var steps := [Step(DoEdit(Edit(None, Some(None), None), false), 5)];
            && Creatable(draft) && Clocked(2, steps)
            && Run(e, steps).endAt == None
            && EndAtAt(6, 0, Run(e, steps).journal) == Some(9)
  {
    var draft := Draft(None, None, true, None, false, Some(1), Some(9), None, false);
    var e := NewExecution(draft, 2, 2);
    var row := Run(e, [Step(CLEAR, 5)]);
    OpensWithItsEnd(draft, 2);
    ClearedRow(e, 5);
    DeadlineKeepsOpening(e.journal, e.endAt, None, 5);
    BeginsNew(draft, 2);
    OneStepClocked(2, Step(CLEAR, 5));
    ReadAtEnd(e, 2, [Step(CLEAR, 5)], row, 6);
  }

  const CLEAR: Action := DoEdit(Edit(None, Some(None), None), false)

  lemma ClearedRow(e: Execution, now: Time)
    requires e.status == InProgress && !e.allDay
    ensures Run(e, [Step(CLEAR, now)]).endAt == None
    ensures Run(e, [Step(CLEAR, now)]).journal == e.journal + DeadlineEvents(e.endAt, None, now)
  {
    RunOfOne(e, Step(CLEAR, now));
  }

  lemma OpensWithItsEnd(d: Draft, createdAt: Time)
    requires Creatable(d)
    ensures OpeningEnd(NewExecution(d, createdAt, createdAt).journal) == d.endAt
  {
    NewExecutionInv(d, createdAt, createdAt);
  }

  lemma BeginsNew(d: Draft, createdAt: Time)
    requires Creatable(d)
    ensures Began(NewExecution(d, createdAt, createdAt), createdAt)
  {
    NewExecutionInv(d, createdAt, createdAt);
  }

  lemma OneStepClocked(createdAt: Time, step: Step)
    requires createdAt < step.now && Sensible(step.action)
    ensures Clocked(createdAt, [step]) && Untied(createdAt, [step]) && StoodAt([step], 1, step.now + 1)
  {
  }

  lemma ReadAtEnd(e: Execution, createdAt: Time, steps: seq<Step>, row: Execution, at: Time)
    requires Journaled(e, createdAt) && Clocked(createdAt, steps) && Untied(createdAt, steps)
    requires StoodAt(steps, |steps|, at) && 0 <= createdAt < at
    requires Run(e, steps) == row && row.endAt.None?
    ensures EndAtAt(at, 0, row.journal) == OpeningEnd(row.journal)
  {
    assert steps[..|steps|] == steps;
    RunAgrees(e, createdAt, steps);
    EndReaderIsExactUnlessCleared(e, createdAt, steps, |steps|, row.journal, at, 0);
  }

  lemma RunOfOne(e: Execution, step: Step)
    ensures Run(e, [step]) == Apply(e, step.action, step.now)
  {
    assert [step][..0] == [];
    assert Run(e, [step][..0]) == e;
  }

  lemma DeadlineKeepsOpening(j: seq<Event>, fromEnd: Option<Time>, toEnd: Option<Time>, now: Time)
    ensures OpeningEnd(j + DeadlineEvents(fromEnd, toEnd, now)) == OpeningEnd(j)
  {
    LastAppend(j, DeadlineEvents(fromEnd, toEnd, now), OpeningKinds);
    if fromEnd != toEnd {
      DeadlineEventTells(fromEnd, toEnd, now);
      var d := DeadlineEvents(fromEnd, toEnd, now)[0];
      assert DeadlineEvents(fromEnd, toEnd, now) == [d];
      LastOfOne(d, OpeningKinds);
    }
  }

  // ----- runs whose transactions share an instant -----

  const RETRIED: seq<Step> := [Step(DoMarkDone, 5), Step(DoReopen, 6), Step(DoMarkDone, 6)]

  lemma RunOfTwo(e: Execution, a: Step, b: Step)
    ensures Run(e, [a, b]) == Apply(Apply(e, a.action, a.now), b.action, b.now)
  {
    assert [a, b][..1] == [a];
    RunOfOne(e, a);
  }

  lemma RunOfThree(e: Execution, a: Step, b: Step, c: Step)
    ensures Run(e, [a, b, c]) == Apply(Apply(Apply(e, a.action, a.now), b.action, b.now), c.action, c.now)
  {
    assert [a, b, c][..2] == [a, b];
    RunOfTwo(e, a, b);
  }

  lemma MarkingAppends(e: Execution, now: Time) returns (ev: Event)
    requires e.status == InProgress && e.requiresValidation
    ensures MarkDone(e, now).journal == e.journal + [ev] && ev.at == now && ev.kind == MarkedDone
    ensures MarkDone(e, now).status == PendingValidation && MarkDone(e, now).requiresValidation
  {
    ev := Recorded(MarkedDone, now, map[StartAt := MomentOf(e.startAt)] + TransitionMeta(PendingValidation, e.endAt));
  }

  lemma ReopeningAppends(e: Execution, now: Time) returns (ev: Event)
    requires e.status == PendingValidation && e.requiresValidation
    ensures Reopen(e, now).journal == e.journal + [ev] && ev.at == now && ev.kind == Reopened
    ensures StatusOf(ev, None) == Some(InProgress)
    ensures Reopen(e, now).status == InProgress && Reopen(e, now).requiresValidation
  {
    TransitionSurvives(Reopened, now, InProgress, e.endAt, map[]);
    ev := Recorded(Reopened, now, map[] + TransitionMeta(InProgress, e.endAt));
  }

  /** What the two transactions at instant 6 record, and what they leave. */
  lemma RetriedRow(e: Execution) returns (marked: Event, reopened: Event, again: Event)
    requires e.status == InProgress && e.requiresValidation
    ensures Run(e, RETRIED).journal == e.journal + [marked, reopened, again]
    ensures Run(e, RETRIED).status == PendingValidation
    ensures marked.at == 5 && reopened.at == again.at == 6
    ensures marked.kind == again.kind == MarkedDone && reopened.kind == Reopened && StatusOf(reopened, None) == Some(InProgress)
  {
    RunOfThree(e, Step(DoMarkDone, 5), Step(DoReopen, 6), Step(DoMarkDone, 6));
    marked := MarkingAppends(e, 5);
    reopened := ReopeningAppends(MarkDone(e, 5), 6);
    again := MarkingAppends(Reopen(MarkDone(e, 5), 6), 6);
    assert e.journal + [marked] + [reopened] + [again] == e.journal + [marked, reopened, again];
  }

  /** A run that leaves one status and is read as another, in whatever order the events are fetched. */
  ghost predicate MisreadsStatus(e: Execution, createdAt: Time, steps: seq<Step>, at: Time, status: Status, told: Status) {
    && Clocked(createdAt, steps) && StoodAt(steps, |steps|, at) && status != told
    && Run(e, steps).status == status && AlwaysReadsStatus(Run(e, steps).journal, at, createdAt, Some(told))
  }

  /**
   A run on which the status reader is wrong, in whatever order the rows are fetched: among events of
   one instant the type decides, and a reopening sorts after the marking that followed it.
   */
  lemma TiedStatusIsMisread() returns (draft: Draft, e: Execution)
    ensures Creatable(draft) && e == NewExecution(draft, 2, 2)
    ensures MisreadsStatus(e, 2, RETRIED, 7, PendingValidation, InProgress)
  {
    draft := Draft(None, None, true, None, true, Some(1), None, None, false);
    e := OpensInProgress(draft, 2);
    RetriedIsMisread(e);
  }

  lemma RetriedIsMisread(e: Execution)
    requires Began(e, 2) && e.status == InProgress && e.requiresValidation
    ensures MisreadsStatus(e, 2, RETRIED, 7, PendingValidation, InProgress)
  {
    var marked, reopened, again := RetriedRow(e);
    RetriedClocked();
    ReopenedIsRead(e, RETRIED, marked, reopened, again);
  }

  lemma RetriedClocked()
    ensures Clocked(2, RETRIED) && StoodAt(RETRIED, |RETRIED|, 7)
  {
  }

  lemma ReopenedIsRead(e: Execution, steps: seq<Step>, marked: Event, reopened: Event, again: Event)
    requires Journaled(e, 2) && Clocked(2, steps) && StoodAt(steps, |steps|, 7)
    requires Run(e, steps).journal == e.journal + [marked, reopened, again] && Run(e, steps).status == PendingValidation
    requires marked.at == 5 && reopened.at == again.at == 6
    requires marked.kind == again.kind == MarkedDone && reopened.kind == Reopened && StatusOf(reopened, None) == Some(InProgress)
    ensures MisreadsStatus(e, 2, steps, 7, PendingValidation, InProgress)
  {
    RunKeepsTold(e, 2, steps);
    FirstEventStays(e, 2, steps);
    ReopeningSortsLast(Run(e, steps).journal, e.journal, marked, reopened, again);
    StatusReadsExactly(Run(e, steps).journal, 7, 2, Some(InProgress));
  }

  lemma ReopeningSortsLast(j: seq<Event>, prior: seq<Event>, marked: Event, reopened: Event, again: Event)
    requires j == prior + [marked, reopened, again] && prior != [] && NotAfter(prior, 2)
    requires marked.at == 5 && reopened.at == again.at == 6
    requires marked.kind == again.kind == MarkedDone && reopened.kind == Reopened && StatusOf(reopened, None) == Some(InProgress)
    ensures EveryChoiceTellsStatus(j, 7, Some(InProgress))
  {
    assert j[|prior| + 1] == reopened && j[0] in prior;
    assert MovedSince(j, 7);
    forall h | Greatest(j, 7, h) ensures h == reopened {
      assert SortsBefore(reopened, h);
      assert h in prior ==> h.at <= 2;
    }
    StatusReadsByGreatest(j, 7, Some(InProgress));
  }

  const TO_EIGHT := Edit(None, Some(Some(8)), None)
  const TO_SEVEN := Edit(None, Some(Some(7)), None)
  const MOVED_TWICE: seq<Step> := [Step(DoEdit(TO_EIGHT, false), 5), Step(DoEdit(TO_SEVEN, false), 5)]

  lemma EditAppends(e: Execution, to: Time, now: Time) returns (ev: Event)
    requires e.status == InProgress && !e.allDay && e.startAt.Some? && e.startAt.value < to && e.endAt != Some(to)
    ensures var next := EditContent(e, Edit(None, Some(Some(to)), None), false, now);
            && next.journal == e.journal + [ev] && next.endAt == Some(to)
            && next.status == InProgress && !next.allDay && next.startAt == e.startAt
    ensures ev.at == now && ev.kind == DeadlineChanged && EndOf(ev) == Some(to)
  {
    DeadlineEventTells(e.endAt, Some(to), now);
    ev := DeadlineEvents(e.endAt, Some(to), now)[0];
  }

  lemma MovedTwiceRow(e: Execution) returns (first: Event, second: Event)
    requires e.status == InProgress && !e.allDay && e.startAt == Some(1) && e.endAt == Some(9)
    ensures Run(e, MOVED_TWICE).journal == e.journal + [first, second] && Run(e, MOVED_TWICE).endAt == Some(7)
    ensures first.at == second.at == 5 && first.kind == second.kind == DeadlineChanged && EndOf(first) == Some(8)
  {
    RunOfTwo(e, Step(DoEdit(TO_EIGHT, false), 5), Step(DoEdit(TO_SEVEN, false), 5));
    first := EditAppends(e, 8, 5);
    second := EditAppends(EditContent(e, TO_EIGHT, false, 5), 7, 5);
    assert e.journal + [first] + [second] == e.journal + [first, second];
  }

  lemma OpensInProgress(d: Draft, now: Time) returns (e: Execution)
    requires Creatable(d) && StartingStatus(d.startAt, now) == InProgress
    ensures e == NewExecution(d, now, now)
    ensures Began(e, now) && e.status == InProgress && (forall x :: x in e.journal ==> StatusOf(x, None) == Some(InProgress))
    ensures e.requiresValidation == d.requiresValidation && e.allDay == d.allDay && e.startAt == d.startAt && e.endAt == d.endAt
  {
    e := NewExecution(d, now, now);
    NewExecutionInv(d, now, now);
    var first, second := NewJournal(d, now, now);
  }

  /** A run that leaves a deadline which not every order of fetching reads back. */
  ghost predicate MayMisreadEnd(e: Execution, createdAt: Time, steps: seq<Step>, at: Time, endAt: Option<Time>) {
    && Clocked(createdAt, steps) && StoodAt(steps, |steps|, at)
    && Run(e, steps).endAt == endAt && !AlwaysReadsEnd(Run(e, steps).journal, at, createdAt, endAt)
  }

  /** A run on which the deadline read depends on the order in which two tied changes are fetched. */
  lemma TiedDeadlineMayBeMisread() returns (draft: Draft, e: Execution)
    ensures Creatable(draft) && e == NewExecution(draft, 2, 2)
    ensures MayMisreadEnd(e, 2, MOVED_TWICE, 6, Some(7))
  {
    draft := Draft(None, None, true, None, false, Some(1), Some(9), None, false);
    e := OpensInProgress(draft, 2);
    MovedTwiceIsMisread(e);
  }

  lemma MovedTwiceIsMisread(e: Execution)
    requires Began(e, 2) && e.status == InProgress && !e.allDay && e.startAt == Some(1) && e.endAt == Some(9)
    requires forall x :: x in e.journal ==> StatusOf(x, None) == Some(InProgress)
    ensures MayMisreadEnd(e, 2, MOVED_TWICE, 6, Some(7))
  {
    var first, second := MovedTwiceRow(e);
    MovedTwiceClocked();
    EitherChangeIsRead(e, MOVED_TWICE, first, second);
  }

  lemma MovedTwiceClocked()
    ensures Clocked(2, MOVED_TWICE) && StoodAt(MOVED_TWICE, |MOVED_TWICE|, 6)
  {
  }

  lemma EitherChangeIsRead(e: Execution, steps: seq<Step>, first: Event, second: Event)
    requires Journaled(e, 2) && Clocked(2, steps) && StoodAt(steps, |steps|, 6)
    requires Run(e, steps).journal == e.journal + [first, second] && Run(e, steps).endAt == Some(7)
    requires first.at == second.at == 5 && first.kind == second.kind == DeadlineChanged && EndOf(first) == Some(8)
    requires forall x :: x in e.journal ==> StatusOf(x, None) == Some(InProgress)
    ensures MayMisreadEnd(e, 2, steps, 6, Some(7))
  {
    RunKeepsTold(e, 2, steps);
    FirstEventStays(e, 2, steps);
    EitherChangeMayDecide(Run(e, steps).journal, e.journal, first, second);
    EndReadsExactly(Run(e, steps).journal, 6, 2, Some(7));
  }

  lemma EitherChangeMayDecide(j: seq<Event>, prior: seq<Event>, first: Event, second: Event)
    requires j == prior + [first, second] && prior != [] && NotAfter(prior, 2)
    requires first.at == second.at == 5 && first.kind == second.kind == DeadlineChanged && EndOf(first) == Some(8)
    requires forall x :: x in prior ==> StatusOf(x, None) == Some(InProgress)
    ensures !EveryChoiceTellsEnd(j, 6, Some(7))
  {
    var c := Preferring(j, first);
    assert j[|prior|] == first;
    PreferringChooses(j, first);
    FirstChangeIsPicked(j, prior, first, second);
    StatusUntouched(j, prior, first, second, c);
    assert EndBy(j, 6, c) == Some(8);
  }

  lemma FirstChangeIsPicked(j: seq<Event>, prior: seq<Event>, first: Event, second: Event)
    requires j == prior + [first, second] && NotAfter(prior, 2)
    requires first.at == second.at == 5 && first.kind == second.kind == DeadlineChanged
    ensures Pick(j, 6, DeadlineKinds, Preferring(j, first)) == Some(first)
  {
    assert j[|prior|] == first;
    TopIsGreatest(j, 6, DeadlineKinds);
    assert SortsBefore(first, Top(j, 6, DeadlineKinds).value);
  }

  lemma StatusUntouched(j: seq<Event>, prior: seq<Event>, first: Event, second: Event, c: Choice)
    requires j == prior + [first, second] && prior != [] && first.kind == second.kind == DeadlineChanged
    requires forall x :: x in prior ==> StatusOf(x, None) == Some(InProgress)
    requires Chooses(c, j)
    ensures StatusBy(j, 6, c) == Some(InProgress)
  {
    assert j[0] in prior;
    TopIsGreatest(j, 6, StatusKinds);
    var top := Top(j, 6, StatusKinds);
    if top.Some? {
      assert Chosen(c, top.value) in j && SameKey(Chosen(c, top.value), top.value);
    }
  }

  // ----- terminal rows -----

  function Coalesce(a: Option<Time>, b: Option<Time>): Option<Time> { if a.Some? then a else b }

  /** The terminal instant the history list annotates. */
  function TerminalAt(e: Execution): Option<Time> {
    if e.status == Canceled then Coalesce(e.canceledAt, LatestAt(e.journal, CanceledEvent))
    else if e.status == Done && e.validatedAt.Some? then e.validatedAt
    else if e.status == Done && !e.requiresValidation && e.markedDoneAt.Some? then e.markedDoneAt
    else if e.status == Done && e.requiresValidation then LatestAt(e.journal, Validated)
    else if e.status == Done && !e.requiresValidation then LatestAt(e.journal, MarkedDone)
    else None
  }

  datatype DateSource = FromField | FromEvent | UnknownSource

  function TerminalDateSource(e: Execution): DateSource {
    if e.status == Canceled && e.canceledAt.Some? then FromField
    else if e.status == Done && (e.validatedAt.Some? || (!e.requiresValidation && e.markedDoneAt.Some?)) then FromField
    else if TerminalAt(e).Some? then FromEvent
    else UnknownSource
  }

  /** The event type the history list falls back on when the stored field is null. */
  function FallbackKind(e: Execution): EventKind {
    if e.status == Canceled then CanceledEvent else if e.requiresValidation then Validated else MarkedDone
  }

  /** Exactly the finished rows have a terminal instant; field and journal agree on it. */
  lemma TerminalInstantAgrees(e: Execution, createdAt: Time, steps: seq<Step>)
    requires Began(e, createdAt) && Clocked(createdAt, steps)
    ensures var r := Run(e, steps);
            && (TerminalAt(r).Some? <==> Finished(r.status))
            && (Finished(r.status) ==>
                  && TerminalDateSource(r) == FromField
                  && TerminalAt(r) == LatestAt(r.journal, FallbackKind(r)))
  {
    RunKeepsInv(e, createdAt, steps);
  }

  /** A done or manually canceled execution never changes again, whatever is attempted on it. */
  lemma {:induction false} FinishedIsFinal(e: Execution, steps: seq<Step>)
    requires e.status == Done || (e.status == Canceled && e.cancelOrigin == Some(Manual))
    ensures Run(e, steps) == e
  {
    if steps != [] {
      FinishedIsFinal(e, steps[..|steps| - 1]);
    }
  }

  /** An execution canceled by its schedule was never started, marked done or validated. */
  lemma SyncCanceledNeverBegan(e: Execution, createdAt: Time, steps: seq<Step>)
    requires Began(e, createdAt) && Clocked(createdAt, steps)
    requires SyncCanceled(Run(e, steps))
    ensures var r := Run(e, steps); r.startedAt.None? && r.markedDoneAt.None? && r.validatedAt.None?
  {
    RunKeepsInv(e, createdAt, steps);
  }
}
