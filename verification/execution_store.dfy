/**
 The execution table with its journal, and the service transactions on it.  Each
 method locks one row, checks it, rewrites the stored fields, and appends to the
 journal; a raised error discards the transaction.  Every new state is a function
 of the lifecycle, so all that is proved of runs holds of the table.
 */
module ExecutionStore {
  import opened Core
  import opened Journal
  import opened Lifecycle
  import opened LifecycleLaws
  import opened Schedules

  datatype Refusal = Missing | WrongState | NotAllowed | Invalid | Conflict(active: Id)

  type Table = map<Id, Execution>

  /** The instants a synchronisation reads: shared ones, and one per written row. */
  datatype SyncReadings = SyncReadings(asOf: Time, listedFirst: Time, promotedFirst: Id -> Time, writtenAt: Id -> Time,
                                       listedLast: Time, promotedLast: Id -> Time) {
    function For(id: Id): SyncClock {
      SyncClock(asOf, listedFirst, promotedFirst(id), writtenAt(id), listedLast, promotedLast(id))
    }
  }

  predicate LinkedTo(e: Execution, s: Schedule) { e.scheduleId == Some(s.id) }

  function DueOf(executions: Table, s: Schedule, listedAt: Time): set<Id> {
    set id | id in executions && LinkedTo(executions[id], s) && IsDue(executions[id], listedAt)
  }

  /** The rows of `due` that are not pending any more have been promoted, and no other. */
  ghost predicate PartPromoted(before: Table, after: Table, due: set<Id>, pending: set<Id>, clock: Id -> Time) {
    && (forall id :: id in after <==> id in before)
    && (forall id :: id in after ==>
          after[id] == if id in due && id !in pending then Promote(before[id], clock(id)) else before[id])
  }

  lemma PromotesNext(before: Table, after: Table, due: set<Id>, pending: set<Id>, clock: Id -> Time, id: Id)
    requires PartPromoted(before, after, due, pending, clock) && id in pending && pending <= due && id in before
    ensures after[id] == before[id]
    ensures PartPromoted(before, after[id := Promote(before[id], clock(id))], due, pending - {id}, clock)
  {
  }

  method NewEvent(kind: EventKind, at: Time, meta: Meta) returns (ev: Event)
    ensures ev == Recorded(kind, at, meta)
  {
    var safe := SanitizeMetadata(meta);
    ev := Event(kind, at, safe);
  }

  method WithDeadlineChanged(e: Execution, fromEnd: Option<Time>, at: Time) returns (next: Execution)
    ensures next == RecordDeadline(e, fromEnd, at)
  {
    if fromEnd == e.endAt {
      assert e.journal + [] == e.journal;
      return e;
    }
    var ev := NewEvent(DeadlineChanged, at, DeadlineMeta(fromEnd, e.endAt));
    next := e.(journal := e.journal + [ev]);
  }

  class Store {
    var executions: Table

    constructor ()
      ensures executions == map[]
    {
      executions := map[];
    }

    method WriteNew(id: Id, d: Draft, owner: Option<Id>, now: Time, createdAt: Time) returns (status: Status)
      requires owner == if d.useSharedChronology then None else d.owner
      modifies this
      ensures status == NewExecution(d, now, createdAt).status
      ensures executions == old(executions)[id := NewExecution(d, now, createdAt)]
    {
      status := StartingStatus(d.startAt, now);
      var startedAt := if status == InProgress then Some(now) else None;
      var ev := NewEvent(Created, createdAt,
                         map[InitialStatus := StatusText(status)] + TransitionMeta(status, d.endAt));
      var e := Execution(
        d.scheduleId, d.occurrenceDate, d.useSharedChronology, owner, d.requiresValidation, status,
        d.startAt, d.endAt, d.visibleFrom, d.allDay, startedAt, None, None, None, None, None, None, None, now, [ev]);
      assert [] + [ev] == [ev];
      if status == InProgress {
        ev := NewEvent(Started, createdAt, map[] + TransitionMeta(status, d.endAt));
        e := e.(journal := e.journal + [ev]);
      }
      executions := executions[id := e];
    }

    method Create(id: Id, d: Draft, now: Time, createdAt: Time) returns (r: Result<Status, Refusal>)
      modifies this
      ensures r == if Creatable(d) then Ok(NewExecution(d, now, createdAt).status) else Err(Invalid)
      ensures executions == if r.Ok? then old(executions)[id := NewExecution(d, now, createdAt)] else old(executions)
      ensures (r.Ok? <==> MayCreate(d)) && (r.Ok? ==> IsNew(d, executions[id], now, createdAt))
    {
      CreationTable(d, now, createdAt);
      var owner := d.owner;
      if d.useSharedChronology {
        owner := None;
      } else if owner.None? {
        return Err(Invalid);
      }
      if !EndAfterStart(d.startAt, d.endAt) || !AllDayClosed(d.allDay, d.startAt, d.endAt) {
        return Err(Invalid);
      }
      var status := WriteNew(id, d, owner, now, createdAt);
      return Ok(status);
    }

    method MarkDone(id: Id, allowed: bool, now: Time) returns (r: Result<(), Refusal>)
      modifies this
      ensures r == if id !in old(executions) then Err(Missing)
                   else if old(executions[id]).status != InProgress then Err(WrongState)
                   else if !allowed then Err(NotAllowed) else Ok(())
      ensures executions ==
              if r.Ok? then old(executions)[id := Lifecycle.MarkDone(old(executions[id]), now)] else old(executions)
      ensures r.Ok? ==> IsMarkedDone(old(executions[id]), executions[id], now)
    {
      if id !in executions {
        return Err(Missing);
      }
      var e := executions[id];
      if e.status != InProgress {
        return Err(WrongState);
      }
      if !allowed {
        return Err(NotAllowed);
      }
      MarkingTable(e, now);
      var extra: Meta := map[StartAt := MomentOf(e.startAt)];
      e := e.(markedDoneAt := Some(now), lastActivityAt := Max(e.lastActivityAt, now));
      if e.requiresValidation {
        var pending := NewEvent(MarkedDone, now, extra + TransitionMeta(PendingValidation, e.endAt));
        executions := executions[id := e.(status := PendingValidation, journal := e.journal + [pending])];
        return Ok(());
      }
      var done := NewEvent(MarkedDone, now, extra + TransitionMeta(Done, e.endAt));
      executions := executions[id := e.(status := Done, journal := e.journal + [done])];
      return Ok(());
    }

    /** The stars and the length of the comment are checked before anything is written. */
    method Validate(id: Id, allowed: bool, stars: int, commentFits: bool, reviewed: bool, now: Time)
      returns (r: Result<(), Refusal>)
      modifies this
      ensures r == if id !in old(executions) then Err(Missing)
                   else if old(executions[id]).status != PendingValidation then Err(WrongState)
                   else if !allowed then Err(NotAllowed)
                   else if !(0 <= stars <= 5) || !commentFits then Err(Invalid)
                   else if reviewed then Err(WrongState) else Ok(())
      ensures executions ==
              if r.Ok? then old(executions)[id := Lifecycle.Validate(old(executions[id]), now)] else old(executions)
      ensures r.Ok? ==> IsValidated(old(executions[id]), executions[id], now)
    {
      if id !in executions {
        return Err(Missing);
      }
      var e := executions[id];
      if e.status != PendingValidation {
        return Err(WrongState);
      }
      if !allowed {
        return Err(NotAllowed);
      }
      if stars < 0 || stars > 5 || !commentFits {
        return Err(Invalid);
      }
      if reviewed {
        return Err(WrongState);
      }
      ValidationTable(e, now);
      e := e.(status := Done, validatedAt := Some(now), lastActivityAt := Max(e.lastActivityAt, now));
      var ev := NewEvent(Validated, now, map[] + TransitionMeta(Done, e.endAt));
      executions := executions[id := e.(journal := e.journal + [ev])];
      return Ok(());
    }

    method Reopen(id: Id, allowed: bool, now: Time) returns (r: Result<(), Refusal>)
      modifies this
      ensures r == if id !in old(executions) then Err(Missing)
                   else if old(executions[id]).status != PendingValidation then Err(WrongState)
                   else if !allowed then Err(NotAllowed) else Ok(())
      ensures executions ==
              if r.Ok? then old(executions)[id := Lifecycle.Reopen(old(executions[id]), now)] else old(executions)
      ensures r.Ok? ==> IsReopened(old(executions[id]), executions[id], now)
    {
      if id !in executions {
        return Err(Missing);
      }
      var e := executions[id];
      if e.status != PendingValidation {
        return Err(WrongState);
      }
      if !allowed {
        return Err(NotAllowed);
      }
      ReopeningTable(e, now);
      e := e.(status := InProgress, markedDoneAt := None, validatedAt := None);
      e := e.(canceledAt := None, canceledBy := None, cancelOrigin := None);
      e := e.(reopenedAt := Some(now), lastActivityAt := Max(e.lastActivityAt, now));
      var ev := NewEvent(Reopened, now, map[] + TransitionMeta(InProgress, e.endAt));
      executions := executions[id := e.(journal := e.journal + [ev])];
      return Ok(());
    }

    method WriteCanceled(id: Id, actor: Option<Id>, origin: CancelOrigin, now: Time)
      requires id in executions
      modifies this
      ensures executions == old(executions)[id := CanceledRow(old(executions[id]), actor, origin, now)]
    {
      var e := executions[id];
      e := e.(status := Canceled, canceledAt := Some(now), canceledBy := actor, cancelOrigin := Some(origin));
      e := e.(lastActivityAt := Max(e.lastActivityAt, now));
      var ev := NewEvent(CanceledEvent, now, map[CancelOriginKey := OriginText(origin)] + TransitionMeta(Canceled, e.endAt));
      executions := executions[id := e.(journal := e.journal + [ev])];
    }

    method Cancel(id: Id, actor: Id, allowed: bool, now: Time) returns (r: Result<(), Refusal>)
      modifies this
      ensures r == if id !in old(executions) then Err(Missing)
                   else if Finished(old(executions[id]).status) then Err(WrongState)
                   else if !allowed then Err(NotAllowed) else Ok(())
      ensures executions ==
              if r.Ok? then old(executions)[id := CancelManually(old(executions[id]), Some(actor), now)]
              else old(executions)
      ensures r.Ok? ==> IsCanceled(old(executions[id]), executions[id], Some(actor), Manual, now)
    {
      if id !in executions {
        return Err(Missing);
      }
      if Finished(executions[id].status) {
        return Err(WrongState);
      }
      if !allowed {
        return Err(NotAllowed);
      }
      CancelingTable(executions[id], Some(actor), Manual, now);
      WriteCanceled(id, Some(actor), Manual, now);
      return Ok(());
    }

    /** Resolving a signal cancels the executions linked to it that still block it, and no other. */
    method CancelForResolvedSignal(linked: set<Id>, now: Time)
      modifies this
      ensures executions.Keys == old(executions.Keys)
      ensures forall id :: id in executions ==>
                executions[id] == if id in linked then CancelManually(old(executions[id]), None, now) else old(executions[id])
    {
      var pending := set id | id in linked && id in executions && !Finished(executions[id].status);
      ghost var blocking := pending;
      while pending != {}
        invariant pending <= blocking
        invariant executions.Keys == old(executions.Keys)
        invariant forall id :: id in executions ==>
                    executions[id] == if id in blocking && id !in pending then CancelManually(old(executions[id]), None, now)
                                      else old(executions[id])
        decreases pending
      {
        var id :| id in pending;
        pending := pending - {id};
        WriteCanceled(id, None, Manual, now);
      }
    }

    /** Re-reads the row under its lock; another worker may have moved it since it was listed. */
    method PromoteOne(id: Id, now: Time) returns (promoted: bool)
      modifies this
      ensures promoted == (id in old(executions) && IsDue(old(executions[id]), now))
      ensures executions == if promoted then old(executions)[id := Promote(old(executions[id]), now)] else old(executions)
    {
      if id !in executions || !IsDue(executions[id], now) {
        return false;
      }
      var e := executions[id];
      e := e.(status := InProgress, startedAt := Some(now), lastActivityAt := Max(e.lastActivityAt, now));
      var ev := NewEvent(Started, now, map[] + TransitionMeta(InProgress, e.endAt));
      executions := executions[id := e.(journal := e.journal + [ev])];
      return true;
    }

    /** Promotes one after the other, counting. */
    method PromoteEach(due: set<Id>, clock: Id -> Time) returns (count: nat)
      requires forall id :: id in due ==> id in executions && IsDue(executions[id], clock(id))
      modifies this
      ensures executions.Keys == old(executions.Keys) && count == |due|
      ensures forall id :: id in executions ==>
                executions[id] == if id in due then Promote(old(executions[id]), clock(id)) else old(executions[id])
    {
      count := 0;
      var pending := due;
      while pending != {}
        invariant pending <= due && count + |pending| == |due|
        invariant PartPromoted(old(executions), executions, due, pending, clock)
        decreases pending
      {
        var id :| id in pending;
        PromotesNext(old(executions), executions, due, pending, clock, id);
        var promoted := PromoteOne(id, clock(id));
        pending := pending - {id};
        if promoted {
          count := count + 1;
        }
      }
    }

    /** All due executions of one schedule, without the cap of the periodic tick. */
    method PromoteDueForSchedule(s: Schedule, listedAt: Time, clock: Id -> Time) returns (count: nat)
      requires forall id :: listedAt <= clock(id)
      modifies this
      ensures executions.Keys == old(executions.Keys)
      ensures forall id :: id in executions ==>
                executions[id] == if LinkedTo(old(executions[id]), s)
                                  then PromoteListed(old(executions[id]), listedAt, clock(id)) else old(executions[id])
      ensures count == |DueOf(old(executions), s, listedAt)|
    {
      count := PromoteEach(DueOf(executions, s, listedAt), clock);
    }

    method ReactivateOne(z: Zone, s: Schedule, id: Id, now: Time)
      requires id in executions && SyncCanceled(executions[id]) && executions[id].occurrenceDate.Some?
      modifies this
      ensures executions == old(executions)[id :=
                Reactivate(old(executions[id]), Occurrence(z, s, old(executions[id]).occurrenceDate.value), now)]
    {
      var e := executions[id];
      var w := Occurrence(z, s, e.occurrenceDate.value);
      var previousEndAt := e.endAt;
      e := e.(status := StartingStatus(Some(w.startAt), now), canceledAt := None, canceledBy := None, cancelOrigin := None);
      e := e.(reactivatedAt := Some(now));
      if e.status == Scheduled {
        e := e.(startedAt := None);
      }
      e := e.(startAt := Some(w.startAt), endAt := Some(w.endAt), visibleFrom := Some(w.visibleFrom), allDay := w.allDay);
      e := e.(lastActivityAt := Max(e.lastActivityAt, now));
      var ev := NewEvent(Reactivated, now,
                         map[ReactivationOrigin := OriginText(ScheduleSync)] + TransitionMeta(e.status, e.endAt));
      e := e.(journal := e.journal + [ev]);
      e := WithDeadlineChanged(e, previousEndAt, now);
      executions := executions[id := e];
    }

    method SyncWindowOne(z: Zone, s: Schedule, id: Id, now: Time)
      requires id in executions && executions[id].occurrenceDate.Some?
      modifies this
      ensures var e := old(executions[id]);
              var w := Occurrence(z, s, e.occurrenceDate.value);
              executions == old(executions)[id :=
                RecordDeadline(if e.endAt != Some(w.endAt) then Touched(WithWindow(e, w), now) else WithWindow(e, w), e.endAt, now)]
    {
      var e := executions[id];
      var w := Occurrence(z, s, e.occurrenceDate.value);
      var previousEndAt := e.endAt;
      e := e.(startAt := Some(w.startAt), endAt := Some(w.endAt), visibleFrom := Some(w.visibleFrom), allDay := w.allDay);
      if previousEndAt != Some(w.endAt) {
        e := e.(lastActivityAt := Max(e.lastActivityAt, now));
      }
      e := WithDeadlineChanged(e, previousEndAt, now);
      executions := executions[id := e];
    }

    method ReconcileOne(z: Zone, s: Schedule, id: Id, asOf: Time, now: Time)
      requires id in executions
      modifies this
      ensures executions == old(executions)[id := Reconciled(z, s, old(executions[id]), asOf, now)]
    {
      var e := executions[id];
      if e.status == Canceled {
        if CanReactivate(s, e, asOf) {
          ReactivateOne(z, s, id, now);
        }
        return;
      }
      if Classify(e, asOf) != FutureNotStarted {
        return;
      }
      if !s.useSharedChronology && e.owner.Some? && e.owner.value !in Members(s) {
        WriteCanceled(id, None, ScheduleSync, now);
        return;
      }
      if !HasValidDate(s, e) {
        WriteCanceled(id, None, ScheduleSync, now);
        return;
      }
      SyncWindowOne(z, s, id, now);
    }

    method ReconcileAll(z: Zone, s: Schedule, asOf: Time, clock: Id -> Time)
      modifies this
      ensures executions.Keys == old(executions.Keys)
      ensures forall id :: id in executions ==>
                executions[id] == if LinkedTo(old(executions[id]), s)
                                  then Reconciled(z, s, old(executions[id]), asOf, clock(id)) else old(executions[id])
    {
      var pending := set id | id in executions && LinkedTo(executions[id], s);
      ghost var linked := pending;
      while pending != {}
        invariant pending <= linked
        invariant executions.Keys == old(executions.Keys)
        invariant forall id :: id in executions ==>
                    executions[id] == if id in linked && id !in pending
                                      then Reconciled(z, s, old(executions[id]), asOf, clock(id)) else old(executions[id])
        decreases pending
      {
        var id :| id in pending;
        pending := pending - {id};
        ReconcileOne(z, s, id, asOf, clock(id));
      }
    }

    /** Brings every execution of a schedule in line with it, and leaves all others alone. */
    method SyncAfterUpdate(z: Zone, s: Schedule, t: SyncReadings)
      requires forall id :: Ticking(t.For(id))
      modifies this
      ensures executions.Keys == old(executions.Keys)
      ensures forall id :: id in executions ==>
                executions[id] == if LinkedTo(old(executions[id]), s) then Synced(z, s, old(executions[id]), t.For(id))
                                  else old(executions[id])
    {
      forall id ensures t.listedFirst <= t.promotedFirst(id) && t.listedLast <= t.promotedLast(id) {
        assert Ticking(t.For(id));
      }
      ghost var before := executions;
      var _ := PromoteDueForSchedule(s, t.listedFirst, t.promotedFirst);
      ghost var promoted := executions;
      ReconcileAll(z, s, t.asOf, t.writtenAt);
      ghost var reconciled := executions;
      var _ := PromoteDueForSchedule(s, t.listedLast, t.promotedLast);
      forall id | id in executions
        ensures executions[id] == if LinkedTo(before[id], s) then Synced(z, s, before[id], t.For(id)) else before[id]
      {
        SyncKeepsLink(z, s, before[id], t.For(id));
        assert promoted[id] == if LinkedTo(before[id], s) then PromoteListed(before[id], t.listedFirst, t.promotedFirst(id)) else before[id];
        assert reconciled[id] == if LinkedTo(promoted[id], s) then Reconciled(z, s, promoted[id], t.asOf, t.writtenAt(id)) else promoted[id];
      }
    }

    static method Earliest(table: Table, ids: set<Id>) returns (first: Id)
      requires ids != {} && forall id :: id in ids ==> id in table && table[id].startAt.Some?
      ensures first in ids && forall id :: id in ids ==> table[first].startAt.value <= table[id].startAt.value
    {
      first :| first in ids;
      var rest := ids - {first};
      while rest != {}
        invariant rest <= ids && first in ids
        invariant forall id :: id in ids && id !in rest ==> table[first].startAt.value <= table[id].startAt.value
        decreases |rest|
      {
        var id :| id in rest;
        rest := rest - {id};
        if table[id].startAt.value < table[first].startAt.value {
          first := id;
        }
      }
    }

    method CancelAhead(s: Schedule, asOf: Time, clock: Id -> Time)
      modifies this
      ensures executions.Keys == old(executions.Keys)
      ensures forall id :: id in executions ==>
                executions[id] == if LinkedTo(old(executions[id]), s)
                                  then CancelBySync(old(executions[id]), asOf, clock(id)) else old(executions[id])
    {
      var pending := set id | id in executions && LinkedTo(executions[id], s) && IsFuture(executions[id], asOf);
      ghost var ahead := pending;
      while pending != {}
        invariant pending <= ahead
        invariant executions.Keys == old(executions.Keys)
        invariant forall id :: id in executions ==>
                    executions[id] == if id in ahead && id !in pending
                                      then CancelBySync(old(executions[id]), asOf, clock(id)) else old(executions[id])
        decreases pending
      {
        var id :| id in pending;
        pending := pending - {id};
        WriteCanceled(id, None, ScheduleSync, clock(id));
      }
    }

    /** Promotes, refuses while something of the schedule has started unless told not to, then cancels the rest. */
    method Deactivate(s: Schedule, allowStarted: bool, asOf: Time, listedAt: Time, promotedAt: Id -> Time, writtenAt: Id -> Time)
      returns (r: Result<Schedule, Refusal>)
      requires asOf <= listedAt && forall id :: listedAt <= promotedAt(id)
      modifies this
      ensures r.Err? <==> (!allowStarted && exists id :: id in old(executions) && HasStarted(old(executions[id]), s, asOf))
      ensures r.Err? ==> (executions == old(executions) && r.error.Conflict? && r.error.active in executions
                          && FirstToStart(executions, s, asOf, r.error.active))
      ensures r.Ok? ==> (r.value == s.(active := false) && executions.Keys == old(executions.Keys))
      ensures r.Ok? ==> forall id :: id in executions ==>
                executions[id] == if LinkedTo(old(executions[id]), s)
                                  then Deactivated(old(executions[id]), asOf, listedAt, promotedAt(id), writtenAt(id))
                                  else old(executions[id])
    {
      var saved := executions;
      var _ := PromoteDueForSchedule(s, listedAt, promotedAt);
      var started := set id | id in executions && HasStarted(executions[id], s, asOf);
      PromotionsKeepStarted(saved, executions, s, asOf, listedAt, promotedAt);
      if !allowStarted && started != {} {
        var active := Earliest(executions, started);
        executions := saved;
        return Err(Conflict(active));
      }
      assert forall id :: id in saved && HasStarted(saved[id], s, asOf) ==> id in started;
      CancelAhead(s, asOf, writtenAt);
      return Ok(s.(active := false));
    }
  }

  lemma PromotionKeepsStarted(e: Execution, s: Schedule, asOf: Time, listedAt: Time, now: Time)
    ensures HasStarted(PromoteListed(e, listedAt, now), s, asOf) == HasStarted(e, s, asOf)
    ensures PromoteListed(e, listedAt, now).startAt == e.startAt
    ensures LinkedTo(PromoteListed(e, listedAt, now), s) == LinkedTo(e, s)
  {
  }

  lemma PromotionsKeepStarted(before: Table, after: Table, s: Schedule, asOf: Time, listedAt: Time, promotedAt: Id -> Time)
    requires forall id :: id in after <==> id in before
    requires forall id :: id in after ==>
               after[id] == if LinkedTo(before[id], s) then PromoteListed(before[id], listedAt, promotedAt(id)) else before[id]
    ensures forall id :: id in before ==>
              && HasStarted(after[id], s, asOf) == HasStarted(before[id], s, asOf) && after[id].startAt == before[id].startAt
              && LinkedTo(after[id], s) == LinkedTo(before[id], s)
  {
    forall id | id in before
      ensures HasStarted(after[id], s, asOf) == HasStarted(before[id], s, asOf) && after[id].startAt == before[id].startAt
      ensures LinkedTo(after[id], s) == LinkedTo(before[id], s) {
      PromotionKeepsStarted(before[id], s, asOf, listedAt, promotedAt(id));
    }
  }

  predicate HasStarted(e: Execution, s: Schedule, asOf: Time) {
    && LinkedTo(e, s)
    && (e.status == Scheduled || e.status == InProgress)
    && e.startAt.Some? && e.startAt.value <= asOf
  }

  /** An unfinished execution of the schedule whose start has come, promoted or not, and that awaits no validation. */
  lemma StartedExactly(e: Execution, s: Schedule, asOf: Time)
    ensures LinkedTo(e, s) <==> e.scheduleId.Some? && e.scheduleId.value == s.id
    ensures HasStarted(e, s, asOf) <==>
            && e.scheduleId.Some? && e.scheduleId.value == s.id && !Finished(e.status) && e.status != PendingValidation
            && e.startAt.Some? && !(asOf < e.startAt.value)
  {
  }

  /** A started execution of the schedule, and none that started before it. */
  ghost predicate FirstToStart(executions: Table, s: Schedule, asOf: Time, active: Id) {
    && active in executions && HasStarted(executions[active], s, asOf)
    && forall id :: id in executions && HasStarted(executions[id], s, asOf) ==>
         executions[active].startAt.value <= executions[id].startAt.value
  }

  lemma SyncKeepsLink(z: Zone, s: Schedule, e: Execution, c: SyncClock)
    ensures var promoted := PromoteListed(e, c.listedFirst, c.promotedFirst);
            && promoted.scheduleId == e.scheduleId
            && Reconciled(z, s, promoted, c.asOf, c.writtenAt).scheduleId == e.scheduleId
    ensures Reconciled(z, s, e, c.asOf, c.writtenAt).scheduleId == e.scheduleId
  {
    var promoted := PromoteListed(e, c.listedFirst, c.promotedFirst);
    ReconcilingKeepsLink(z, s, e, c.asOf, c.writtenAt);
    ReconcilingKeepsLink(z, s, promoted, c.asOf, c.writtenAt);
  }

  lemma ReconcilingKeepsLink(z: Zone, s: Schedule, e: Execution, asOf: Time, now: Time)
    ensures Reconciled(z, s, e, asOf, now).scheduleId == e.scheduleId
  {
    CancelKeepsLink(e, asOf, now);
    if e.occurrenceDate.Some? {
      WindowsKeepLink(e, Occurrence(z, s, e.occurrenceDate.value), asOf, now);
    }
  }

  lemma CancelKeepsLink(e: Execution, asOf: Time, now: Time)
    ensures CancelBySync(e, asOf, now).scheduleId == e.scheduleId
  {
  }

  lemma WindowsKeepLink(e: Execution, w: Window, asOf: Time, now: Time)
    ensures Reactivate(e, w, now).scheduleId == e.scheduleId && SyncWindow(e, w, asOf, now).scheduleId == e.scheduleId
  {
  }
}
