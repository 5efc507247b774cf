/** Recurring schedules, the dates they cover, and how an update is carried to their executions. */
module Schedules {
  import opened Core
  import opened Journal
  import opened Lifecycle
  import opened LifecycleTheorems

  /** One hour, in microseconds. */
  const VISIBLE_FROM_OFFSET: Time := 3_600_000_000

  datatype Assignee = Assignee(member: Id, unit: Id)

  datatype Schedule = Schedule(
    id: Id,
    active: bool,
    useSharedChronology: bool,
    startDate: Date,
    endDate: Date,
    startTime: int,
    endTime: int,
    allDay: bool,
    weekdays: set<int>,
    assignees: seq<Assignee>)

  /** How an establishment turns a civil date and a wall-clock time into an instant. */
  datatype Zone = Zone(instant: (Date, int) -> Time)

  /** A validated schedule ends each occurrence after it starts it. */
  ghost predicate Opens(z: Zone, s: Schedule) {
    forall d: Date :: z.instant(d, s.startTime) < z.instant(d, s.endTime)
  }

  function Members(s: Schedule): set<Id> {
    set i | 0 <= i < |s.assignees| :: s.assignees[i].member
  }

  /** Monday is 0; ordinal 1 is a Monday. */
  function Weekday(d: Date): int { (d + 6) % 7 }

  predicate OccursOn(s: Schedule, d: Date) {
    s.startDate <= d <= s.endDate && Weekday(d) in s.weekdays
  }

  function Occurrence(z: Zone, s: Schedule, d: Date): Window {
    var start := z.instant(d, s.startTime);
    Window(start, z.instant(d, s.endTime), start - VISIBLE_FROM_OFFSET, s.allDay)
  }

  // ----- the dates of a schedule -----

  /** The matching dates of a closed interval, in order. */
  function DatesBetween(s: Schedule, from: Date, until: Date): seq<Date>
    decreases until - from
  {
    if from > until then []
    else (if Weekday(from) in s.weekdays then [from] else []) + DatesBetween(s, from + 1, until)
  }

  function OccurrenceDates(s: Schedule, from: Date, until: Date): seq<Date> {
    DatesBetween(s, Max(from, s.startDate), Min(until, s.endDate))
  }

  lemma {:induction false} DatesBetweenExact(s: Schedule, from: Date, until: Date)
    ensures var dates := DatesBetween(s, from, until);
            && (forall d :: d in dates <==> from <= d <= until && Weekday(d) in s.weekdays)
            && (forall i, j :: 0 <= i < j < |dates| ==> dates[i] < dates[j])
    decreases until - from
  {
    if from <= until {
      DatesBetweenExact(s, from + 1, until);
      var rest := DatesBetween(s, from + 1, until);
      forall i | 0 <= i < |rest| ensures from < rest[i] {
        assert rest[i] in rest;
      }
    }
  }

  /** Complete, sound and strictly increasing. */
  lemma OccurrenceDatesExact(s: Schedule, from: Date, until: Date)
    ensures var dates := OccurrenceDates(s, from, until);
            && (forall d :: d in dates <==> OccursOn(s, d) && from <= d <= until)
            && (forall i, j :: 0 <= i < j < |dates| ==> dates[i] < dates[j])
  {
    DatesBetweenExact(s, Max(from, s.startDate), Min(until, s.endDate));
  }

  lemma {:induction false} DatesBetweenSplit(s: Schedule, from: Date, mid: Date, until: Date)
    requires from <= mid <= until + 1
    ensures DatesBetween(s, from, until) == DatesBetween(s, from, mid - 1) + DatesBetween(s, mid, until)
    decreases mid - from
  {
    if from < mid {
      DatesBetweenSplit(s, from + 1, mid, until);
    }
  }

  /** A schedule without recurrence days is refused. */
  method IterOccurrenceDates(s: Schedule, from: Date, until: Date) returns (r: Result<seq<Date>, Error>)
    ensures r == if s.weekdays == {} then Err(ValidationError) else Ok(OccurrenceDates(s, from, until))
  {
    if s.weekdays == {} {
      return Err(ValidationError);
    }
    var startBound := Max(from, s.startDate);
    var endBound := Min(until, s.endDate);
    if startBound > endBound {
      return Ok([]);
    }
    var dates: seq<Date> := [];
    var current := startBound;
    while current <= endBound
      invariant startBound <= current <= endBound + 1
      invariant dates == DatesBetween(s, startBound, current - 1)
    {
      DatesBetweenSplit(s, startBound, current, current);
      assert DatesBetween(s, current, current) == if Weekday(current) in s.weekdays then [current] else [] by {
        assert DatesBetween(s, current + 1, current) == [];
      }
      if Weekday(current) in s.weekdays {
        dates := dates + [current];
      }
      current := current + 1;
    }
    return Ok(dates);
  }

  // ----- carrying an update to one execution -----

  predicate HasCurrentOwner(s: Schedule, e: Execution) {
    s.useSharedChronology || e.owner.None? || e.owner.value in Members(s)
  }

  predicate HasValidDate(s: Schedule, e: Execution) {
    e.occurrenceDate.Some? && OccursOn(s, e.occurrenceDate.value)
  }

  predicate CanReactivate(s: Schedule, e: Execution, asOf: Time) {
    && SyncCanceled(e)
    && HasValidDate(s, e)
    && e.startAt.Some? && asOf < e.startAt.value
    && (!s.useSharedChronology ==> e.owner.Some? && e.owner.value in Members(s))
  }

  /** The instants one synchronisation reads for one of its executions, in the order it reads them. */
  datatype SyncClock = SyncClock(asOf: Time, listedFirst: Time, promotedFirst: Time, writtenAt: Time,
                                 listedLast: Time, promotedLast: Time)

  predicate Ticking(c: SyncClock) {
    c.asOf <= c.listedFirst <= c.promotedFirst <= c.writtenAt <= c.listedLast <= c.promotedLast
  }

  /** Promotion lists the due rows first and re-reads the clock for each of them. */
  function PromoteListed(e: Execution, listedAt: Time, now: Time): Execution {
    if IsDue(e, listedAt) then Promote(e, now) else e
  }

  datatype Classification = Terminal | ActiveStarted | ActivePendingValidation | FutureNotStarted

  function Classify(e: Execution, now: Time): Classification {
    match e.status
    case Done => Terminal
    case Canceled => Terminal
    case PendingValidation => ActivePendingValidation
    case InProgress => ActiveStarted
    case Scheduled =>
      if e.startAt.None? || now >= e.startAt.value then ActiveStarted else FutureNotStarted
  }

  /** Ahead is only what is scheduled and starts later; what should have started by now is protected like what has. */
  lemma ClassifyExactly(e: Execution, now: Time)
    ensures Classify(e, now) == FutureNotStarted <==> IsFuture(e, now)
    ensures Classify(e, now) == ActiveStarted <==> e.status == InProgress || (e.status == Scheduled && !IsFuture(e, now))
    ensures Classify(e, now) == ActivePendingValidation <==> e.status == PendingValidation
    ensures Classify(e, now) == Terminal <==> e.status == Done || e.status == Canceled
  {
  }

  /** What the synchronisation does with one row between the two promotions. */
  function Reconciled(z: Zone, s: Schedule, e: Execution, asOf: Time, now: Time): Execution {
    if e.status == Canceled then
      if CanReactivate(s, e, asOf) then Reactivate(e, Occurrence(z, s, e.occurrenceDate.value), now) else e
    else if Classify(e, asOf) != FutureNotStarted then e
    else if !HasCurrentOwner(s, e) || !HasValidDate(s, e) then CancelBySync(e, asOf, now)
    else SyncWindow(e, Occurrence(z, s, e.occurrenceDate.value), asOf, now)
  }

  function Synced(z: Zone, s: Schedule, e: Execution, c: SyncClock): Execution {
    var promoted := PromoteListed(e, c.listedFirst, c.promotedFirst);
    var reconciled := Reconciled(z, s, promoted, c.asOf, c.writtenAt);
    PromoteListed(reconciled, c.listedLast, c.promotedLast)
  }

  /** Every status change a synchronisation makes is one of the lifecycle's own transactions. */
  lemma SyncKeepsInv(z: Zone, s: Schedule, e: Execution, c: SyncClock)
    requires Inv(e) && NotAfter(e.journal, c.asOf) && Ticking(c) && Opens(z, s)
    ensures Inv(Synced(z, s, e, c)) && NotAfter(Synced(z, s, e, c).journal, c.promotedLast)
  {
    PromoteListedKeepsInv(e, c.listedFirst, c.promotedFirst, c.asOf);
    var promoted := PromoteListed(e, c.listedFirst, c.promotedFirst);
    ReconciledKeepsInv(z, s, promoted, c.asOf, c.promotedFirst, c.writtenAt);
    PromoteListedKeepsInv(Reconciled(z, s, promoted, c.asOf, c.writtenAt), c.listedLast, c.promotedLast, c.writtenAt);
  }

  lemma PromoteListedKeepsInv(e: Execution, listedAt: Time, now: Time, last: Time)
    requires Inv(e) && NotAfter(e.journal, last) && last <= now
    ensures Inv(PromoteListed(e, listedAt, now)) && NotAfter(PromoteListed(e, listedAt, now).journal, now)
  {
    ApplyKeepsInv(e, DoPromote, now);
  }

  /** The lifecycle action a reconciliation amounts to; a refused one when it does nothing. */
  ghost function ReconcilingAction(z: Zone, s: Schedule, e: Execution, asOf: Time): Action {
    if e.status == Canceled then
      if CanReactivate(s, e, asOf) then DoReactivate(Occurrence(z, s, e.occurrenceDate.value)) else DoSyncCancel(asOf)
    else if Classify(e, asOf) != FutureNotStarted || !HasCurrentOwner(s, e) || !HasValidDate(s, e) then DoSyncCancel(asOf)
    else DoSyncWindow(Occurrence(z, s, e.occurrenceDate.value), asOf)
  }

  lemma ReconciledIsAction(z: Zone, s: Schedule, e: Execution, asOf: Time, now: Time)
    ensures Reconciled(z, s, e, asOf, now) == Apply(e, ReconcilingAction(z, s, e, asOf), now)
  {
  }

  lemma ReconciledKeepsInv(z: Zone, s: Schedule, e: Execution, asOf: Time, last: Time, now: Time)
    requires Inv(e) && NotAfter(e.journal, last) && last <= now && Opens(z, s)
    ensures Inv(Reconciled(z, s, e, asOf, now)) && NotAfter(Reconciled(z, s, e, asOf, now).journal, now)
  {
    ReconciledIsAction(z, s, e, asOf, now);
    ApplyKeepsInv(e, ReconcilingAction(z, s, e, asOf), now);
  }

  // ----- a synchronisation is part of a run -----

  function PromoteSteps(e: Execution, listedAt: Time, now: Time): seq<Step> {
    if IsDue(e, listedAt) then [Step(DoPromote, now)] else []
  }

  /** The transactions a synchronisation makes on one row. */
  ghost function SyncSteps(z: Zone, s: Schedule, e: Execution, c: SyncClock): seq<Step> {
    var promoted := PromoteListed(e, c.listedFirst, c.promotedFirst);
    PromoteSteps(e, c.listedFirst, c.promotedFirst)
    + [Step(ReconcilingAction(z, s, promoted, c.asOf), c.writtenAt)]
    + PromoteSteps(Reconciled(z, s, promoted, c.asOf, c.writtenAt), c.listedLast, c.promotedLast)
  }

  lemma PromoteStepsRun(e: Execution, listedAt: Time, now: Time)
    ensures Run(e, PromoteSteps(e, listedAt, now)) == PromoteListed(e, listedAt, now)
  {
    RunOfOne(e, Step(DoPromote, now));
  }

  lemma SyncIsRun(z: Zone, s: Schedule, e: Execution, c: SyncClock)
    requires Ticking(c) && Opens(z, s)
    ensures Run(e, SyncSteps(z, s, e, c)) == Synced(z, s, e, c) && Clocked(c.asOf, SyncSteps(z, s, e, c))
  {
    var promoted := PromoteListed(e, c.listedFirst, c.promotedFirst);
    var middle := Step(ReconcilingAction(z, s, promoted, c.asOf), c.writtenAt);
    var reconciled := Reconciled(z, s, promoted, c.asOf, c.writtenAt);
    var first, last := PromoteSteps(e, c.listedFirst, c.promotedFirst), PromoteSteps(reconciled, c.listedLast, c.promotedLast);
    PromoteStepsRun(e, c.listedFirst, c.promotedFirst);
    ReconciledIsAction(z, s, promoted, c.asOf, c.writtenAt);
    RunThrough(e, first, middle, last);
    PromoteStepsRun(reconciled, c.listedLast, c.promotedLast);
    ThreeClocked(c, first, middle, last);
  }

  lemma RunThrough(e: Execution, first: seq<Step>, middle: Step, last: seq<Step>)
    ensures Run(e, first + [middle] + last) == Run(Apply(Run(e, first), middle.action, middle.now), last)
  {
    RunAppend(e, first, [middle]);
    RunOfOne(Run(e, first), middle);
    RunAppend(e, first + [middle], last);
  }

  lemma ThreeClocked(c: SyncClock, first: seq<Step>, middle: Step, last: seq<Step>)
    requires Ticking(c) && Sensible(middle.action) && middle.now == c.writtenAt
    requires first == [] || first == [Step(DoPromote, c.promotedFirst)]
    requires last == [] || last == [Step(DoPromote, c.promotedLast)]
    ensures Clocked(c.asOf, first + [middle] + last)
  {
  }

  /** A row that a run leaves and a synchronisation then carries over is the row of a longer run. */
  lemma SyncExtendsRun(e: Execution, createdAt: Time, steps: seq<Step>, z: Zone, s: Schedule, c: SyncClock)
    requires Clocked(createdAt, steps) && LastInstant(createdAt, steps) <= c.asOf && Ticking(c) && Opens(z, s)
    ensures var all := steps + SyncSteps(z, s, Run(e, steps), c);
            Clocked(createdAt, all) && Run(e, all) == Synced(z, s, Run(e, steps), c)
  {
    var more := SyncSteps(z, s, Run(e, steps), c);
    SyncIsRun(z, s, Run(e, steps), c);
    RunAppend(e, steps, more);
    ClockedAppend(createdAt, steps, more);
  }

  /** The events a synchronisation writes agree wherever they share an instant, even one of its own. */
  lemma SyncAgrees(z: Zone, s: Schedule, e: Execution, c: SyncClock)
    requires Inv(e) && Agreeing(e.journal) && (forall x :: x in e.journal ==> x.at < c.asOf)
    requires Ticking(c) && Opens(z, s)
    ensures Agreeing(Synced(z, s, e, c).journal)
  {
    if IsDue(e, c.listedFirst) {
      var added := ApplyAppends(e, DoPromote, c.promotedFirst);
      AgreeingGrows(e.journal, added, c.promotedFirst);
    } else {
      ReconciledIsAction(z, s, e, c.asOf, c.writtenAt);
      var added := ApplyAppends(e, ReconcilingAction(z, s, e, c.asOf), c.writtenAt);
      AgreeingGrows(e.journal, added, c.writtenAt);
      var reconciled := Reconciled(z, s, e, c.asOf, c.writtenAt);
      if IsDue(reconciled, c.listedLast) {
        ReconciledKeepsInv(z, s, e, c.asOf, c.asOf, c.writtenAt);
        var started := ApplyAppends(reconciled, DoPromote, c.promotedLast);
        if c.writtenAt == c.promotedLast {
          TiedEventsAgree(z, s, e, c, reconciled, added, started);
        }
        TwoWritesAgree(e.journal, added, started, c.writtenAt, c.promotedLast);
      }
    }
  }

  /** A window moved to the past is the only write a promotion can follow in the same instant. */
  lemma TiedEventsAgree(z: Zone, s: Schedule, e: Execution, c: SyncClock, reconciled: Execution,
                        added: seq<Event>, started: seq<Event>)
    requires Inv(e) && Ticking(c) && Opens(z, s) && c.writtenAt == c.promotedLast
    requires !IsDue(e, c.listedFirst) && reconciled == Reconciled(z, s, e, c.asOf, c.writtenAt)
    requires RowInv(reconciled) && reconciled.journal == e.journal + added && IsDue(reconciled, c.listedLast)
    requires Promote(reconciled, c.promotedLast).journal == reconciled.journal + started
    ensures Agreeing(added + started)
  {
    OnlyWindowMoved(z, s, e, c.asOf, c.writtenAt);
    WindowAppends(e, Occurrence(z, s, e.occurrenceDate.value), c.asOf, c.writtenAt);
    SameTail(e.journal, added, DeadlineEvents(e.endAt, reconciled.endAt, c.writtenAt));
    PromotionAppends(reconciled, c.promotedLast);
    SameTail(reconciled.journal, started,
             [Recorded(Started, c.promotedLast, map[] + TransitionMeta(InProgress, reconciled.endAt))]);
    DeadlineThenStart(e.endAt, reconciled.endAt, c.writtenAt);
  }

  lemma OnlyWindowMoved(z: Zone, s: Schedule, e: Execution, asOf: Time, now: Time)
    requires RowInv(e) && asOf <= now && !IsDue(e, asOf)
    requires IsDue(Reconciled(z, s, e, asOf, now), now)
    ensures IsFuture(e, asOf) && e.occurrenceDate.Some?
    ensures Reconciled(z, s, e, asOf, now) == SyncWindow(e, Occurrence(z, s, e.occurrenceDate.value), asOf, now)
  {
  }

  lemma WindowAppends(e: Execution, w: Window, asOf: Time, now: Time)
    requires IsFuture(e, asOf) && e.occurrenceDate.Some?
    ensures SyncWindow(e, w, asOf, now).journal == e.journal + DeadlineEvents(e.endAt, SyncWindow(e, w, asOf, now).endAt, now)
  {
  }

  lemma PromotionAppends(e: Execution, now: Time)
    requires IsDue(e, now)
    ensures Promote(e, now).journal == e.journal + [Recorded(Started, now, map[] + TransitionMeta(InProgress, e.endAt))]
  {
  }

  lemma DeadlineThenStart(fromEnd: Option<Time>, toEnd: Option<Time>, now: Time)
    ensures Agreeing(DeadlineEvents(fromEnd, toEnd, now) + [Recorded(Started, now, map[] + TransitionMeta(InProgress, toEnd))])
  {
    TransitionSurvives(Started, now, InProgress, toEnd, map[]);
    if fromEnd != toEnd {
      DeadlineEventTells(fromEnd, toEnd, now);
    }
  }

  // ----- what a synchronisation guarantees -----

  predicate SameWindow(e: Execution, f: Execution) {
    e.startAt == f.startAt && e.endAt == f.endAt && e.visibleFrom == f.visibleFrom && e.allDay == f.allDay
  }

  predicate FitsWindow(e: Execution, w: Window) {
    e.startAt == Some(w.startAt) && e.endAt == Some(w.endAt) && e.visibleFrom == Some(w.visibleFrom) && e.allDay == w.allDay
  }

  /**
   Started, pending, done and manually canceled executions are not touched, except that a due one
   is promoted inside its own window.
   */
  lemma SyncPreservesStarted(z: Zone, s: Schedule, e: Execution, c: SyncClock)
    requires RowInv(e) && Ticking(c)
    requires !SyncCanceled(e) && !IsFuture(e, c.listedFirst)
    ensures var r := Synced(z, s, e, c);
            && SameWindow(r, e)
            && (e.status == Scheduled ==> r.status == InProgress && r.startedAt == Some(c.promotedFirst))
            && (e.status != Scheduled ==> r == e)
  {
  }

  /** The same row for its schedule: same date, same owner. */
  predicate SameSlot(e: Execution, f: Execution) {
    e.occurrenceDate == f.occurrenceDate && e.owner == f.owner
  }

  lemma ReactivatedFits(e: Execution, w: Window, now: Time)
    requires SyncCanceled(e) && e.occurrenceDate.Some?
    ensures FitsWindow(Reactivate(e, w, now), w) && SameSlot(Reactivate(e, w, now), e)
  {
  }

  lemma SyncedWindowFits(e: Execution, w: Window, asOf: Time, now: Time)
    requires IsFuture(e, asOf) && e.occurrenceDate.Some?
    ensures FitsWindow(SyncWindow(e, w, asOf, now), w) && SameSlot(SyncWindow(e, w, asOf, now), e)
  {
  }

  /** What reconciling leaves scheduled is right. */
  lemma ReconciledScheduledRight(z: Zone, s: Schedule, e: Execution, asOf: Time, now: Time)
    requires RowInv(e) && !IsDue(e, asOf)
    requires Reconciled(z, s, e, asOf, now).status == Scheduled
    ensures var r := Reconciled(z, s, e, asOf, now);
            HasValidDate(s, r) && HasCurrentOwner(s, r) && FitsWindow(r, Occurrence(z, s, r.occurrenceDate.value))
  {
    if e.status == Canceled {
      ReactivatedFits(e, Occurrence(z, s, e.occurrenceDate.value), now);
    } else if HasCurrentOwner(s, e) && HasValidDate(s, e) {
      SyncedWindowFits(e, Occurrence(z, s, e.occurrenceDate.value), asOf, now);
    }
  }

  /** Everything still scheduled is on a valid date, currently owned, in its computed window, and ahead. */
  lemma SyncLeavesScheduledRight(z: Zone, s: Schedule, e: Execution, c: SyncClock)
    requires RowInv(e) && Ticking(c)
    requires Synced(z, s, e, c).status == Scheduled
    ensures var r := Synced(z, s, e, c);
            && HasValidDate(s, r) && HasCurrentOwner(s, r)
            && FitsWindow(r, Occurrence(z, s, r.occurrenceDate.value))
            && r.startAt.value > c.listedLast
  {
    var promoted := PromoteListed(e, c.listedFirst, c.promotedFirst);
    PromotedIsAhead(e, c.listedFirst, c.promotedFirst);
    var reconciled := Reconciled(z, s, promoted, c.asOf, c.writtenAt);
    PromotionLeavesScheduled(reconciled, c.listedLast, c.promotedLast);
    ReconciledScheduledRight(z, s, promoted, c.asOf, c.writtenAt);
  }

  lemma PromotedIsAhead(e: Execution, listedAt: Time, now: Time)
    requires RowInv(e) && listedAt <= now
    ensures var r := PromoteListed(e, listedAt, now);
            !IsDue(r, listedAt) && RowInv(r)
  {
  }

  /** A promotion that leaves a row scheduled leaves it as it was, and the row is ahead. */
  lemma PromotionLeavesScheduled(e: Execution, listedAt: Time, now: Time)
    requires PromoteListed(e, listedAt, now).status == Scheduled && listedAt <= now
    ensures PromoteListed(e, listedAt, now) == e && (e.startAt.Some? ==> e.startAt.value > listedAt)
  {
  }

  /** Canceled exactly when it was ahead and lost its date or its owner. */
  lemma SyncCancelsExactly(z: Zone, s: Schedule, e: Execution, c: SyncClock)
    requires RowInv(e) && Ticking(c) && e.status != Canceled
    ensures Synced(z, s, e, c).status == Canceled
            <==> IsFuture(e, c.listedFirst) && !(HasValidDate(s, e) && HasCurrentOwner(s, e))
    ensures Synced(z, s, e, c).status == Canceled ==>
              SyncCanceled(Synced(z, s, e, c)) && SameWindow(Synced(z, s, e, c), e)
  {
  }

  /** A canceled execution comes back exactly when its schedule canceled it and covers it again in time. */
  lemma SyncReactivatesExactly(z: Zone, s: Schedule, e: Execution, c: SyncClock)
    requires RowInv(e) && Ticking(c) && e.status == Canceled
    ensures Synced(z, s, e, c).status != Canceled <==> CanReactivate(s, e, c.asOf)
    ensures Synced(z, s, e, c).status == Canceled ==> Synced(z, s, e, c) == e
  {
  }

  /**
   Narrowing a schedule and restoring it before the affected start brings an execution that the
   narrowing canceled back to scheduled with the window it had.
   */
  lemma NarrowThenRestore(z: Zone, wide: Schedule, narrow: Schedule, e: Execution, c1: SyncClock, c2: SyncClock)
    requires RowInv(e) && Ticking(c1) && Ticking(c2) && Opens(z, wide)
    requires e.status == Scheduled && (e.owner.Some? || wide.useSharedChronology)
    requires HasValidDate(wide, e) && HasCurrentOwner(wide, e)
    requires FitsWindow(e, Occurrence(z, wide, e.occurrenceDate.value))
    requires Synced(z, narrow, e, c1).status == Canceled
    requires c2.listedLast < e.startAt.value
    ensures var r := Synced(z, wide, Synced(z, narrow, e, c1), c2);
            && r.status == Scheduled && SameWindow(r, e)
            && r.canceledAt.None? && r.cancelOrigin.None? && r.startedAt.None?
            && r.occurrenceDate == e.occurrenceDate && r.owner == e.owner
  {
    var canceled := Synced(z, narrow, e, c1);
    assert canceled == CancelBySync(e, c1.asOf, c1.writtenAt);
    RestoreCanceled(z, wide, canceled, c2);
  }

  lemma RestoreCanceled(z: Zone, s: Schedule, e: Execution, c: SyncClock)
    requires Ticking(c) && SyncCanceled(e) && HasValidDate(s, e)
    requires e.owner.Some? || s.useSharedChronology
    requires HasCurrentOwner(s, e)
    requires FitsWindow(e, Occurrence(z, s, e.occurrenceDate.value))
    requires c.listedLast < e.startAt.value
    ensures var r := Synced(z, s, e, c);
            && r.status == Scheduled && SameWindow(r, e)
            && r.canceledAt.None? && r.cancelOrigin.None? && r.startedAt.None?
            && r.occurrenceDate == e.occurrenceDate && r.owner == e.owner
  {
  }

  // ----- deactivation -----

  /** Deactivation promotes what is due and cancels what is ahead. */
  function Deactivated(e: Execution, asOf: Time, listedAt: Time, promotedAt: Time, now: Time): Execution {
    CancelBySync(PromoteListed(e, listedAt, promotedAt), asOf, now)
  }

  /** Nothing stays scheduled, and only what was scheduled changes. */
  lemma DeactivationLeavesNothingScheduled(e: Execution, asOf: Time, listedAt: Time, promotedAt: Time, now: Time)
    requires RowInv(e) && asOf <= listedAt <= promotedAt <= now
    ensures var r := Deactivated(e, asOf, listedAt, promotedAt, now);
            && r.status != Scheduled
            && (e.status != Scheduled ==> r == e)
            && (e.status == Scheduled ==>
                  SameWindow(r, e) && r.status == if IsDue(e, listedAt) then InProgress else Canceled)
  {
  }
}
