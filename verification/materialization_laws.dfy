/**
 What materialization writes: the execution a free slot gets, what an existing one keeps and is filled with, and
 exactly when it is refused.  Said in terms of the schedule and the plan, not of the functions that compute it.
 */
module MaterializationLaws {
  import opened Core
  import opened Lifecycle
  import opened LifecycleLaws
  import opened Schedules
  import opened Materialization

  // ----- when an occurrence takes place -----

  /** Weekdays follow one another, and ordinal 1 is a Monday. */
  lemma WeekdaysFollow(d: Date)
    ensures Weekday(1) == 0 && Weekday(d + 1) == if Weekday(d) == 6 then 0 else Weekday(d) + 1
    ensures 0 <= Weekday(d) <= 6
  {
  }

  /** The date's start and end by the schedule's clock, visible an hour ahead. */
  ghost predicate TakesPlace(z: Zone, s: Schedule, d: Date, e: Execution) {
    && e.startAt == Some(z.instant(d, s.startTime)) && e.endAt == Some(z.instant(d, s.endTime))
    && e.visibleFrom == Some(z.instant(d, s.startTime) - 60 * 60 * 1_000_000) && e.allDay == s.allDay
  }

  /** The schedule still has the execution's date, and its owner when owners matter. */
  ghost predicate StillCovered(s: Schedule, e: Execution) {
    && e.occurrenceDate.Some?
    && s.startDate <= e.occurrenceDate.value <= s.endDate && Weekday(e.occurrenceDate.value) in s.weekdays
    && (s.useSharedChronology || (e.owner.Some? && exists a :: a in s.assignees && a.member == e.owner.value))
  }

  /** Its schedule canceled it, covers it again, and it has not started. */
  ghost predicate MayReturn(s: Schedule, e: Execution, asOf: Time) {
    && e.status == Canceled && e.cancelOrigin == Some(ScheduleSync)
    && StillCovered(s, e) && e.startAt.Some? && asOf < e.startAt.value
  }

  lemma ReturnsExactly(s: Schedule, e: Execution, asOf: Time)
    ensures CanReactivate(s, e, asOf) <==> MayReturn(s, e, asOf)
  {
    forall m ensures m in Members(s) <==> exists a :: a in s.assignees && a.member == m {
      if m in Members(s) {
        var i :| 0 <= i < |s.assignees| && s.assignees[i].member == m;
        assert s.assignees[i] in s.assignees;
      }
    }
  }

  // ----- who is assigned -----

  /** The member joins by the first of the plan's tasks it does, in that task's unit. */
  ghost predicate Joins(tasks: seq<PlanTask>, base: seq<Assignee>, a: Assignee, k: nat) {
    && k < |tasks| && tasks[k].doer == Some(a.member) && tasks[k].unit == a.unit
    && (forall j :: 0 <= j < k ==> tasks[j].doer != Some(a.member))
    && (forall i :: 0 <= i < |base| ==> base[i].member != a.member)
  }

  /** The schedule's assignees and the members that join by a task, and nobody else. */
  ghost predicate Belongs(tasks: seq<PlanTask>, base: seq<Assignee>, a: Assignee) {
    a in base || exists k: nat :: Joins(tasks, base, a, k)
  }

  lemma {:induction false} MergedHas(tasks: seq<PlanTask>, base: seq<Assignee>, m: Id)
    ensures HasMember(Merged(tasks, base), m)
            <==> HasMember(base, m) || exists k :: 0 <= k < |tasks| && tasks[k].doer == Some(m)
  {
    if tasks != [] {
      var n := |tasks| - 1;
      var prior, merged := Merged(tasks[..n], base), Merged(tasks, base);
      MergedHas(tasks[..n], base, m);
      if HasMember(prior, m) {
        var i :| 0 <= i < |prior| && prior[i].member == m;
        assert merged[i].member == m;
      }
      if tasks[n].doer == Some(m) && !HasMember(prior, m) {
        assert merged[|prior|].member == m;
      }
      if k :| 0 <= k < |tasks| && tasks[k].doer == Some(m) {
        assert k < n ==> tasks[..n][k].doer == Some(m);
      }
      if k :| 0 <= k < |tasks[..n]| && tasks[..n][k].doer == Some(m) {
        assert tasks[k].doer == Some(m);
      }
    }
  }

  lemma JoinsNext(tasks: seq<PlanTask>, base: seq<Assignee>, a: Assignee)
    requires tasks != []
    ensures var n := |tasks| - 1;
            (exists k: nat :: Joins(tasks, base, a, k)) <==> (exists k: nat :: Joins(tasks[..n], base, a, k)) || Joins(tasks, base, a, n)
  {
    var n: nat := |tasks| - 1;
    if k: nat :| Joins(tasks, base, a, k) {
      if k < n {
        assert Joins(tasks[..n], base, a, k);
      }
    }
    if k: nat :| Joins(tasks[..n], base, a, k) {
      assert Joins(tasks, base, a, k);
    }
  }

  lemma {:induction false} MergedExactly(tasks: seq<PlanTask>, base: seq<Assignee>, a: Assignee)
    ensures a in Merged(tasks, base) <==> Belongs(tasks, base, a)
  {
    if tasks != [] {
      var n: nat := |tasks| - 1;
      MergedExactly(tasks[..n], base, a);
      JoinsNext(tasks, base, a);
      MergedHas(tasks[..n], base, a.member);
      if tasks[n].doer == Some(a.member) && HasMember(Merged(tasks[..n], base), a.member) {
        LateDoesNotJoin(tasks, base, a);
      }
    }
  }

  lemma LateDoesNotJoin(tasks: seq<PlanTask>, base: seq<Assignee>, a: Assignee)
    requires tasks != [] && HasMember(Merged(tasks[..|tasks| - 1], base), a.member)
    ensures !Joins(tasks, base, a, |tasks| - 1)
  {
    var n := |tasks| - 1;
    MergedHas(tasks[..n], base, a.member);
    if !HasMember(base, a.member) {
      var k :| 0 <= k < |tasks[..n]| && tasks[..n][k].doer == Some(a.member);
      assert tasks[k].doer == Some(a.member);
    } else {
      var i :| 0 <= i < |base| && base[i].member == a.member;
    }
  }

  /** Whom an occurrence is for: everyone the schedule names, or one of them. */
  ghost predicate IsFor(src: Source, who: Option<Assignee>, base: seq<Assignee>) {
    if src.schedule.useSharedChronology then who.None? && base == src.schedule.assignees else who.Some? && base == [who.value]
  }

  /** The schedule is on and recurs, the plan is offered, somebody is assigned, and everyone who is may be. */
  ghost predicate MayMaterialize(src: Source, base: seq<Assignee>) {
    && src.schedule.active && src.schedule.weekdays != {} && src.offered && base != []
    && forall a :: Belongs(src.tasks, base, a) ==> a in src.covers
  }

  /** Exactly then the assignees are resolved: the schedule's first, each member once, and whom the tasks bring. */
  lemma AssigneesTable(src: Source, who: Option<Assignee>, base: seq<Assignee>)
    requires IsFor(src, who, base)
    ensures AssigneesFor(src, who).Ok? <==> MayMaterialize(src, base)
    ensures AssigneesFor(src, who).Ok? ==>
              && base <= AssigneesFor(src, who).value
              && (forall a :: a in AssigneesFor(src, who).value <==> Belongs(src.tasks, base, a))
    ensures AssigneesFor(src, who).Err? ==> AssigneesFor(src, who).error == Invalid
  {
    var merged := Merged(src.tasks, base);
    forall a ensures a in merged <==> Belongs(src.tasks, base, a) {
      MergedExactly(src.tasks, base, a);
    }
    MergedExtends(src.tasks, base);
    assert Accepted(src, merged) <==> forall a :: a in merged ==> a in src.covers;
  }

  lemma {:induction false} MergedExtends(tasks: seq<PlanTask>, base: seq<Assignee>)
    ensures base <= Merged(tasks, base)
  {
    if tasks != [] {
      MergedExtends(tasks[..|tasks| - 1], base);
    }
  }

  // ----- what a free slot gets -----

  /** The new execution: of this schedule and date, as the plan wants it, and started if its start has passed. */
  ghost predicate IsOccurrence(z: Zone, src: Source, d: Date, who: Option<Assignee>, c: Clock, e: Execution) {
    var startsLater := c.insertedAt < z.instant(d, src.schedule.startTime);
    && e.scheduleId == Some(src.schedule.id) && e.occurrenceDate == Some(d)
    && e.useSharedChronology == src.schedule.useSharedChronology
    && e.owner == (if who.Some? then Some(who.value.member) else None)
    && e.requiresValidation == src.requiresValidation && TakesPlace(z, src.schedule, d, e)
    && e.status == (if startsLater then Scheduled else InProgress)
    && e.startedAt == (if startsLater then None else Some(c.insertedAt))
    && e.lastActivityAt == c.insertedAt && e.journal != [] && e.journal[0].at == c.createdAt
  }

  /** The assignees it is for and those its tasks bring, the plan's tasks, and a team for the pilot and each of their units. */
  ghost predicate IsStructured(src: Source, base: seq<Assignee>, r: Row) {
    && base <= r.assignees && (forall a :: a in r.assignees <==> Belongs(src.tasks, base, a))
    && r.tasks == src.tasks
    && (forall u :: u in r.teams <==>
          u == src.pilot || (exists t :: t in src.tasks && t.unit == u) || (exists a :: a in r.assignees && a.unit == u))
  }

  lemma UnitsOf(src: Source, assignees: seq<Assignee>)
    ensures forall u :: u in {src.pilot} + TaskUnits(src.tasks) + AssigneeUnits(assignees) <==>
              u == src.pilot || (exists t :: t in src.tasks && t.unit == u) || (exists a :: a in assignees && a.unit == u)
  {
    forall u ensures u in TaskUnits(src.tasks) <==> exists t :: t in src.tasks && t.unit == u {
      if u in TaskUnits(src.tasks) {
        var i :| 0 <= i < |src.tasks| && src.tasks[i].unit == u;
        assert src.tasks[i] in src.tasks;
      }
    }
    forall u ensures u in AssigneeUnits(assignees) <==> exists a :: a in assignees && a.unit == u {
      if u in AssigneeUnits(assignees) {
        var i :| 0 <= i < |assignees| && assignees[i].unit == u;
        assert assignees[i] in assignees;
      }
    }
  }

  lemma NewOccurrence(z: Zone, src: Source, d: Date, who: Option<Assignee>, c: Clock)
    requires who.None? == src.schedule.useSharedChronology
    ensures IsOccurrence(z, src, d, who, c, NewExecution(DraftOf(z, src, d, who), c.insertedAt, c.createdAt))
    ensures Creatable(DraftOf(z, src, d, who)) <==> z.instant(d, src.schedule.startTime) < z.instant(d, src.schedule.endTime)
  {
    CreationTable(DraftOf(z, src, d, who), c.insertedAt, c.createdAt);
  }

  lemma NewStructure(src: Source, base: seq<Assignee>, assignees: seq<Assignee>, blank: Row)
    requires blank.assignees == [] && blank.tasks == [] && base <= assignees
    requires forall a :: a in assignees <==> Belongs(src.tasks, base, a)
    ensures IsStructured(src, base, Built(src, blank, assignees))
  {
    UnitsOf(src, assignees);
    assert [] + assignees == assignees && [] + src.tasks == src.tasks;
  }

  /** A free slot is filled exactly when the occurrence may be materialized and starts before it ends. */
  lemma CreationLaw(z: Zone, src: Source, d: Date, who: Option<Assignee>, base: seq<Assignee>, c: Clock)
    requires IsFor(src, who, base)
    ensures Full(z, src, d, who, None, c).Ok?
            <==> MayMaterialize(src, base) && z.instant(d, src.schedule.startTime) < z.instant(d, src.schedule.endTime)
    ensures Full(z, src, d, who, None, c).Ok? ==>
              && IsOccurrence(z, src, d, who, c, Full(z, src, d, who, None, c).value.execution)
              && IsStructured(src, base, Full(z, src, d, who, None, c).value)
  {
    AssigneesTable(src, who, base);
    NewOccurrence(z, src, d, who, c);
    if Full(z, src, d, who, None, c).Ok? {
      var blank := Row(NewExecution(DraftOf(z, src, d, who), c.insertedAt, c.createdAt), {}, [], []);
      NewStructure(src, base, AssigneesFor(src, who).value, blank);
    }
  }

  // ----- what an existing execution keeps and gets -----

  /** Child rows that are there stay; those that are missing are added, with teams when there are none. */
  ghost predicate IsFilled(src: Source, assignees: seq<Assignee>, r: Row, after: Row) {
    && after.assignees == (if r.assignees == [] then assignees else r.assignees)
    && after.tasks == (if r.tasks == [] then src.tasks else r.tasks)
    && (r.teams != {} ==> after.teams == r.teams)
    && (r.teams == {} ==> forall u :: u in after.teams <==>
          u == src.pilot || (exists t :: t in src.tasks && t.unit == u) || (exists a :: a in assignees && a.unit == u))
  }

  /** Something to add has no team to belong to. */
  ghost predicate LacksTeam(src: Source, assignees: seq<Assignee>, r: Row) {
    && r.teams != {}
    && ((r.assignees == [] && exists a :: a in assignees && a.unit !in r.teams)
        || (r.tasks == [] && exists t :: t in src.tasks && t.unit !in r.teams))
  }

  lemma UnitsWithin(src: Source, assignees: seq<Assignee>, teams: set<Id>)
    ensures AssigneeUnits(assignees) <= teams <==> forall a :: a in assignees ==> a.unit in teams
    ensures TaskUnits(src.tasks) <= teams <==> forall t :: t in src.tasks ==> t.unit in teams
  {
    if AssigneeUnits(assignees) <= teams {
      forall a | a in assignees ensures a.unit in teams {
        var i :| 0 <= i < |assignees| && assignees[i] == a;
        assert assignees[i].unit in AssigneeUnits(assignees);
      }
    }
    if TaskUnits(src.tasks) <= teams {
      forall t | t in src.tasks ensures t.unit in teams {
        var i :| 0 <= i < |src.tasks| && src.tasks[i] == t;
        assert src.tasks[i].unit in TaskUnits(src.tasks);
      }
    }
  }

  /** Structure is added to an existing execution, and nothing is taken away. */
  lemma FillingLaw(src: Source, r: Row, assignees: seq<Assignee>)
    requires Structured(r)
    ensures match Ensured(src, r, assignees)
            case Ok(after) => !LacksTeam(src, assignees, r) && IsFilled(src, assignees, r, after) && after.execution == r.execution
            case Err(f) => f == NoTeam && LacksTeam(src, assignees, r)
  {
    UnitsWithin(src, assignees, r.teams);
    UnitsOf(src, assignees);
    if r.teams == {} {
      NoTeamsNoChildren(r);
      assert r.assignees + assignees == assignees && r.tasks + src.tasks == src.tasks;
    }
  }

  /** An execution comes back to its schedule's window for its date when it may, and is otherwise left as it is. */
  ghost predicate IsReturned(z: Zone, s: Schedule, e: Execution, r: Execution, asOf: Time, now: Time) {
    if MayReturn(s, e, asOf) then exists w :: IsWindow(z, s, e.occurrenceDate.value, w) && IsReactivated(e, r, w, now) else r == e
  }

  /** The schedule's window for a date. */
  ghost predicate IsWindow(z: Zone, s: Schedule, d: Date, w: Window) {
    && w.startAt == z.instant(d, s.startTime) && w.endAt == z.instant(d, s.endTime)
    && w.visibleFrom == w.startAt - 60 * 60 * 1_000_000 && w.allDay == s.allDay
  }

  lemma OccurrenceIsWindow(z: Zone, s: Schedule, d: Date)
    ensures IsWindow(z, s, d, Occurrence(z, s, d))
  {
  }

  lemma ReturnLaw(z: Zone, s: Schedule, e: Execution, asOf: Time, now: Time)
    requires CanReactivate(s, e, asOf)
    ensures IsReturned(z, s, e, Reactivate(e, Occurrence(z, s, e.occurrenceDate.value), now), asOf, now)
  {
    ReturnsExactly(s, e, asOf);
    OccurrenceIsWindow(z, s, e.occurrenceDate.value);
    ReactivationTable(e, Occurrence(z, s, e.occurrenceDate.value), now);
  }

  lemma RevivedLaw(z: Zone, s: Schedule, r: Row, asOf: Time, now: Time)
    ensures IsReturned(z, s, r.execution, Revived(z, s, r, asOf, now).execution, asOf, now)
    ensures Revived(z, s, r, asOf, now) == r.(execution := Revived(z, s, r, asOf, now).execution)
  {
    if CanReactivate(s, r.execution, asOf) {
      ReturnLaw(z, s, r.execution, asOf, now);
    } else {
      ReturnsExactly(s, r.execution, asOf);
    }
  }

  /** An occupied slot: what is missing is added, and the execution comes back exactly when it may. */
  lemma ExistingLaw(z: Zone, src: Source, d: Date, who: Option<Assignee>, base: seq<Assignee>, r: Row, c: Clock)
    requires IsFor(src, who, base) && Structured(r) && c.checkedAt <= c.recheckedAt
    requires Full(z, src, d, who, Some(r), c).Ok?
    ensures var after := Full(z, src, d, who, Some(r), c).value;
            && MayMaterialize(src, base) && IsFilled(src, AssigneesFor(src, who).value, r, after)
            && IsReturned(z, src.schedule, r.execution, after.execution, c.checkedAt, c.writtenAt)
  {
    AssigneesTable(src, who, base);
    RevivedLaw(z, src.schedule, r, c.checkedAt, c.writtenAt);
    FullFills(z, src, d, who, r, c);
    FillingLaw(src, Revived(z, src.schedule, r, c.checkedAt, c.writtenAt), AssigneesFor(src, who).value);
  }

  lemma FullFills(z: Zone, src: Source, d: Date, who: Option<Assignee>, r: Row, c: Clock)
    requires c.checkedAt <= c.recheckedAt && Full(z, src, d, who, Some(r), c).Ok?
    ensures Full(z, src, d, who, Some(r), c)
            == Ensured(src, Revived(z, src.schedule, r, c.checkedAt, c.writtenAt), AssigneesFor(src, who).value)
  {
  }

  /**
   It succeeds exactly when the occurrence may be materialized, nothing to add lacks its team, and a row that is
   neither active nor may return has a window that could be inserted.
   */
  lemma ExistingExactly(z: Zone, src: Source, d: Date, who: Option<Assignee>, base: seq<Assignee>, r: Row, c: Clock)
    requires IsFor(src, who, base) && Structured(r)
    ensures AssigneesFor(src, who).Ok? <==> MayMaterialize(src, base)
    ensures Full(z, src, d, who, Some(r), c).Ok? <==>
            && MayMaterialize(src, base) && !LacksTeam(src, AssigneesFor(src, who).value, r)
            && (r.execution.status == Scheduled || r.execution.status == InProgress
                || MayReturn(src.schedule, r.execution, c.checkedAt)
                || z.instant(d, src.schedule.startTime) < z.instant(d, src.schedule.endTime))
  {
    AssigneesTable(src, who, base);
    ReturnsExactly(src.schedule, r.execution, c.checkedAt);
    if MayMaterialize(src, base) {
      var assignees := AssigneesFor(src, who).value;
      FillingLaw(src, r, assignees);
      RevivedIsFilledAlike(z, src, r, assignees, c.checkedAt, c.writtenAt);
      RevivedIsFilledAlike(z, src, r, assignees, c.recheckedAt, c.rewrittenAt);
    }
  }

  lemma RevivedIsFilledAlike(z: Zone, src: Source, r: Row, assignees: seq<Assignee>, checkedAt: Time, now: Time)
    ensures Ensured(src, Revived(z, src.schedule, r, checkedAt, now), assignees).Ok? <==> Ensured(src, r, assignees).Ok?
  {
  }

  // ----- slots -----

  /** An execution holds the slot of its schedule and date, of everyone or of its owner; one without either holds none. */
  lemma SlotExactly(e: Execution)
    ensures SlotOf(e).Some? <==> e.scheduleId.Some? && e.occurrenceDate.Some?
    ensures SlotOf(e).Some? ==>
              var slot := SlotOf(e).value;
              && slot.schedule == e.scheduleId.value && slot.date == e.occurrenceDate.value
              && slot.owner == (if e.useSharedChronology then None else e.owner)
  {
  }

  lemma MemberExactly(who: Option<Assignee>)
    ensures MemberOf(who).Some? <==> who.Some?
    ensures who.Some? ==> MemberOf(who).value == who.value.member
  {
  }
}
