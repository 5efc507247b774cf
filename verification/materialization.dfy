/**
 Materialization: one execution per slot of a schedule, created, repaired or brought
 back.  A table of executions is looked at through its slots; the unique constraints
 make that view a map.
 */
module Materialization {
  import opened Core
  import opened Lifecycle
  import opened Schedules

  datatype PlanTask = PlanTask(id: Id, unit: Id, doer: Option<Id>)

  /** A schedule with what materialization reads of its plan; `covers` are the member/unit pairs validation accepts. */
  datatype Source = Source(
    schedule: Schedule,
    pilot: Id,
    tasks: seq<PlanTask>,
    requiresValidation: bool,
    offered: bool,
    covers: set<Assignee>)

  /** What the two unique constraints range over: a shared slot has no owner. */
  datatype Slot = Slot(schedule: Id, date: Date, owner: Option<Id>)

  /** An execution and its child rows. */
  datatype Row = Row(execution: Execution, teams: set<Id>, assignees: seq<Assignee>, tasks: seq<PlanTask>)

  /** `Invalid` is the service's own error; `NoTeam` is a lookup that fails. */
  datatype Failure = Invalid | NoTeam

  type View = map<Slot, Row>

  /** The instants one materialization reads: before the insert, and again when the insert collides. */
  datatype Clock = Clock(checkedAt: Time, writtenAt: Time, recheckedAt: Time, rewrittenAt: Time,
                         insertedAt: Time, createdAt: Time)

  function SlotOf(e: Execution): Option<Slot> {
    if e.scheduleId.Some? && e.occurrenceDate.Some?
    then Some(Slot(e.scheduleId.value, e.occurrenceDate.value, if e.useSharedChronology then None else e.owner))
    else None
  }

  function MemberOf(who: Option<Assignee>): Option<Id> {
    if who.Some? then Some(who.value.member) else None
  }

  // ----- assignees -----

  predicate HasMember(assignees: seq<Assignee>, m: Id) {
    exists i :: 0 <= i < |assignees| && assignees[i].member == m
  }

  /** The members of the plan's tasks join the schedule's, each once, in the unit of their first task. */
  function Merged(tasks: seq<PlanTask>, assignees: seq<Assignee>): seq<Assignee> {
    if tasks == [] then assignees
    else
      var prior, last := Merged(tasks[..|tasks| - 1], assignees), tasks[|tasks| - 1];
      if last.doer.Some? && !HasMember(prior, last.doer.value)
      then prior + [Assignee(last.doer.value, last.unit)] else prior
  }

  ghost predicate DistinctMembers(assignees: seq<Assignee>) {
    forall i, j :: 0 <= i < j < |assignees| ==> assignees[i].member != assignees[j].member
  }

  ghost predicate FromTask(tasks: seq<PlanTask>, a: Assignee) {
    exists k :: 0 <= k < |tasks| && tasks[k].doer == Some(a.member) && tasks[k].unit == a.unit
  }

  lemma {:induction false} MergedAssignsEveryTask(tasks: seq<PlanTask>, assignees: seq<Assignee>)
    requires DistinctMembers(assignees)
    ensures var merged := Merged(tasks, assignees);
            && assignees <= merged && DistinctMembers(merged)
            && (forall k :: 0 <= k < |tasks| && tasks[k].doer.Some? ==> HasMember(merged, tasks[k].doer.value))
            && (forall i :: |assignees| <= i < |merged| ==> FromTask(tasks, merged[i]))
  {
    if tasks != [] {
      var n := |tasks| - 1;
      MergedAssignsEveryTask(tasks[..n], assignees);
      var prior, merged := Merged(tasks[..n], assignees), Merged(tasks, assignees);
      forall k | 0 <= k < |tasks| && tasks[k].doer.Some? ensures HasMember(merged, tasks[k].doer.value) {
        if k < n {
          assert tasks[..n][k] == tasks[k];
          var i :| 0 <= i < |prior| && prior[i].member == tasks[k].doer.value;
          assert merged[i].member == tasks[k].doer.value;
        } else if |merged| > |prior| {
          assert merged[|prior|].member == tasks[k].doer.value;
        }
      }
      forall i | |assignees| <= i < |merged| ensures FromTask(tasks, merged[i]) {
        if i < |prior| {
          assert FromTask(tasks[..n], prior[i]);
          var k :| 0 <= k < n && tasks[..n][k].doer == Some(prior[i].member) && tasks[..n][k].unit == prior[i].unit;
          assert tasks[k].doer == Some(merged[i].member);
        } else {
          assert tasks[n].doer == Some(merged[i].member);
        }
      }
    }
  }

  method MergeTaskAssignees(tasks: seq<PlanTask>, assignees: seq<Assignee>) returns (merged: seq<Assignee>)
    ensures merged == Merged(tasks, assignees)
  {
    var seen := set i | 0 <= i < |assignees| :: assignees[i].member;
    merged := assignees;
    for k := 0 to |tasks|
      invariant merged == Merged(tasks[..k], assignees)
      invariant forall m :: m in seen <==> HasMember(merged, m)
    {
      assert tasks[..k + 1][..k] == tasks[..k];
      var task := tasks[k];
      if task.doer.None? || task.doer.value in seen {
        continue;
      }
      seen := seen + {task.doer.value};
      ghost var before := merged;
      merged := merged + [Assignee(task.doer.value, task.unit)];
      forall m ensures HasMember(merged, m) <==> HasMember(before, m) || m == task.doer.value {
        if HasMember(before, m) {
          var i :| 0 <= i < |before| && before[i].member == m;
          assert merged[i].member == m;
        }
        assert merged[|before|].member == task.doer.value;
      }
    }
    assert tasks[..|tasks|] == tasks;
  }

  predicate Accepted(src: Source, assignees: seq<Assignee>) {
    forall i :: 0 <= i < |assignees| ==> assignees[i] in src.covers
  }

  /** Individual chronology materializes one assignee at a time, shared chronology all of them. */
  function BaseAssignees(src: Source, who: Option<Assignee>): seq<Assignee> {
    if who.Some? then [who.value] else src.schedule.assignees
  }

  function AssigneesFor(src: Source, who: Option<Assignee>): Result<seq<Assignee>, Failure> {
    var s := src.schedule;
    if who.None? != s.useSharedChronology || !s.active || s.weekdays == {} || !src.offered then Err(Invalid)
    else if BaseAssignees(src, who) == [] then Err(Invalid)
    else
      var merged := Merged(src.tasks, BaseAssignees(src, who));
      if Accepted(src, merged) then Ok(merged) else Err(Invalid)
  }

  // ----- structure -----

  function AssigneeUnits(assignees: seq<Assignee>): set<Id> {
    set i | 0 <= i < |assignees| :: assignees[i].unit
  }

  function TaskUnits(tasks: seq<PlanTask>): set<Id> {
    set i | 0 <= i < |tasks| :: tasks[i].unit
  }

  /** Child rows belong to a team of their execution. */
  ghost predicate Structured(r: Row) {
    AssigneeUnits(r.assignees) <= r.teams && TaskUnits(r.tasks) <= r.teams
  }

  function Built(src: Source, r: Row, assignees: seq<Assignee>): Row {
    r.(teams := {src.pilot} + TaskUnits(src.tasks) + AssigneeUnits(assignees),
       assignees := r.assignees + assignees, tasks := r.tasks + src.tasks)
  }

  function Ensured(src: Source, r: Row, assignees: seq<Assignee>): Result<Row, Failure> {
    if r.tasks != [] && r.assignees != [] then Ok(r)
    else if r.teams == {} then Ok(Built(src, r, assignees))
    else if r.assignees == [] && !(AssigneeUnits(assignees) <= r.teams) then Err(NoTeam)
    else if r.tasks == [] && !(TaskUnits(src.tasks) <= r.teams) then Err(NoTeam)
    else Ok(r.(assignees := if r.assignees == [] then assignees else r.assignees,
               tasks := if r.tasks == [] then src.tasks else r.tasks))
  }

  /** What the calendar reads of a row to decide whether another pass could still fill it. */
  predicate NeedsStructure(r: Row, planHasTasks: bool, canSupplyAssignees: bool) {
    || r.teams == {}
    || (planHasTasks && r.tasks == [])
    || (canSupplyAssignees && r.assignees == [])
  }

  lemma NoTeamsNoChildren(r: Row)
    requires Structured(r) && r.teams == {}
    ensures r.assignees == [] && r.tasks == []
  {
    ChildrenHaveUnits(r);
  }

  lemma ChildrenHaveUnits(r: Row)
    ensures r.assignees != [] ==> AssigneeUnits(r.assignees) != {}
    ensures r.tasks != [] ==> TaskUnits(r.tasks) != {}
  {
    assert r.assignees != [] ==> r.assignees[0].unit in AssigneeUnits(r.assignees);
    assert r.tasks != [] ==> r.tasks[0].unit in TaskUnits(r.tasks);
  }

  lemma EnsuredIsStructured(src: Source, r: Row, assignees: seq<Assignee>)
    requires Structured(r) && Ensured(src, r, assignees).Ok?
    ensures Structured(Ensured(src, r, assignees).value)
    ensures Ensured(src, r, assignees).value.execution == r.execution
  {
    if r.teams == {} {
      NoTeamsNoChildren(r);
      assert r.assignees + assignees == assignees && r.tasks + src.tasks == src.tasks;
    }
  }

  /** A repair leaves nothing for another repair, and does nothing exactly when the calendar says so. */
  lemma RepairIsSettling(src: Source, r: Row, assignees: seq<Assignee>)
    requires Structured(r) && assignees != [] && Ensured(src, r, assignees).Ok?
    ensures var fixed := Ensured(src, r, assignees).value;
            && Ensured(src, fixed, assignees) == Ok(fixed)
            && (fixed == r <==> !NeedsStructure(r, src.tasks != [], true))
            && !NeedsStructure(fixed, src.tasks != [], true)
  {
    if r.teams == {} {
      NoTeamsNoChildren(r);
      assert r.assignees + assignees == assignees && r.tasks + src.tasks == src.tasks;
      assert src.pilot in Ensured(src, r, assignees).value.teams;
    } else {
      EnsuredIsStructured(src, r, assignees);
    }
  }

  // ----- one slot -----

  function DraftOf(z: Zone, src: Source, d: Date, who: Option<Assignee>): Draft {
    var s, w := src.schedule, Occurrence(z, src.schedule, d);
    Draft(Some(s.id), Some(d), s.useSharedChronology, MemberOf(who), src.requiresValidation,
          Some(w.startAt), Some(w.endAt), Some(w.visibleFrom), w.allDay)
  }

  function Created(z: Zone, src: Source, d: Date, who: Option<Assignee>, assignees: seq<Assignee>, c: Clock): Row {
    Built(src, Row(NewExecution(DraftOf(z, src, d, who), c.insertedAt, c.createdAt), {}, [], []), assignees)
  }

  predicate Active(r: Row) { r.execution.status == Scheduled || r.execution.status == InProgress }

  /** A canceled row its schedule may bring back comes back; any other is left alone. */
  function Revived(z: Zone, s: Schedule, r: Row, checkedAt: Time, now: Time): Row {
    if CanReactivate(s, r.execution, checkedAt)
    then r.(execution := Reactivate(r.execution, Occurrence(z, s, r.execution.occurrenceDate.value), now)) else r
  }

  /** The insert comes first: an occupied slot makes it collide, and the row found there is repaired. */
  function Inserted(z: Zone, src: Source, d: Date, who: Option<Assignee>, assignees: seq<Assignee>,
                    current: Option<Row>, checkedAt: Time, now: Time, c: Clock): Result<Row, Failure> {
    if !Creatable(DraftOf(z, src, d, who)) then Err(Invalid)
    else if current.None? then Ok(Created(z, src, d, who, assignees, c))
    else Ensured(src, Revived(z, src.schedule, current.value, checkedAt, now), assignees)
  }

  /** Materialization that looks the slot up first. */
  function Full(z: Zone, src: Source, d: Date, who: Option<Assignee>, current: Option<Row>, c: Clock): Result<Row, Failure> {
    match AssigneesFor(src, who)
    case Err(f) => Err(f)
    case Ok(assignees) =>
      if current.Some? && Active(current.value) then Ensured(src, current.value, assignees)
      else if current.Some? && CanReactivate(src.schedule, current.value.execution, c.checkedAt)
      then Ensured(src, Revived(z, src.schedule, current.value, c.checkedAt, c.writtenAt), assignees)
      else Inserted(z, src, d, who, assignees, current, c.recheckedAt, c.rewrittenAt, c)
  }

  /** Materialization of a slot that an earlier read found empty; its first reading of the clock is after the collision. */
  function Shortcut(z: Zone, src: Source, d: Date, who: Option<Assignee>, current: Option<Row>, c: Clock)
    : Result<Row, Failure> {
    match AssigneesFor(src, who)
    case Err(f) => Err(f)
    case Ok(assignees) => Inserted(z, src, d, who, assignees, current, c.checkedAt, c.writtenAt, c)
  }

  /** Whatever appeared in the slot since it was read as empty, skipping the lookup ends in the same row. */
  lemma ShortcutAgrees(z: Zone, src: Source, d: Date, who: Option<Assignee>, current: Option<Row>, c: Clock)
    requires Opens(z, src.schedule) && c.checkedAt <= c.recheckedAt
    ensures Shortcut(z, src, d, who, current, c) == Full(z, src, d, who, current, c)
  {
  }

  /** Whether the calendar would skip this slot: it holds a row that is not canceled and lacks nothing. */
  predicate SlotSettled(src: Source, who: Option<Assignee>, current: Option<Row>) {
    && current.Some? && current.value.execution.status != Canceled
    && !NeedsStructure(current.value, src.tasks != [], who.Some? || src.schedule.assignees != [])
  }

  /** For a row that is not canceled, "settled" says exactly that materialization would change nothing. */
  lemma SettledIsUnchanged(z: Zone, src: Source, d: Date, who: Option<Assignee>, r: Row, c: Clock)
    requires Opens(z, src.schedule) && Structured(r) && r.execution.status != Canceled
    requires Full(z, src, d, who, Some(r), c).Ok?
    ensures SlotSettled(src, who, Some(r)) <==> Full(z, src, d, who, Some(r), c) == Ok(r)
  {
    var assignees := AssigneesFor(src, who).value;
    MergedNonEmpty(src.tasks, BaseAssignees(src, who));
    assert Full(z, src, d, who, Some(r), c) == Ensured(src, r, assignees);
    RepairIsSettling(src, r, assignees);
  }

  /** A settled row survives an erring run too. */
  lemma SettledNeverChanges(z: Zone, src: Source, d: Date, who: Option<Assignee>, r: Row, c: Clock)
    requires Opens(z, src.schedule) && Structured(r) && SlotSettled(src, who, Some(r))
    ensures Full(z, src, d, who, Some(r), c) == if AssigneesFor(src, who).Ok? then Ok(r) else Err(Invalid)
  {
    if AssigneesFor(src, who).Ok? {
      var assignees := AssigneesFor(src, who).value;
      MergedNonEmpty(src.tasks, BaseAssignees(src, who));
      assert Full(z, src, d, who, Some(r), c) == Ensured(src, r, assignees);
    }
  }

  lemma {:induction false} MergedNonEmpty(tasks: seq<PlanTask>, assignees: seq<Assignee>)
    requires assignees != []
    ensures Merged(tasks, assignees) != []
  {
    if tasks != [] {
      MergedNonEmpty(tasks[..|tasks| - 1], assignees);
    }
  }

  /** Materializing again, later, changes nothing. */
  lemma FullIsIdempotent(z: Zone, src: Source, d: Date, who: Option<Assignee>, current: Option<Row>, c1: Clock, c2: Clock)
    requires Opens(z, src.schedule) && (current.Some? ==> Structured(current.value))
    requires c1.checkedAt <= c1.recheckedAt <= c2.checkedAt <= c2.recheckedAt
    requires Full(z, src, d, who, current, c1).Ok?
    ensures var r := Full(z, src, d, who, current, c1).value;
            Structured(r) && Full(z, src, d, who, Some(r), c2) == Ok(r)
  {
    var r := Full(z, src, d, who, current, c1).value;
    var assignees := AssigneesFor(src, who).value;
    MergedNonEmpty(src.tasks, BaseAssignees(src, who));
    ShortcutAgrees(z, src, d, who, current, c1);
    if current.None? {
      var blank := Row(r.execution, {}, [], []);
      RepairIsSettling(src, blank, assignees);
      EnsuredIsStructured(src, blank, assignees);
    } else {
      var before := Revived(z, src.schedule, current.value, c1.checkedAt, c1.writtenAt);
      RepairIsSettling(src, before, assignees);
      EnsuredIsStructured(src, before, assignees);
      assert !CanReactivate(src.schedule, before.execution, c2.checkedAt);
    }
    assert Ensured(src, r, assignees) == Ok(r);
    assert !CanReactivate(src.schedule, r.execution, c2.checkedAt);
  }

  /**
   Materialization never revives a done, pending or manually canceled execution, never moves an active
   one, and brings a canceled one back only through the lifecycle's own reactivation.
   */
  lemma MaterializationIsLifecycle(z: Zone, src: Source, d: Date, who: Option<Assignee>, r: Row, c: Clock)
    requires Full(z, src, d, who, Some(r), c).Ok? && c.checkedAt <= c.recheckedAt
    ensures var e, after := r.execution, Full(z, src, d, who, Some(r), c).value.execution;
            if CanReactivate(src.schedule, e, c.checkedAt)
            then after == Apply(e, DoReactivate(Occurrence(z, src.schedule, e.occurrenceDate.value)), c.writtenAt)
            else after == e
    ensures SlotOf(Full(z, src, d, who, Some(r), c).value.execution) == SlotOf(r.execution)
  {
  }
}
