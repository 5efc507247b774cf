/** What an accepted update leaves of the execution, its assignees and its tasks, item by item, and when it is accepted. */
module UpdateLaws {
  import opened Core
  import opened Lifecycle
  import opened LifecycleLaws
  import opened ExecutionUpdate

  // ----- tasks -----

  /** The identifier a submitted task is written under. */
  function IdOf(items: seq<TaskItem>, newIds: nat -> Id, i: nat): Id
    requires i < |items|
  {
    if items[i].id.Some? then items[i].id.value else newIds(i)
  }

  /** Items without a position are numbered from one in their order. */
  function PositionOf(items: seq<TaskItem>, i: nat): int
    requires i < |items|
  {
    if items[i].position.Some? then items[i].position.value else i + 1
  }

  /** The task holds what was submitted; a kept one keeps the rest, a new one starts without. */
  ghost predicate HoldsItem(doc: Doc, items: seq<TaskItem>, i: nat, task: Task)
    requires i < |items|
  {
    var item := items[i];
    && task.text == item.text && task.description == item.description && Some(task.unit) == item.unit
    && task.deadline == item.deadline && task.doer == item.doer && task.position == PositionOf(items, i) && task.pending
    && (if item.id.Some? then item.id.value in doc.tasks && task.planTask == doc.tasks[item.id.value].planTask
                              && task.observation == doc.tasks[item.id.value].observation
        else task.planTask.None? && task.observation.None?)
  }

  ghost predicate SpecHolds(doc: Doc, items: seq<TaskItem>, newIds: nat -> Id, i: nat, s: Spec)
    requires i < |items|
  {
    s.id == IdOf(items, newIds, i) && s.isNew == items[i].id.None? && HoldsItem(doc, items, i, s.task)
  }

  lemma {:induction false} SpecsHoldItems(doc: Doc, items: seq<TaskItem>, finals: set<Id>, ctx: Context, newIds: nat -> Id)
    requires ResolvedTasks(doc, items, finals, ctx, newIds).Ok?
    ensures var specs := ResolvedTasks(doc, items, finals, ctx, newIds).value;
            |specs| == |items| && forall i :: 0 <= i < |items| ==> SpecHolds(doc, items, newIds, i, specs[i])
  {
    if items != [] {
      var n := |items| - 1;
      var front := items[..n];
      SpecsHoldItems(doc, front, finals, ctx, newIds);
      var prior, specs := ResolvedTasks(doc, front, finals, ctx, newIds).value, ResolvedTasks(doc, items, finals, ctx, newIds).value;
      forall i | 0 <= i < |items| ensures SpecHolds(doc, items, newIds, i, specs[i]) {
        if i < n {
          assert SpecHolds(doc, front, newIds, i, prior[i]);
        }
      }
    }
  }

  /** After an accepted update with tasks: what was submitted, item by item, and the treated tasks as they were. */
  lemma SubmittedTasksAreWritten(doc: Doc, request: Request, ctx: Context, now: Time, savedAt: Time, newIds: nat -> Id)
    requires FreshIds(doc, newIds) && request.tasks.Some? && Updated(doc, request, ctx, now, savedAt, newIds).Ok?
    ensures var items, tasks := request.tasks.value, Updated(doc, request, ctx, now, savedAt, newIds).value.tasks;
            && (forall i :: 0 <= i < |items| ==>
                  IdOf(items, newIds, i) in tasks && HoldsItem(doc, items, i, tasks[IdOf(items, newIds, i)]))
            && (forall t :: t in doc.tasks && !doc.tasks[t].pending ==> t in tasks && tasks[t] == doc.tasks[t])
            && (forall t :: t in tasks ==>
                  (t in doc.tasks && !doc.tasks[t].pending) || exists i :: 0 <= i < |items| && t == IdOf(items, newIds, i))
  {
    var assignees, finals, tasks := AcceptedParts(doc, request, ctx, now, savedAt, newIds);
    var specs := FinalTasksShape(doc, request, finals, ctx, newIds);
    SpecsHoldItems(doc, request.tasks.value, finals, ctx, newIds);
    WrittenHolds(doc, request.tasks.value, finals, newIds, specs);
  }

  lemma WrittenHolds(doc: Doc, items: seq<TaskItem>, finals: set<Id>, newIds: nat -> Id, specs: seq<Spec>)
    requires |specs| == |items| && SpecsOk(doc, finals, specs)
    requires forall i :: 0 <= i < |items| ==> SpecHolds(doc, items, newIds, i, specs[i])
    ensures var tasks := TreatedTasks(doc) + Written(specs);
            && (forall i :: 0 <= i < |items| ==>
                  IdOf(items, newIds, i) in tasks && HoldsItem(doc, items, i, tasks[IdOf(items, newIds, i)]))
            && (forall t :: t in doc.tasks && !doc.tasks[t].pending ==> t in tasks && tasks[t] == doc.tasks[t])
            && (forall t :: t in tasks ==>
                  (t in doc.tasks && !doc.tasks[t].pending) || exists i :: 0 <= i < |items| && t == IdOf(items, newIds, i))
  {
    WrittenAre(specs);
    forall t | t in doc.tasks && !doc.tasks[t].pending ensures t !in Written(specs) {
      WrittenWasPending(doc, finals, specs, t);
    }
    forall i | 0 <= i < |items| ensures IdOf(items, newIds, i) in Written(specs)
      ensures HoldsItem(doc, items, i, Written(specs)[IdOf(items, newIds, i)]) {
      assert SpecHolds(doc, items, newIds, i, specs[i]);
    }
    forall t | t in Written(specs) ensures exists i :: 0 <= i < |items| && t == IdOf(items, newIds, i) {
      var i :| 0 <= i < |specs| && specs[i].id == t;
      assert SpecHolds(doc, items, newIds, i, specs[i]);
    }
  }

  /** Tasks left alone: only a pending one loses its doer, when that member was assigned and is not any more. */
  lemma TasksLeftAlone(doc: Doc, request: Request, ctx: Context, now: Time, savedAt: Time, newIds: nat -> Id, t: Id)
    requires request.tasks.None? && Updated(doc, request, ctx, now, savedAt, newIds).Ok?
    ensures var next := Updated(doc, request, ctx, now, savedAt, newIds).value;
            && (t in next.tasks <==> t in doc.tasks)
            && (t in doc.tasks ==>
                  next.tasks[t] == (if doc.tasks[t].pending && doc.tasks[t].doer.Some? && doc.tasks[t].doer.value in doc.assignees
                                       && doc.tasks[t].doer.value !in next.assignees
                                    then doc.tasks[t].(doer := None) else doc.tasks[t]))
  {
    var assignees, finals, tasks := AcceptedParts(doc, request, ctx, now, savedAt, newIds);
  }

  // ----- when submitted tasks are accepted -----

  /** The position, the unit and the doer of a submitted task can be, and the task it names can be kept. */
  ghost predicate ItemMakesSense(doc: Doc, items: seq<TaskItem>, i: nat, finals: set<Id>, ctx: Context)
    requires i < |items|
  {
    var item := items[i];
    && 1 <= PositionOf(items, i) <= 10
    && (forall t :: t in doc.tasks && !doc.tasks[t].pending ==> doc.tasks[t].position != PositionOf(items, i))
    && (forall j :: 0 <= j < i ==> PositionOf(items, j) != PositionOf(items, i))
    && item.unit.Some? && item.unit.value in ctx.units
    && (item.doer.Some? ==> item.doer.value in finals && item.doer.value in ctx.members && (item.doer.value, item.unit.value) in ctx.covers)
    && (item.id.Some? ==> item.id.value in doc.tasks && doc.tasks[item.id.value].pending
                          && forall j :: 0 <= j < i ==> items[j].id != item.id)
  }

  /** Anything may be written for the pilot, or by an administrator; a kept task may be submitted as it is by anyone. */
  ghost predicate ItemMayBeWritten(doc: Doc, items: seq<TaskItem>, i: nat, ctx: Context)
    requires i < |items| && items[i].unit.Some?
  {
    var item := items[i];
    || ctx.admin
    || (item.unit.value == doc.pilot && (item.id.Some? && item.id.value in doc.tasks ==> doc.tasks[item.id.value].unit == doc.pilot))
    || (item.id.Some? && item.id.value in doc.tasks && HoldsItem(doc, items, i, doc.tasks[item.id.value]))
  }

  ghost predicate ItemFits(doc: Doc, items: seq<TaskItem>, i: nat, finals: set<Id>, ctx: Context)
    requires i < |items|
  {
    ItemMakesSense(doc, items, i, finals, ctx) && ItemMayBeWritten(doc, items, i, ctx)
  }

  lemma TakenExactly(doc: Doc, items: seq<TaskItem>, newIds: nat -> Id, specs: seq<Spec>, n: nat)
    requires n < |items| && |specs| == n && forall i :: 0 <= i < n ==> SpecHolds(doc, items, newIds, i, specs[i])
    ensures TakenPosition(doc, specs, PositionOf(items, n)) <==>
              !((forall t :: t in doc.tasks && !doc.tasks[t].pending ==> doc.tasks[t].position != PositionOf(items, n))
                && (forall j :: 0 <= j < n ==> PositionOf(items, j) != PositionOf(items, n)))
    ensures items[n].id.Some? ==> (SeenId(specs, items[n].id.value) <==> exists j :: 0 <= j < n && items[j].id == items[n].id)
  {
    forall j | 0 <= j < n ensures specs[j].task.position == PositionOf(items, j) && specs[j].isNew == items[j].id.None? {
      assert SpecHolds(doc, items, newIds, j, specs[j]);
    }
    if items[n].id.Some? {
      if j :| 0 <= j < n && items[j].id == items[n].id {
        assert SpecHolds(doc, items, newIds, j, specs[j]);
        assert !specs[j].isNew && specs[j].id == items[n].id.value;
      }
      if j :| 0 <= j < |specs| && !specs[j].isNew && specs[j].id == items[n].id.value {
        assert SpecHolds(doc, items, newIds, j, specs[j]);
      }
    }
  }

  /** One item: resolved exactly when it fits, and otherwise the error tells whether it made sense. */
  lemma ItemTable(doc: Doc, items: seq<TaskItem>, newIds: nat -> Id, specs: seq<Spec>, n: nat, finals: set<Id>, ctx: Context)
    requires n < |items| && |specs| == n && forall i :: 0 <= i < n ==> SpecHolds(doc, items, newIds, i, specs[i])
    ensures var r := ResolvedTask(doc, items[n], n + 1, specs, finals, ctx, newIds(n));
            && (r.Ok? <==> ItemFits(doc, items, n, finals, ctx))
            && (r.Err? ==> r.error == if ItemMakesSense(doc, items, n, finals, ctx) then Denied else Invalid)
  {
    TakenExactly(doc, items, newIds, specs, n);
  }

  lemma {:induction false} HoldsInFront(doc: Doc, items: seq<TaskItem>, newIds: nat -> Id, n: nat, specs: seq<Spec>)
    requires n <= |items| && |specs| == n && forall i :: 0 <= i < n ==> SpecHolds(doc, items[..n], newIds, i, specs[i])
    ensures forall i :: 0 <= i < n ==> SpecHolds(doc, items, newIds, i, specs[i])
  {
    forall i | 0 <= i < n ensures SpecHolds(doc, items, newIds, i, specs[i]) {
      assert SpecHolds(doc, items[..n], newIds, i, specs[i]);
    }
  }

  /** The first item that does not fit decides the error; without one all are resolved. */
  lemma {:induction false} ItemsTable(doc: Doc, items: seq<TaskItem>, finals: set<Id>, ctx: Context, newIds: nat -> Id)
    ensures var r := ResolvedTasks(doc, items, finals, ctx, newIds);
            && (r.Ok? <==> forall i :: 0 <= i < |items| ==> ItemFits(doc, items, i, finals, ctx))
            && (r.Err? ==> exists i :: FirstUnfit(doc, items, i, finals, ctx)
                                       && r.error == if ItemMakesSense(doc, items, i, finals, ctx) then Denied else Invalid)
  {
    if items != [] {
      var n := |items| - 1;
      var front := items[..n];
      ItemsTable(doc, front, finals, ctx, newIds);
      forall i | 0 <= i < n ensures ItemFits(doc, front, i, finals, ctx) <==> ItemFits(doc, items, i, finals, ctx)
        ensures ItemMakesSense(doc, front, i, finals, ctx) <==> ItemMakesSense(doc, items, i, finals, ctx) {
        SameInFront(doc, items, n, i, finals, ctx);
      }
      var prior := ResolvedTasks(doc, front, finals, ctx, newIds);
      if prior.Ok? {
        SpecsHoldItems(doc, front, finals, ctx, newIds);
        HoldsInFront(doc, items, newIds, n, prior.value);
        ItemTable(doc, items, newIds, prior.value, n, finals, ctx);
        assert !ItemFits(doc, items, n, finals, ctx) ==> FirstUnfit(doc, items, n, finals, ctx);
      } else {
        var i :| FirstUnfit(doc, front, i, finals, ctx)
                 && prior.error == if ItemMakesSense(doc, front, i, finals, ctx) then Denied else Invalid;
        assert FirstUnfit(doc, items, i, finals, ctx);
      }
    }
  }

  ghost predicate FirstUnfit(doc: Doc, items: seq<TaskItem>, i: int, finals: set<Id>, ctx: Context) {
    0 <= i < |items| && !ItemFits(doc, items, i, finals, ctx) && forall j :: 0 <= j < i ==> ItemFits(doc, items, j, finals, ctx)
  }

  lemma SameInFront(doc: Doc, items: seq<TaskItem>, n: nat, i: nat, finals: set<Id>, ctx: Context)
    requires i < n <= |items|
    ensures ItemFits(doc, items[..n], i, finals, ctx) <==> ItemFits(doc, items, i, finals, ctx)
    ensures ItemMakesSense(doc, items[..n], i, finals, ctx) <==> ItemMakesSense(doc, items, i, finals, ctx)
  {
    forall j | 0 <= j <= i ensures PositionOf(items[..n], j) == PositionOf(items, j) {
    }
  }

  // ----- assignees -----

  /** A kept assignee keeps its unit and its start; a new one starts as the chronology says.  Ends are as submitted. */
  ghost predicate HoldsAssignee(doc: Doc, item: AssigneeItem, now: Time, row: AssigneeRow)
    requires item.member.Some?
  {
    var m := item.member.value;
    && item.unit == Some(row.unit)
    && (if m in doc.assignees then
          row.unit == doc.assignees[m].unit && row.startAt == doc.assignees[m].startAt && row.visibleFrom == doc.assignees[m].visibleFrom
          && row.endAt == (if item.endAt.Some? then item.endAt.value else doc.assignees[m].endAt)
        else
          row.startAt == (if doc.execution.useSharedChronology then doc.execution.startAt else Some(now))
          && row.visibleFrom == (if doc.execution.useSharedChronology then doc.execution.visibleFrom else Some(now))
          && row.endAt == (if item.endAt.Some? then item.endAt.value else None))
  }

  /** Names a member and a unit it covers, nobody twice and no start. */
  ghost predicate NamesAssignee(items: seq<AssigneeItem>, i: nat, ctx: Context)
    requires i < |items|
  {
    var item := items[i];
    && item.member.Some? && item.unit.Some? && !item.setsStart
    && item.member.value in ctx.members && item.unit.value in ctx.units && (item.member.value, item.unit.value) in ctx.covers
    && (forall j :: 0 <= j < i ==> items[j].member != item.member)
  }

  /** Besides, its end is after the start there is or will be. */
  ghost predicate AssigneeMakesSense(doc: Doc, items: seq<AssigneeItem>, i: nat, ctx: Context, now: Time)
    requires i < |items|
  {
    var item := items[i];
    && NamesAssignee(items, i, ctx)
    && (exists row :: HoldsAssignee(doc, item, now, row) && (row.endAt.Some? ==> row.startAt.Some? && row.startAt.value < row.endAt.value))
  }

  /** New members can be assigned where the actor assigns. */
  ghost predicate AssigneeAllowed(doc: Doc, item: AssigneeItem, ctx: Context) {
    item.member.Some? && item.unit.Some? ==> item.member.value in doc.assignees || item.unit.value in ctx.assigns
  }

  ghost predicate RowHolds(doc: Doc, items: seq<AssigneeItem>, now: Time, i: nat, r: FinalRow)
    requires i < |items|
  {
    items[i].member == Some(r.member) && HoldsAssignee(doc, items[i], now, r.row)
  }

  lemma OneRowHolds(doc: Doc, item: AssigneeItem, now: Time, a: AssigneeRow, b: AssigneeRow)
    requires item.member.Some? && HoldsAssignee(doc, item, now, a) && HoldsAssignee(doc, item, now, b)
    ensures a == b
  {
  }

  lemma SeenMembers(items: seq<AssigneeItem>, doc: Doc, now: Time, rows: seq<FinalRow>, n: nat)
    requires n < |items| && |rows| == n && forall i :: 0 <= i < n ==> RowHolds(doc, items, now, i, rows[i])
    ensures items[n].member.Some? ==>
              (items[n].member.value in MembersOf(rows) <==> exists j :: 0 <= j < n && items[j].member == items[n].member)
  {
    forall j | 0 <= j < n ensures items[j].member == Some(rows[j].member) {
      assert RowHolds(doc, items, now, j, rows[j]);
    }
    if items[n].member.Some? {
      if j :| 0 <= j < n && items[j].member == items[n].member {
        assert rows[j].member in MembersOf(rows);
      }
    }
  }

  lemma AssigneeTable(doc: Doc, items: seq<AssigneeItem>, rows: seq<FinalRow>, n: nat, ctx: Context, now: Time)
    requires n < |items| && |rows| == n && forall i :: 0 <= i < n ==> RowHolds(doc, items, now, i, rows[i])
    ensures var r := ResolvedRow(doc, items[n], MembersOf(rows), ctx, now);
            && (r.Ok? <==> AssigneeMakesSense(doc, items, n, ctx, now) && AssigneeAllowed(doc, items[n], ctx))
            && (r.Ok? ==> RowHolds(doc, items, now, n, r.value))
            && (r.Err? ==> r.error == AssigneeError(doc, items, n, ctx))
  {
    SeenMembers(items, doc, now, rows, n);
    var item := items[n];
    if item.member.Some? && item.unit.Some? {
      var row := RowOf(doc, item, now);
      if HoldsAssignee(doc, item, now, row) {
        forall other | HoldsAssignee(doc, item, now, other) ensures other == row {
          OneRowHolds(doc, item, now, other, row);
        }
      }
    }
  }

  ghost function AssigneeError(doc: Doc, items: seq<AssigneeItem>, i: nat, ctx: Context): Failure
    requires i < |items|
  {
    if NamesAssignee(items, i, ctx) && !AssigneeAllowed(doc, items[i], ctx) then Denied else Invalid
  }

  ghost predicate FirstUnfitAssignee(doc: Doc, items: seq<AssigneeItem>, i: int, ctx: Context, now: Time) {
    && 0 <= i < |items| && !(AssigneeMakesSense(doc, items, i, ctx, now) && AssigneeAllowed(doc, items[i], ctx))
    && forall j :: 0 <= j < i ==> AssigneeMakesSense(doc, items, j, ctx, now) && AssigneeAllowed(doc, items[j], ctx)
  }

  /** The row a submitted assignee asks for. */
  function RowOf(doc: Doc, item: AssigneeItem, now: Time): AssigneeRow
    requires item.member.Some? && item.unit.Some?
  {
    var m := item.member.value;
    if m in doc.assignees then
      AssigneeRow(doc.assignees[m].unit, doc.assignees[m].startAt, doc.assignees[m].visibleFrom,
                  if item.endAt.Some? then item.endAt.value else doc.assignees[m].endAt)
    else
      AssigneeRow(item.unit.value, if doc.execution.useSharedChronology then doc.execution.startAt else Some(now),
                  if doc.execution.useSharedChronology then doc.execution.visibleFrom else Some(now),
                  if item.endAt.Some? then item.endAt.value else None)
  }

  lemma SameAssigneeInFront(doc: Doc, items: seq<AssigneeItem>, n: nat, i: nat, ctx: Context, now: Time)
    requires i < n <= |items|
    ensures AssigneeMakesSense(doc, items[..n], i, ctx, now) <==> AssigneeMakesSense(doc, items, i, ctx, now)
    ensures AssigneeError(doc, items[..n], i, ctx) == AssigneeError(doc, items, i, ctx)
  {
  }

  /** Exactly when every submitted assignee makes sense and is allowed, all are resolved as submitted. */
  lemma {:induction false} RowsTable(doc: Doc, items: seq<AssigneeItem>, ctx: Context, now: Time)
    ensures var r := ResolvedRows(doc, items, ctx, now);
            && (r.Ok? <==> forall i :: 0 <= i < |items| ==>
                             AssigneeMakesSense(doc, items, i, ctx, now) && AssigneeAllowed(doc, items[i], ctx))
            && (r.Ok? ==> |r.value| == |items| && forall i :: 0 <= i < |items| ==> RowHolds(doc, items, now, i, r.value[i]))
            && (r.Err? ==> exists i :: FirstUnfitAssignee(doc, items, i, ctx, now) && r.error == AssigneeError(doc, items, i, ctx))
  {
    if items != [] {
      var n := |items| - 1;
      var front := items[..n];
      RowsTable(doc, front, ctx, now);
      forall i | 0 <= i < n ensures AssigneeMakesSense(doc, front, i, ctx, now) <==> AssigneeMakesSense(doc, items, i, ctx, now)
        ensures AssigneeError(doc, front, i, ctx) == AssigneeError(doc, items, i, ctx) {
        SameAssigneeInFront(doc, items, n, i, ctx, now);
      }
      var prior := ResolvedRows(doc, front, ctx, now);
      if prior.Ok? {
        forall i | 0 <= i < n ensures RowHolds(doc, items, now, i, prior.value[i]) {
          assert RowHolds(doc, front, now, i, prior.value[i]);
        }
        AssigneeTable(doc, items, prior.value, n, ctx, now);
        assert ResolvedRows(doc, items, ctx, now).Err? ==> FirstUnfitAssignee(doc, items, n, ctx, now);
      } else {
        var i :| FirstUnfitAssignee(doc, front, i, ctx, now) && prior.error == AssigneeError(doc, front, i, ctx);
        assert FirstUnfitAssignee(doc, items, i, ctx, now);
      }
    }
  }

  lemma {:induction false} AssignedHolds(rows: seq<FinalRow>)
    requires forall i, j :: 0 <= i < j < |rows| ==> rows[i].member != rows[j].member
    ensures forall i :: 0 <= i < |rows| ==> rows[i].member in Assigned(rows) && Assigned(rows)[rows[i].member] == rows[i].row
    ensures forall m :: m in Assigned(rows) ==> exists i :: 0 <= i < |rows| && rows[i].member == m
  {
    if rows != [] {
      var n := |rows| - 1;
      var front := rows[..n];
      AssignedHolds(front);
      forall i | 0 <= i < n ensures rows[i].member in Assigned(rows) && Assigned(rows)[rows[i].member] == rows[i].row {
        assert front[i] == rows[i];
      }
      forall m | m in Assigned(rows) ensures exists i :: 0 <= i < |rows| && rows[i].member == m {
        if m in Assigned(front) {
          var i :| 0 <= i < |front| && front[i].member == m;
          assert rows[i].member == m;
        } else {
          assert rows[n].member == m;
        }
      }
    }
  }

  /** The assignees of an accepted update are exactly the submitted ones, as submitted; left alone they stay. */
  lemma SubmittedAssigneesAreWritten(doc: Doc, request: Request, ctx: Context, now: Time, savedAt: Time, newIds: nat -> Id)
    requires Updated(doc, request, ctx, now, savedAt, newIds).Ok?
    ensures var after := Updated(doc, request, ctx, now, savedAt, newIds).value.assignees;
            if request.assignees.None? then after == doc.assignees
            else
              && (forall i :: 0 <= i < |request.assignees.value| ==>
                    var item := request.assignees.value[i];
                    item.member.Some? && item.member.value in after && HoldsAssignee(doc, item, now, after[item.member.value]))
              && (forall m :: m in after ==> exists i :: 0 <= i < |request.assignees.value| && request.assignees.value[i].member == Some(m))
  {
    var assignees, finals, tasks := AcceptedParts(doc, request, ctx, now, savedAt, newIds);
    if request.assignees.Some? {
      var items := request.assignees.value;
      var rows := ResolvedRows(doc, items, ctx, now).value;
      RowsTable(doc, items, ctx, now);
      ResolvedMembersDistinct(doc, items, ctx, now);
      AssignedHolds(rows);
      forall i | 0 <= i < |items|
        ensures items[i].member.Some? && items[i].member.value in assignees
                && HoldsAssignee(doc, items[i], now, assignees[items[i].member.value]) {
        assert RowHolds(doc, items, now, i, rows[i]);
      }
      forall m | m in assignees ensures exists i :: 0 <= i < |items| && items[i].member == Some(m) {
        var i :| 0 <= i < |rows| && rows[i].member == m;
        assert RowHolds(doc, items, now, i, rows[i]);
      }
    }
  }

  // ----- the execution itself -----

  /** Somebody joined, left or got another end, or a task's doer or deadline became another. */
  ghost predicate IsActivity(before: Doc, assignees: map<Id, AssigneeRow>, tasks: map<Id, Task>) {
    || (exists m :: (m in before.assignees) != (m in assignees))
    || (exists m :: m in before.assignees && m in assignees && before.assignees[m].endAt != assignees[m].endAt)
    || (exists t :: t in before.tasks && t in tasks
                    && (before.tasks[t].doer != tasks[t].doer || before.tasks[t].deadline != tasks[t].deadline))
    || (exists t :: t in before.tasks && t !in tasks && (before.tasks[t].doer.Some? || before.tasks[t].deadline.Some?))
    || (exists t :: t in tasks && t !in before.tasks && (tasks[t].doer.Some? || tasks[t].deadline.Some?))
  }

  lemma ActivityExactly(doc: Doc, assignees: map<Id, AssigneeRow>, tasks: map<Id, Task>)
    ensures Activity(doc, assignees, tasks) <==> IsActivity(doc, assignees, tasks)
  {
    if IsActivity(doc, assignees, tasks) {
      ChangesAreActive(doc, assignees, tasks);
    }
    ActiveIsChange(doc, assignees, tasks);
  }

  lemma ChangesAreActive(doc: Doc, assignees: map<Id, AssigneeRow>, tasks: map<Id, Task>)
    requires IsActivity(doc, assignees, tasks)
    ensures Activity(doc, assignees, tasks)
  {
    if t :| t in doc.tasks && t in tasks && (doc.tasks[t].doer != tasks[t].doer || doc.tasks[t].deadline != tasks[t].deadline) {
      assert TaskActive(if t in doc.tasks then Some(doc.tasks[t]) else None, Some(tasks[t]));
    } else if t :| t in tasks && t !in doc.tasks && (tasks[t].doer.Some? || tasks[t].deadline.Some?) {
      assert TaskActive(None, Some(tasks[t]));
    } else if t :| t in doc.tasks && t !in tasks && (doc.tasks[t].doer.Some? || doc.tasks[t].deadline.Some?) {
      assert TaskActive(Some(doc.tasks[t]), None);
    }
  }

  lemma ActiveIsChange(doc: Doc, assignees: map<Id, AssigneeRow>, tasks: map<Id, Task>)
    ensures Activity(doc, assignees, tasks) ==> IsActivity(doc, assignees, tasks)
  {
    if m :| m in assignees && (m !in doc.assignees || assignees[m].endAt != doc.assignees[m].endAt) {
    }
    if m :| m in doc.assignees && m !in assignees {
      assert (m in doc.assignees) != (m in assignees);
    }
    if t :| t in tasks && TaskActive(if t in doc.tasks then Some(doc.tasks[t]) else None, Some(tasks[t])) {
    }
    if t :| t in doc.tasks && t !in tasks && TaskActive(Some(doc.tasks[t]), None) {
    }
  }

  /** The texts are as asked or as they were, the reading is new, and the lifecycle part is the edit. */
  lemma ContentIsWritten(doc: Doc, request: Request, ctx: Context, now: Time, savedAt: Time, newIds: nat -> Id)
    requires Updated(doc, request, ctx, now, savedAt, newIds).Ok?
    ensures var next := Updated(doc, request, ctx, now, savedAt, newIds).value;
            && (request.title == Some(next.title) || (request.title.None? && next.title == doc.title))
            && (request.description == Some(next.description) || (request.description.None? && next.description == doc.description))
            && next.updatedAt == savedAt && next.pilot == doc.pilot
            && IsEdited(doc.execution, next.execution, request.edit, IsActivity(doc, next.assignees, next.tasks), now)
  {
    var assignees, finals, tasks := AcceptedParts(doc, request, ctx, now, savedAt, newIds);
    ActivityExactly(doc, assignees, tasks);
    EditTable(doc.execution, request.edit, Activity(doc, assignees, tasks), now);
  }

  // ----- when an update is accepted -----

  /** Checked first, in this order. */
  lemma RefusalTable(doc: Doc, request: Request, ctx: Context, now: Time, savedAt: Time, newIds: nat -> Id)
    ensures var r := Updated(doc, request, ctx, now, savedAt, newIds);
            if !ctx.canUpdate then r == Err(Denied)
            else if doc.execution.status != InProgress then r == Err(WrongState)
            else if request.expectedUpdatedAt != doc.updatedAt then r == Err(Stale)
            else if ctx.staff && request.edit.requiresValidation == Some(true) then r == Err(Denied)
            else if !MayEdit(doc.execution, request.edit) then r == Err(Invalid)
            else true
  {
    EditTable(doc.execution, request.edit, false, now);
  }

  /** A pending task that is not named can go when the actor may write it and no observation names it. */
  ghost predicate MayGo(doc: Doc, t: Id, ctx: Context) {
    t in doc.tasks && (ctx.admin || doc.tasks[t].unit == doc.pilot) && t !in ctx.observedTasks
  }

  /** An assignee that is not named can be removed by an administrator, or by who manages its unit. */
  ghost predicate MayLeave(doc: Doc, m: Id, ctx: Context) {
    m in doc.assignees && (ctx.admin || doc.assignees[m].unit in ctx.manages)
  }

  /** The assignees that are submitted fit, and those that are left out may be removed. */
  ghost predicate AssigneesFit(doc: Doc, items: seq<AssigneeItem>, ctx: Context, now: Time) {
    && (forall i :: 0 <= i < |items| ==> AssigneeMakesSense(doc, items, i, ctx, now) && AssigneeAllowed(doc, items[i], ctx))
    && (forall m :: m in doc.assignees && (forall i :: 0 <= i < |items| ==> items[i].member != Some(m)) ==> MayLeave(doc, m, ctx))
  }

  /** There are at most ten tasks, the submitted ones fit, and the pending ones that are left out may go. */
  ghost predicate TasksFit(doc: Doc, items: seq<TaskItem>, finals: set<Id>, ctx: Context) {
    && |items| + |set t | t in doc.tasks && !doc.tasks[t].pending| <= 10
    && (forall i :: 0 <= i < |items| ==> ItemFits(doc, items, i, finals, ctx))
    && (forall t :: t in doc.tasks && doc.tasks[t].pending && (forall i :: 0 <= i < |items| ==> items[i].id != Some(t)) ==> MayGo(doc, t, ctx))
  }

  lemma AssigneesAccepted(doc: Doc, items: seq<AssigneeItem>, ctx: Context, now: Time)
    ensures FinalAssignees(doc, Some(items), ctx, now).Ok? <==> AssigneesFit(doc, items, ctx, now)
  {
    RowsTable(doc, items, ctx, now);
    var r := ResolvedRows(doc, items, ctx, now);
    if r.Ok? {
      forall m ensures m in MembersOf(r.value) <==> exists i :: 0 <= i < |items| && items[i].member == Some(m) {
        if m in MembersOf(r.value) {
          var i :| 0 <= i < |r.value| && r.value[i].member == m;
          assert RowHolds(doc, items, now, i, r.value[i]);
        }
        if i :| 0 <= i < |items| && items[i].member == Some(m) {
          assert RowHolds(doc, items, now, i, r.value[i]);
        }
      }
    }
  }

  lemma TreatedAre(doc: Doc)
    ensures TreatedCount(doc) == |set t | t in doc.tasks && !doc.tasks[t].pending|
  {
    assert TreatedTasks(doc).Keys == set t | t in doc.tasks && !doc.tasks[t].pending;
  }

  lemma TasksAccepted(doc: Doc, request: Request, finals: set<Id>, ctx: Context, newIds: nat -> Id)
    requires request.tasks.Some?
    ensures FinalTasks(doc, request, finals, ctx, newIds).Ok? <==> TasksFit(doc, request.tasks.value, finals, ctx)
  {
    var items := request.tasks.value;
    ItemsTable(doc, items, finals, ctx, newIds);
    TreatedAre(doc);
    var r := ResolvedTasks(doc, items, finals, ctx, newIds);
    if r.Ok? {
      forall t: Id ensures SeenId(r.value, t) <==> exists i :: 0 <= i < |items| && items[i].id == Some(t) {
        SeenIsNamed(doc, items, finals, ctx, newIds, t);
      }
      StuckExactly(doc, items, r.value, ctx);
    }
  }

  lemma StuckExactly(doc: Doc, items: seq<TaskItem>, specs: seq<Spec>, ctx: Context)
    requires forall t: Id :: SeenId(specs, t) <==> exists i :: 0 <= i < |items| && items[i].id == Some(t)
    ensures Stuck(doc, specs, ctx) == {} <==>
              forall t :: t in doc.tasks && doc.tasks[t].pending && (forall i :: 0 <= i < |items| ==> items[i].id != Some(t)) ==> MayGo(doc, t, ctx)
  {
    forall t: Id ensures t in Stuck(doc, specs, ctx) <==>
                t in doc.tasks && doc.tasks[t].pending && !SeenId(specs, t) && !MayGo(doc, t, ctx) {
    }
  }

  lemma NotRefused(doc: Doc, request: Request, ctx: Context)
    requires ctx.canUpdate && doc.execution.status == InProgress && request.expectedUpdatedAt == doc.updatedAt
    requires !(ctx.staff && request.edit.requiresValidation == Some(true)) && MayEdit(doc.execution, request.edit)
    ensures Refused(doc, request, ctx).None?
  {
  }

  lemma AcceptedPastChecks(doc: Doc, request: Request, ctx: Context, now: Time, savedAt: Time, newIds: nat -> Id)
    requires Refused(doc, request, ctx).None?
    ensures Updated(doc, request, ctx, now, savedAt, newIds).Ok? <==>
              && (request.assignees.Some? ==> AssigneesFit(doc, request.assignees.value, ctx, now))
              && (exists finals: map<Id, AssigneeRow> :: FinalAssignees(doc, request.assignees, ctx, now) == Ok(finals)
                    && (exists m :: m in finals)
                    && (request.tasks.Some? ==>
                          TasksFit(doc, request.tasks.value, (set m | m in finals), ctx)
                          && forall t :: t in doc.tasks && doc.tasks[t].pending ==> t !in ctx.observedTasks))
              && (ctx.staff ==> ctx.staffAccepts)
  {
    if request.assignees.Some? {
      AssigneesAccepted(doc, request.assignees.value, ctx, now);
    }
    var r := FinalAssignees(doc, request.assignees, ctx, now);
    if r.Ok? {
      var finals := set m | m in r.value;
      assert finals != {} <==> exists m :: m in r.value by {
        if m :| m in r.value {
          assert m in finals;
        }
      }
      if request.tasks.Some? {
        TasksAccepted(doc, request, finals, ctx, newIds);
      }
    }
  }

  /** Past the first checks, an update is accepted exactly when its assignees and tasks fit and nothing protects a task. */
  lemma AcceptedExactly(doc: Doc, request: Request, ctx: Context, now: Time, savedAt: Time, newIds: nat -> Id)
    requires ctx.canUpdate && doc.execution.status == InProgress && request.expectedUpdatedAt == doc.updatedAt
    requires !(ctx.staff && request.edit.requiresValidation == Some(true)) && MayEdit(doc.execution, request.edit)
    ensures Updated(doc, request, ctx, now, savedAt, newIds).Ok? <==>
              && (request.assignees.Some? ==> AssigneesFit(doc, request.assignees.value, ctx, now))
              && (exists finals: map<Id, AssigneeRow> :: FinalAssignees(doc, request.assignees, ctx, now) == Ok(finals)
                    && (exists m :: m in finals)
                    && (request.tasks.Some? ==>
                          TasksFit(doc, request.tasks.value, (set m | m in finals), ctx)
                          && forall t :: t in doc.tasks && doc.tasks[t].pending ==> t !in ctx.observedTasks))
              && (ctx.staff ==> ctx.staffAccepts)
  {
    NotRefused(doc, request, ctx);
    AcceptedPastChecks(doc, request, ctx, now, savedAt, newIds);
  }

  // ----- which error -----

  /** The pending task of the least id that is left out and may not go. */
  ghost predicate FirstStuck(doc: Doc, items: seq<TaskItem>, ctx: Context, t: Id) {
    && LeftOut(doc, items, t) && !MayGo(doc, t, ctx)
    && forall u :: LeftOut(doc, items, u) && !MayGo(doc, u, ctx) ==> t <= u
  }

  ghost predicate LeftOut(doc: Doc, items: seq<TaskItem>, t: Id) {
    t in doc.tasks && doc.tasks[t].pending && forall i :: 0 <= i < |items| ==> items[i].id != Some(t)
  }

  /** Too many tasks, else the first item that does not fit, else the first task that may not go. */
  lemma TaskErrors(doc: Doc, request: Request, finals: set<Id>, ctx: Context, newIds: nat -> Id)
    requires request.tasks.Some? && FinalTasks(doc, request, finals, ctx, newIds).Err?
    ensures var items, f := request.tasks.value, FinalTasks(doc, request, finals, ctx, newIds).error;
            if |items| + |set t | t in doc.tasks && !doc.tasks[t].pending| > 10 then f == Invalid
            else if exists i :: 0 <= i < |items| && !ItemFits(doc, items, i, finals, ctx) then
              exists i :: FirstUnfit(doc, items, i, finals, ctx) && f == if ItemMakesSense(doc, items, i, finals, ctx) then Denied else Invalid
            else exists t :: FirstStuck(doc, items, ctx, t) && f == if ctx.admin || doc.tasks[t].unit == doc.pilot then Invalid else Denied
  {
    var items := request.tasks.value;
    ItemsTable(doc, items, finals, ctx, newIds);
    TreatedAre(doc);
    var r := ResolvedTasks(doc, items, finals, ctx, newIds);
    if r.Ok? && |items| + TreatedCount(doc) <= 10 {
      StuckIsLeftOut(doc, items, finals, ctx, newIds);
      assert FirstStuck(doc, items, ctx, Least(Stuck(doc, r.value, ctx)));
    }
  }

  lemma StuckIsLeftOut(doc: Doc, items: seq<TaskItem>, finals: set<Id>, ctx: Context, newIds: nat -> Id)
    requires ResolvedTasks(doc, items, finals, ctx, newIds).Ok?
    ensures forall t: Id :: t in Stuck(doc, ResolvedTasks(doc, items, finals, ctx, newIds).value, ctx)
                            <==> LeftOut(doc, items, t) && !MayGo(doc, t, ctx)
  {
    forall t: Id ensures SeenId(ResolvedTasks(doc, items, finals, ctx, newIds).value, t) <==> Names(items, t) {
      SeenIsNamed(doc, items, finals, ctx, newIds, t);
    }
  }

  /** Past the first checks: the assignees' error, else nobody left, else the tasks', else the staff's limits, else a protected task. */
  lemma ErrorOrder(doc: Doc, request: Request, ctx: Context, now: Time, savedAt: Time, newIds: nat -> Id)
    requires ctx.canUpdate && doc.execution.status == InProgress && request.expectedUpdatedAt == doc.updatedAt
    requires !(ctx.staff && request.edit.requiresValidation == Some(true)) && MayEdit(doc.execution, request.edit)
    requires Updated(doc, request, ctx, now, savedAt, newIds).Err?
    ensures var f, assignees := Updated(doc, request, ctx, now, savedAt, newIds).error, FinalAssignees(doc, request.assignees, ctx, now);
            if assignees.Err? then f == assignees.error
            else if (set m | m in assignees.value) == {} then f == Invalid
            else
              var tasks := FinalTasks(doc, request, (set m | m in assignees.value), ctx, newIds);
              if tasks.Err? then f == tasks.error else if ctx.staff && !ctx.staffAccepts then f == Denied else f == Protected
  {
  }

  /** An assignee that does not fit decides the error; when all fit, one that may not be removed. */
  lemma AssigneeErrors(doc: Doc, items: seq<AssigneeItem>, ctx: Context, now: Time)
    requires FinalAssignees(doc, Some(items), ctx, now).Err?
    ensures var f := FinalAssignees(doc, Some(items), ctx, now).error;
            if ResolvedRows(doc, items, ctx, now).Ok? then f == Denied
            else exists i :: FirstUnfitAssignee(doc, items, i, ctx, now) && f == AssigneeError(doc, items, i, ctx)
  {
    RowsTable(doc, items, ctx, now);
  }
}
