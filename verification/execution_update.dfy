/**
 Editing an execution in progress: its window and texts, its assignees and its pending
 tasks, checked as a whole before anything is written.
 */
module ExecutionUpdate {
  import opened Core
  import opened Lifecycle

  const MAX_TASKS := 10
  const MIN_POSITION := 1
  const MAX_POSITION := 10

  datatype AssigneeRow = AssigneeRow(unit: Id, startAt: Option<Time>, visibleFrom: Option<Time>, endAt: Option<Time>)

  datatype Task = Task(planTask: Option<Id>, text: string, description: string, unit: Id, position: int,
                       deadline: Option<Time>, doer: Option<Id>, pending: bool, observation: Option<Id>)

  /** An execution with its child rows; a team tells whether it is flagged as the pilot's. */
  datatype Doc = Doc(execution: Execution, updatedAt: Time, title: string, description: string, pilot: Id,
                     assignees: map<Id, AssigneeRow>, tasks: map<Id, Task>, teams: map<Id, bool>,
                     sources: map<Id, Id>)

  datatype AssigneeItem = AssigneeItem(member: Option<Id>, unit: Option<Id>, endAt: Option<Option<Time>>, setsStart: bool)

  datatype TaskItem = TaskItem(id: Option<Id>, position: Option<int>, text: string, description: string, unit: Option<Id>,
                               deadline: Option<Time>, doer: Option<Id>)

  /** What is asked for; `None` leaves a part alone. */
  datatype Request = Request(expectedUpdatedAt: Time, title: Option<string>, description: Option<string>, edit: Edit,
                             assignees: Option<seq<AssigneeItem>>, tasks: Option<seq<TaskItem>>)

  /** What the actor may do and what the establishment holds. */
  datatype Context = Context(
    canUpdate: bool, admin: bool, staff: bool,
    assigns: set<Id>, manages: set<Id>,
    members: set<Id>, units: set<Id>, covers: set<(Id, Id)>,
    observedTasks: set<Id>,
    staffAccepts: bool)

  datatype Failure = Denied | WrongState | Stale | Invalid | Protected

  datatype FinalRow = FinalRow(member: Id, row: AssigneeRow)

  datatype Spec = Spec(id: Id, isNew: bool, task: Task)

  // ----- assignees -----

  function MembersOf(rows: seq<FinalRow>): set<Id> {
    set i | 0 <= i < |rows| :: rows[i].member
  }

  /** One submitted assignee: an existing one keeps its unit and start, a new one gets the execution's or now. */
  function ResolvedRow(doc: Doc, item: AssigneeItem, seen: set<Id>, ctx: Context, now: Time): Result<FinalRow, Failure> {
    if item.member.None? || item.unit.None? || item.setsStart then Err(Invalid)
    else
      var m, u := item.member.value, item.unit.value;
      if m !in ctx.members || m in seen || u !in ctx.units || (m, u) !in ctx.covers then Err(Invalid)
      else if m in doc.assignees then
        var kept := doc.assignees[m];
        var endAt := if item.endAt.Some? then item.endAt.value else kept.endAt;
        if kept.unit != u || !EndAfterStart(kept.startAt, endAt) then Err(Invalid)
        else Ok(FinalRow(m, kept.(endAt := endAt)))
      else if u !in ctx.assigns then Err(Denied)
      else
        var startAt := if doc.execution.useSharedChronology then doc.execution.startAt else Some(now);
        var visibleFrom := if doc.execution.useSharedChronology then doc.execution.visibleFrom else Some(now);
        var endAt := if item.endAt.Some? then item.endAt.value else None;
        if !EndAfterStart(startAt, endAt) then Err(Invalid) else Ok(FinalRow(m, AssigneeRow(u, startAt, visibleFrom, endAt)))
  }

  function ResolvedRows(doc: Doc, items: seq<AssigneeItem>, ctx: Context, now: Time): Result<seq<FinalRow>, Failure> {
    if items == [] then Ok([])
    else
      var n := |items| - 1;
      var prior := ResolvedRows(doc, items[..n], ctx, now);
      if prior.Err? then prior
      else
        match ResolvedRow(doc, items[n], MembersOf(prior.value), ctx, now)
        case Err(f) => Err(f)
        case Ok(row) => Ok(prior.value + [row])
  }

  predicate MayRemove(doc: Doc, m: Id, ctx: Context) {
    ctx.admin || (m in doc.assignees && doc.assignees[m].unit in ctx.manages)
  }

  function FinalAssignees(doc: Doc, items: Option<seq<AssigneeItem>>, ctx: Context, now: Time): Result<map<Id, AssigneeRow>, Failure> {
    if items.None? then Ok(doc.assignees)
    else
      match ResolvedRows(doc, items.value, ctx, now)
      case Err(f) => Err(f)
      case Ok(rows) =>
        if exists m :: m in doc.assignees && m !in MembersOf(rows) && !MayRemove(doc, m, ctx) then Err(Denied)
        else Ok(Assigned(rows))
  }

  function Assigned(rows: seq<FinalRow>): map<Id, AssigneeRow> {
    if rows == [] then map[]
    else var n := |rows| - 1; Assigned(rows[..n])[rows[n].member := rows[n].row]
  }

  lemma {:induction false} AssignedMembers(rows: seq<FinalRow>)
    ensures forall m :: m in Assigned(rows) <==> m in MembersOf(rows)
  {
    if rows != [] {
      var n := |rows| - 1;
      AssignedMembers(rows[..n]);
      forall m ensures m in MembersOf(rows) <==> m in MembersOf(rows[..n]) || m == rows[n].member {
        if m in MembersOf(rows) {
          var i :| 0 <= i < |rows| && rows[i].member == m;
          assert i < n ==> rows[..n][i].member == m;
        }
        if m in MembersOf(rows[..n]) {
          var i :| 0 <= i < n && rows[..n][i].member == m;
          assert rows[i].member == m;
        }
      }
    }
  }

  // ----- pending tasks -----

  predicate Treated(doc: Doc, t: Id) { t in doc.tasks && !doc.tasks[t].pending }

  predicate IsPending(doc: Doc, t: Id) { t in doc.tasks && doc.tasks[t].pending }

  predicate MayTouch(doc: Doc, unit: Id, ctx: Context) { ctx.admin || unit == doc.pilot }

  predicate TakenPosition(doc: Doc, specs: seq<Spec>, position: int) {
    || (exists t :: t in doc.tasks && !doc.tasks[t].pending && doc.tasks[t].position == position)
    || (exists i :: 0 <= i < |specs| && specs[i].task.position == position)
  }

  predicate SeenId(specs: seq<Spec>, id: Id) {
    exists i :: 0 <= i < |specs| && !specs[i].isNew && specs[i].id == id
  }

  /** One submitted task; `fresh` is the identifier it gets if it is new. */
  function ResolvedTask(doc: Doc, item: TaskItem, index: nat, specs: seq<Spec>, finals: set<Id>, ctx: Context, newId: Id)
    : Result<Spec, Failure> {
    var position := if item.position.Some? then item.position.value else index;
    if position < MIN_POSITION || position > MAX_POSITION || TakenPosition(doc, specs, position) then Err(Invalid)
    else if item.unit.None? || item.unit.value !in ctx.units then Err(Invalid)
    else if item.doer.Some? && (item.doer.value !in finals || item.doer.value !in ctx.members
                                || (item.doer.value, item.unit.value) !in ctx.covers) then Err(Invalid)
    else
      var u := item.unit.value;
      if item.id.None? then
        if !MayTouch(doc, u, ctx) then Err(Denied)
        else Ok(Spec(newId, true, Task(None, item.text, item.description, u, position, item.deadline, item.doer, true, None)))
      else if SeenId(specs, item.id.value) || !IsPending(doc, item.id.value) then Err(Invalid)
      else
        var held := doc.tasks[item.id.value];
        var next := held.(text := item.text, description := item.description, unit := u, position := position,
                          deadline := item.deadline, doer := item.doer);
        if next != held && (!MayTouch(doc, held.unit, ctx) || !MayTouch(doc, u, ctx)) then Err(Denied)
        else Ok(Spec(item.id.value, false, next))
  }

  function ResolvedTasks(doc: Doc, items: seq<TaskItem>, finals: set<Id>, ctx: Context, newIds: nat -> Id): Result<seq<Spec>, Failure> {
    if items == [] then Ok([])
    else
      var n := |items| - 1;
      var prior := ResolvedTasks(doc, items[..n], finals, ctx, newIds);
      if prior.Err? then prior
      else
        match ResolvedTask(doc, items[n], n + 1, prior.value, finals, ctx, newIds(n))
        case Err(f) => Err(f)
        case Ok(spec) => Ok(prior.value + [spec])
  }

  function TreatedCount(doc: Doc): nat { |TreatedTasks(doc)| }

  predicate CannotDrop(doc: Doc, t: Id, ctx: Context) {
    t in doc.tasks && (!MayTouch(doc, doc.tasks[t].unit, ctx) || t in ctx.observedTasks)
  }

  /** Pending tasks that are left out but out of reach, or named by an observation. */
  function Stuck(doc: Doc, specs: seq<Spec>, ctx: Context): set<Id> {
    set t | t in doc.tasks && doc.tasks[t].pending && !SeenId(specs, t) && CannotDrop(doc, t, ctx)
  }

  function Least(s: set<Id>): (m: Id)
    requires s != {}
    ensures m in s && forall x :: x in s ==> m <= x
  {
    HasLeast(s);
    var m :| m in s && forall x :: x in s ==> m <= x;
    m
  }

  lemma HasLeast(s: set<Id>)
    requires s != {}
    ensures exists m :: m in s && forall x :: x in s ==> m <= x
  {
    var least := FindLeast(s);
  }

  lemma {:induction false} FindLeast(s: set<Id>) returns (least: Id)
    requires s != {}
    ensures least in s && forall x :: x in s ==> least <= x
    decreases |s|
  {
    var y :| y in s;
    var rest := s - {y};
    least := y;
    if rest != {} {
      var m := FindLeast(rest);
      if m < y {
        least := m;
      }
    }
    assert forall x :: x in s ==> x == y || x in rest;
  }

  /** Tasks are looked at in the order of their ids; the first that cannot go decides the error. */
  function DropFailure(doc: Doc, specs: seq<Spec>, ctx: Context): Option<Failure> {
    if Stuck(doc, specs, ctx) == {} then None
    else if !MayTouch(doc, doc.tasks[Least(Stuck(doc, specs, ctx))].unit, ctx) then Some(Denied) else Some(Invalid)
  }

  function Written(specs: seq<Spec>): map<Id, Task> {
    if specs == [] then map[]
    else var n := |specs| - 1; Written(specs[..n])[specs[n].id := specs[n].task]
  }

  function TreatedTasks(doc: Doc): map<Id, Task> {
    map t | t in doc.tasks && Treated(doc, t) :: doc.tasks[t]
  }

  /** Tasks of members that have been removed lose their assignment. */
  function AutoUnassigned(doc: Doc, finals: set<Id>): map<Id, Task> {
    map t | t in doc.tasks ::
      var task := doc.tasks[t];
      if task.pending && task.doer.Some? && task.doer.value in doc.assignees && task.doer.value !in finals
      then task.(doer := None) else task
  }

  function FinalTasks(doc: Doc, request: Request, finals: set<Id>, ctx: Context, newIds: nat -> Id): Result<map<Id, Task>, Failure> {
    if request.tasks.None? then Ok(if request.assignees.Some? then AutoUnassigned(doc, finals) else doc.tasks)
    else if |request.tasks.value| + TreatedCount(doc) > MAX_TASKS then Err(Invalid)
    else
      match ResolvedTasks(doc, request.tasks.value, finals, ctx, newIds)
      case Err(f) => Err(f)
      case Ok(specs) =>
        if DropFailure(doc, specs, ctx).Some? then Err(DropFailure(doc, specs, ctx).value)
        else Ok(TreatedTasks(doc) + Written(specs))
  }

  // ----- teams -----

  function NeededUnits(pilot: Id, assignees: map<Id, AssigneeRow>, tasks: map<Id, Task>): set<Id> {
    {pilot} + (set m | m in assignees :: assignees[m].unit) + (set t | t in tasks :: tasks[t].unit)
  }

  /** Missing teams are created; a team of no use is deleted unless it is flagged as the pilot's. */
  function SyncedTeams(pilot: Id, teams: map<Id, bool>, needed: set<Id>): map<Id, bool> {
    var kept := needed + (set u | u in teams && teams[u]);
    map u | u in kept :: if u in teams then teams[u] else u == pilot
  }

  /** Teams while the missing ones are being created. */
  ghost predicate TeamsAdded(pilot: Id, before: map<Id, bool>, needed: set<Id>, missing: set<Id>, teams: map<Id, bool>) {
    && missing <= needed
    && (forall u :: u in teams <==> u in before || (u in needed && u !in missing))
    && (forall u :: u in teams ==> teams[u] == if u in before then before[u] else u == pilot)
  }

  lemma TeamAdded(pilot: Id, before: map<Id, bool>, needed: set<Id>, missing: set<Id>, teams: map<Id, bool>, u: Id)
    requires TeamsAdded(pilot, before, needed, missing, teams) && u in missing
    ensures TeamsAdded(pilot, before, needed, missing - {u}, if u in teams then teams else teams[u := u == pilot])
  {
  }

  lemma OrphansDropped(pilot: Id, before: map<Id, bool>, needed: set<Id>, teams: map<Id, bool>, after: map<Id, bool>)
    requires TeamsAdded(pilot, before, needed, {}, teams)
    requires forall u :: u in after <==> u in teams && (teams[u] || u in needed)
    requires forall u :: u in after ==> after[u] == teams[u]
    ensures after == SyncedTeams(pilot, before, needed)
  {
  }

  // ----- the whole update -----

  /** What counts as activity besides a new deadline of the execution itself. */
  predicate Activity(doc: Doc, assignees: map<Id, AssigneeRow>, tasks: map<Id, Task>) {
    || (exists m :: m in doc.assignees && m !in assignees)
    || (exists m :: m in assignees && (m !in doc.assignees || assignees[m].endAt != doc.assignees[m].endAt))
    || (exists t :: t in tasks && TaskActive(if t in doc.tasks then Some(doc.tasks[t]) else None, Some(tasks[t])))
    || (exists t :: t in doc.tasks && t !in tasks && TaskActive(Some(doc.tasks[t]), None))
  }

  predicate TaskActive(before: Option<Task>, after: Option<Task>) {
    DoerOf(before) != DoerOf(after) || DeadlineOf(before) != DeadlineOf(after)
  }

  function DoerOf(t: Option<Task>): Option<Id> { if t.Some? then t.value.doer else None }

  function DeadlineOf(t: Option<Task>): Option<Time> { if t.Some? then t.value.deadline else None }

  /** The comments whose task outlives the deletion of every pending task; the others lose their link. */
  function SourcesLeft(sources: map<Id, Id>, tasks: map<Id, Task>): map<Id, Id> {
    map c | c in sources && !(sources[c] in tasks && tasks[sources[c]].pending) :: sources[c]
  }

  /** An observation protects its task, so the pending tasks cannot be deleted to be written again. */
  predicate SomePendingObserved(tasks: map<Id, Task>, observed: set<Id>) {
    exists t :: t in tasks && tasks[t].pending && t in observed
  }

  function Edited(doc: Doc, request: Request, assignees: map<Id, AssigneeRow>, tasks: map<Id, Task>, now: Time, savedAt: Time): Doc {
    Rewritten(doc, request, EditContent(doc.execution, request.edit, Activity(doc, assignees, tasks), now), assignees, tasks, savedAt)
  }

  function Rewritten(doc: Doc, request: Request, execution: Execution, assignees: map<Id, AssigneeRow>, tasks: map<Id, Task>,
                     savedAt: Time): Doc {
    WithContent(doc, request, execution, savedAt).(
      assignees := assignees, tasks := tasks, teams := SyncedTeams(doc.pilot, doc.teams, NeededUnits(doc.pilot, assignees, tasks)),
      sources := if request.tasks.Some? then SourcesLeft(doc.sources, doc.tasks) else doc.sources)
  }

  function WithContent(doc: Doc, request: Request, execution: Execution, savedAt: Time): Doc {
    doc.(execution := execution, updatedAt := savedAt,
         title := if request.title.Some? then request.title.value else doc.title,
         description := if request.description.Some? then request.description.value else doc.description)
  }

  /** What is checked before anything is resolved. */
  function Refused(doc: Doc, request: Request, ctx: Context): Option<Failure> {
    if !ctx.canUpdate then Some(Denied)
    else if doc.execution.status != InProgress then Some(WrongState)
    else if doc.updatedAt != request.expectedUpdatedAt then Some(Stale)
    else if ctx.staff && request.edit.requiresValidation == Some(true) then Some(Denied)
    else if !EditAccepted(doc.execution, request.edit) then Some(Invalid)
    else None
  }

  function Updated(doc: Doc, request: Request, ctx: Context, now: Time, savedAt: Time, newIds: nat -> Id): Result<Doc, Failure> {
    if Refused(doc, request, ctx).Some? then Err(Refused(doc, request, ctx).value)
    else
      match FinalAssignees(doc, request.assignees, ctx, now)
      case Err(f) => Err(f)
      case Ok(assignees) =>
        var finals := set m | m in assignees;
        if finals == {} then Err(Invalid)
        else
          match FinalTasks(doc, request, finals, ctx, newIds)
          case Err(f) => Err(f)
          case Ok(tasks) =>
            if ctx.staff && !ctx.staffAccepts then Err(Denied)
            else if request.tasks.Some? && SomePendingObserved(doc.tasks, ctx.observedTasks) then Err(Protected)
            else Ok(Edited(doc, request, assignees, tasks, now, savedAt))
  }

  // ----- what an accepted update guarantees -----

  ghost predicate FreshIds(doc: Doc, newIds: nat -> Id) {
    && (forall i: nat :: newIds(i) !in doc.tasks)
    && (forall i: nat, j: nat :: newIds(i) == newIds(j) ==> i == j)
  }

  ghost predicate InBounds(tasks: map<Id, Task>) {
    forall t :: t in tasks ==> MIN_POSITION <= tasks[t].position <= MAX_POSITION
  }

  ghost predicate OneEach(tasks: map<Id, Task>) {
    forall t, u :: t in tasks && u in tasks && tasks[t].position == tasks[u].position ==> t == u
  }

  /** The two constraints of the task table. */
  ghost predicate Positioned(tasks: map<Id, Task>) { InBounds(tasks) && OneEach(tasks) }

  ghost predicate DoersAssigned(assignees: set<Id>, tasks: map<Id, Task>) {
    forall t :: t in tasks && tasks[t].pending && tasks[t].doer.Some? ==> tasks[t].doer.value in assignees
  }

  ghost predicate OnlyPilotFlagged(pilot: Id, teams: map<Id, bool>) {
    forall u :: u in teams && teams[u] ==> u == pilot
  }

  /** What each resolved task is: in bounds, for a final assignee, and the kept one it names or a new one. */
  ghost predicate SpecOk(doc: Doc, finals: set<Id>, s: Spec) {
    && s.task.pending && MIN_POSITION <= s.task.position <= MAX_POSITION
    && (s.task.doer.Some? ==> s.task.doer.value in finals)
    && (forall t :: Treated(doc, t) ==> doc.tasks[t].position != s.task.position)
    && (if s.isNew then s.id !in doc.tasks && s.task.planTask.None? && s.task.observation.None?
        else IsPending(doc, s.id) && s.task.planTask == doc.tasks[s.id].planTask
             && s.task.observation == doc.tasks[s.id].observation)
  }

  ghost predicate SpecsOk(doc: Doc, finals: set<Id>, specs: seq<Spec>) {
    && (forall i :: 0 <= i < |specs| ==> SpecOk(doc, finals, specs[i]))
    && (forall i, j :: 0 <= i < j < |specs| ==> specs[i].id != specs[j].id && specs[i].task.position != specs[j].task.position)
  }

  ghost predicate NewBelow(specs: seq<Spec>, newIds: nat -> Id, n: nat) {
    forall i :: 0 <= i < |specs| && specs[i].isNew ==> exists k: nat :: k < n && specs[i].id == newIds(k)
  }

  lemma {:induction false} ResolvedTasksOk(doc: Doc, items: seq<TaskItem>, finals: set<Id>, ctx: Context, newIds: nat -> Id)
    requires FreshIds(doc, newIds) && ResolvedTasks(doc, items, finals, ctx, newIds).Ok?
    ensures var specs := ResolvedTasks(doc, items, finals, ctx, newIds).value;
            |specs| == |items| && SpecsOk(doc, finals, specs) && NewBelow(specs, newIds, |items|)
  {
    if items != [] {
      var n := |items| - 1;
      ResolvedTasksOk(doc, items[..n], finals, ctx, newIds);
      var prior := ResolvedTasks(doc, items[..n], finals, ctx, newIds).value;
      var next := ResolvedTask(doc, items[n], n + 1, prior, finals, ctx, newIds(n)).value;
      assert SpecOk(doc, finals, next);
      forall i | 0 <= i < n ensures prior[i].id != next.id && prior[i].task.position != next.task.position {
        assert SpecOk(doc, finals, prior[i]);
      }
    }
  }

  lemma {:induction false} WrittenAre(specs: seq<Spec>)
    requires forall i, j :: 0 <= i < j < |specs| ==> specs[i].id != specs[j].id
    ensures forall i :: 0 <= i < |specs| ==> specs[i].id in Written(specs) && Written(specs)[specs[i].id] == specs[i].task
    ensures forall t :: t in Written(specs) ==> exists i :: 0 <= i < |specs| && specs[i].id == t
  {
    if specs != [] {
      var n := |specs| - 1;
      var early := specs[..n];
      WrittenAre(early);
      var prior, all := Written(early), Written(specs);
      assert all == prior[specs[n].id := specs[n].task];
      forall i | 0 <= i < |specs| ensures specs[i].id in all && all[specs[i].id] == specs[i].task {
        assert i < n ==> early[i] == specs[i];
      }
      forall t | t in all ensures exists i :: 0 <= i < |specs| && specs[i].id == t {
        if t in prior {
          var i :| 0 <= i < |early| && early[i].id == t;
          assert specs[i].id == t;
        } else {
          assert specs[n].id == t;
        }
      }
    }
  }

  lemma {:induction false} WrittenCount(specs: seq<Spec>)
    requires forall i, j :: 0 <= i < j < |specs| ==> specs[i].id != specs[j].id
    ensures |Written(specs)| == |specs|
  {
    if specs != [] {
      var n := |specs| - 1;
      WrittenCount(specs[..n]);
      WrittenAre(specs[..n]);
      assert specs[n].id !in Written(specs[..n]);
    }
  }

  lemma FinalTasksShape(doc: Doc, request: Request, finals: set<Id>, ctx: Context, newIds: nat -> Id) returns (specs: seq<Spec>)
    requires FreshIds(doc, newIds) && request.tasks.Some? && FinalTasks(doc, request, finals, ctx, newIds).Ok?
    ensures |specs| == |request.tasks.value| && SpecsOk(doc, finals, specs) && |specs| + TreatedCount(doc) <= MAX_TASKS
    ensures Some(specs) == SpecsOf(doc, request, finals, ctx, newIds)
    ensures FinalTasks(doc, request, finals, ctx, newIds).value == TreatedTasks(doc) + Written(specs)
  {
    ResolvedTasksOk(doc, request.tasks.value, finals, ctx, newIds);
    specs := ResolvedTasks(doc, request.tasks.value, finals, ctx, newIds).value;
  }

  function SpecsOf(doc: Doc, request: Request, finals: set<Id>, ctx: Context, newIds: nat -> Id): Option<seq<Spec>> {
    if request.tasks.None? then None
    else
      match ResolvedTasks(doc, request.tasks.value, finals, ctx, newIds)
      case Err(_) => None
      case Ok(specs) => Some(specs)
  }

  /** Treated tasks come through unchanged, whatever is submitted. */
  lemma TreatedTasksUnchanged(doc: Doc, request: Request, finals: set<Id>, ctx: Context, newIds: nat -> Id, t: Id)
    requires FreshIds(doc, newIds) && FinalTasks(doc, request, finals, ctx, newIds).Ok? && Treated(doc, t)
    ensures var tasks := FinalTasks(doc, request, finals, ctx, newIds).value;
            t in tasks && tasks[t] == doc.tasks[t]
  {
    if request.tasks.Some? {
      var specs := FinalTasksShape(doc, request, finals, ctx, newIds);
      WrittenWasPending(doc, finals, specs, t);
    }
  }

  lemma WrittenWasPending(doc: Doc, finals: set<Id>, specs: seq<Spec>, t: Id)
    requires SpecsOk(doc, finals, specs)
    ensures t in Written(specs) ==>
              !Treated(doc, t) && forall u :: Treated(doc, u) ==> doc.tasks[u].position != Written(specs)[t].position
  {
    WrittenAre(specs);
    if t in Written(specs) {
      var i :| 0 <= i < |specs| && specs[i].id == t;
      assert SpecOk(doc, finals, specs[i]);
    }
  }

  /** A kept task keeps its id, its plan task and its observation. */
  lemma KeptTasksKeepIdentity(doc: Doc, request: Request, finals: set<Id>, ctx: Context, newIds: nat -> Id, t: Id)
    requires FreshIds(doc, newIds) && FinalTasks(doc, request, finals, ctx, newIds).Ok? && t in doc.tasks
    requires t in FinalTasks(doc, request, finals, ctx, newIds).value
    ensures var tasks := FinalTasks(doc, request, finals, ctx, newIds).value;
            && tasks[t].planTask == doc.tasks[t].planTask && tasks[t].observation == doc.tasks[t].observation
            && tasks[t].pending == doc.tasks[t].pending
  {
    if request.tasks.Some? {
      var specs := FinalTasksShape(doc, request, finals, ctx, newIds);
      WrittenAre(specs);
      if t in Written(specs) {
        var i :| 0 <= i < |specs| && specs[i].id == t;
        assert SpecOk(doc, finals, specs[i]);
      }
    }
  }

  /** Of the tasks there were, exactly the named ones are written again. */
  lemma WrittenIsSeen(doc: Doc, finals: set<Id>, specs: seq<Spec>, t: Id)
    requires SpecsOk(doc, finals, specs) && t in doc.tasks
    ensures t in Written(specs) <==> SeenId(specs, t)
    ensures t in Written(specs) ==> doc.tasks[t].pending
  {
    WrittenAre(specs);
    if t in Written(specs) {
      var i :| 0 <= i < |specs| && specs[i].id == t;
      assert SpecOk(doc, finals, specs[i]);
    }
  }

  lemma SeenIsNamed(doc: Doc, items: seq<TaskItem>, finals: set<Id>, ctx: Context, newIds: nat -> Id, t: Id)
    requires ResolvedTasks(doc, items, finals, ctx, newIds).Ok?
    ensures SeenId(ResolvedTasks(doc, items, finals, ctx, newIds).value, t) <==> Names(items, t)
  {
    SpecsFollowItems(doc, items, finals, ctx, newIds);
    var specs := ResolvedTasks(doc, items, finals, ctx, newIds).value;
    if i :| 0 <= i < |specs| && !specs[i].isNew && specs[i].id == t {
      assert items[i].id == Some(t);
    }
    if i :| 0 <= i < |items| && items[i].id == Some(t) {
      assert !specs[i].isNew && specs[i].id == t;
    }
  }

  /** A pending task is kept exactly when the request names it or leaves the tasks alone; only droppable ones go. */
  lemma KeptExactly(doc: Doc, request: Request, finals: set<Id>, ctx: Context, newIds: nat -> Id, t: Id)
    requires FreshIds(doc, newIds) && FinalTasks(doc, request, finals, ctx, newIds).Ok? && IsPending(doc, t)
    ensures t in FinalTasks(doc, request, finals, ctx, newIds).value
            <==> request.tasks.None? || Names(request.tasks.value, t)
    ensures t !in FinalTasks(doc, request, finals, ctx, newIds).value ==> !CannotDrop(doc, t, ctx)
  {
    if request.tasks.Some? {
      var specs := FinalTasksShape(doc, request, finals, ctx, newIds);
      WrittenIsSeen(doc, finals, specs, t);
      SeenIsNamed(doc, request.tasks.value, finals, ctx, newIds, t);
      assert t in Stuck(doc, specs, ctx) <==> !SeenId(specs, t) && CannotDrop(doc, t, ctx);
    }
  }

  predicate Names(items: seq<TaskItem>, t: Id) {
    exists i :: 0 <= i < |items| && items[i].id == Some(t)
  }

  lemma {:induction false} SpecsFollowItems(doc: Doc, items: seq<TaskItem>, finals: set<Id>, ctx: Context, newIds: nat -> Id)
    requires ResolvedTasks(doc, items, finals, ctx, newIds).Ok?
    ensures var specs := ResolvedTasks(doc, items, finals, ctx, newIds).value;
            |specs| == |items|
            && forall i :: 0 <= i < |items| ==>
                 specs[i].isNew == items[i].id.None? && (items[i].id.Some? ==> specs[i].id == items[i].id.value)
  {
    if items != [] {
      SpecsFollowItems(doc, items[..|items| - 1], finals, ctx, newIds);
    }
  }

  /** At most ten tasks, at distinct positions from one to ten. */
  lemma TasksArePositioned(doc: Doc, request: Request, finals: set<Id>, ctx: Context, newIds: nat -> Id)
    requires FreshIds(doc, newIds) && FinalTasks(doc, request, finals, ctx, newIds).Ok? && Positioned(doc.tasks)
    ensures Positioned(FinalTasks(doc, request, finals, ctx, newIds).value)
  {
    if request.tasks.Some? {
      var specs := FinalTasksShape(doc, request, finals, ctx, newIds);
      var tasks := TreatedTasks(doc) + Written(specs);
      WrittenAre(specs);
      forall t | t in tasks ensures MIN_POSITION <= tasks[t].position <= MAX_POSITION {
        if t in Written(specs) {
          var i :| 0 <= i < |specs| && specs[i].id == t;
          assert SpecOk(doc, finals, specs[i]);
        }
      }
      forall t, u | t in tasks && u in tasks && tasks[t].position == tasks[u].position ensures t == u {
        PositionsApart(doc, finals, specs, t, u);
      }
    }
  }

  lemma PositionsApart(doc: Doc, finals: set<Id>, specs: seq<Spec>, t: Id, u: Id)
    requires SpecsOk(doc, finals, specs) && OneEach(doc.tasks)
    requires var tasks := TreatedTasks(doc) + Written(specs);
             t in tasks && u in tasks && tasks[t].position == tasks[u].position
    ensures t == u
  {
    WrittenAre(specs);
    forall x | x in Written(specs)
      ensures forall y :: Treated(doc, y) ==> doc.tasks[y].position != Written(specs)[x].position {
      WrittenWasPending(doc, finals, specs, x);
    }
    if t in Written(specs) && u in Written(specs) {
      var i :| 0 <= i < |specs| && specs[i].id == t;
      var j :| 0 <= j < |specs| && specs[j].id == u;
    }
  }

  lemma AtMostTenTasks(doc: Doc, request: Request, finals: set<Id>, ctx: Context, newIds: nat -> Id)
    requires FreshIds(doc, newIds) && FinalTasks(doc, request, finals, ctx, newIds).Ok?
    requires |doc.tasks| <= MAX_TASKS
    ensures |FinalTasks(doc, request, finals, ctx, newIds).value| <= MAX_TASKS
  {
    if request.tasks.Some? {
      var specs := FinalTasksShape(doc, request, finals, ctx, newIds);
      WrittenCount(specs);
      JoinedCount(TreatedTasks(doc), Written(specs));
    } else {
      UnassignedCount(doc, finals);
    }
  }

  lemma JoinedCount(a: map<Id, Task>, b: map<Id, Task>)
    ensures |a + b| <= |a| + |b|
  {
    assert (a + b).Keys == a.Keys + b.Keys;
  }

  lemma UnassignedCount(doc: Doc, finals: set<Id>)
    ensures |AutoUnassigned(doc, finals)| == |doc.tasks|
  {
    assert AutoUnassigned(doc, finals).Keys == doc.tasks.Keys;
  }

  /** A pending task may be left with the member who does it: one who was assigned before, or is in the end. */
  ghost predicate DoersKnown(doc: Doc, finals: set<Id>) {
    forall t :: t in doc.tasks && doc.tasks[t].pending && doc.tasks[t].doer.Some? ==>
      doc.tasks[t].doer.value in doc.assignees || doc.tasks[t].doer.value in finals
  }

  /**
   Submitted pending tasks are only done by final assignees.  When the request leaves the tasks alone, all
   of them are exactly when nobody does one who is neither a final assignee nor was assigned before, such as
   a member that a schedule has dropped.
   */
  lemma DoersAreAssigned(doc: Doc, request: Request, assignees: map<Id, AssigneeRow>, finals: set<Id>, ctx: Context,
                         now: Time, newIds: nat -> Id)
    requires FreshIds(doc, newIds) && FinalAssignees(doc, request.assignees, ctx, now) == Ok(assignees)
    requires finals == (set m | m in assignees) && FinalTasks(doc, request, finals, ctx, newIds).Ok?
    ensures DoersAssigned(finals, FinalTasks(doc, request, finals, ctx, newIds).value)
            <==> request.tasks.Some? || DoersKnown(doc, finals)
  {
    if request.tasks.Some? {
      SubmittedDoers(doc, request, finals, ctx, newIds);
    } else if request.assignees.Some? {
      UnassignedDoers(doc, finals);
    }
  }

  lemma UnassignedDoers(doc: Doc, finals: set<Id>)
    ensures DoersAssigned(finals, AutoUnassigned(doc, finals)) <==> DoersKnown(doc, finals)
  {
    var tasks := AutoUnassigned(doc, finals);
    forall t | t in doc.tasks
      ensures (tasks[t].pending && tasks[t].doer.Some? ==> tasks[t].doer.value in finals)
              <==> (doc.tasks[t].pending && doc.tasks[t].doer.Some? ==>
                      doc.tasks[t].doer.value in doc.assignees || doc.tasks[t].doer.value in finals) {
    }
  }

  lemma SubmittedDoers(doc: Doc, request: Request, finals: set<Id>, ctx: Context, newIds: nat -> Id)
    requires FreshIds(doc, newIds) && request.tasks.Some? && FinalTasks(doc, request, finals, ctx, newIds).Ok?
    ensures DoersAssigned(finals, FinalTasks(doc, request, finals, ctx, newIds).value)
  {
    var specs := FinalTasksShape(doc, request, finals, ctx, newIds);
    WrittenAre(specs);
    var tasks := TreatedTasks(doc) + Written(specs);
    forall t | t in tasks && tasks[t].pending && tasks[t].doer.Some? ensures tasks[t].doer.value in finals {
      assert t in Written(specs);
      var i :| 0 <= i < |specs| && specs[i].id == t;
      assert SpecOk(doc, finals, specs[i]);
    }
  }

  /** The teams are exactly those of the pilot, the assignees and the tasks. */
  lemma TeamsAreExact(doc: Doc, assignees: map<Id, AssigneeRow>, tasks: map<Id, Task>)
    requires OnlyPilotFlagged(doc.pilot, doc.teams)
    ensures var needed := NeededUnits(doc.pilot, assignees, tasks);
            var teams := SyncedTeams(doc.pilot, doc.teams, needed);
            && (forall u :: u in teams <==> u in needed) && OnlyPilotFlagged(doc.pilot, teams)
            && (forall u :: u in teams && u in doc.teams ==> teams[u] == doc.teams[u])
  {
  }

  /** What every stored execution satisfies. */
  ghost predicate DocInv(doc: Doc) {
    && Positioned(doc.tasks) && |doc.tasks| <= MAX_TASKS && OnlyPilotFlagged(doc.pilot, doc.teams)
    && SourcesExist(doc.sources, doc.tasks)
  }

  ghost predicate SourcesExist(sources: map<Id, Id>, tasks: map<Id, Task>) {
    forall c :: c in sources ==> sources[c] in tasks
  }

  /** Not every stored execution does: dropping a member from a schedule leaves its team behind. */
  ghost predicate TeamsExact(doc: Doc) {
    forall u :: u in doc.teams <==> u in NeededUnits(doc.pilot, doc.assignees, doc.tasks)
  }

  /**
   An accepted update keeps what every execution satisfies, and whatever it started from it ends with
   exactly the needed teams and at least one assignee.
   */
  lemma UpdateKeepsInv(doc: Doc, request: Request, ctx: Context, now: Time, savedAt: Time, newIds: nat -> Id)
    requires FreshIds(doc, newIds) && DocInv(doc) && Updated(doc, request, ctx, now, savedAt, newIds).Ok?
    ensures var next := Updated(doc, request, ctx, now, savedAt, newIds).value;
            && DocInv(next) && TeamsExact(next) && (exists m :: m in next.assignees)
            && (DoersAssigned((set m | m in next.assignees), next.tasks)
                <==> request.tasks.Some? || DoersKnown(doc, (set m | m in next.assignees)))
            && next.execution == Apply(doc.execution, DoEdit(request.edit, Activity(doc, next.assignees, next.tasks)), now)
  {
    var assignees, finals, tasks := AcceptedParts(doc, request, ctx, now, savedAt, newIds);
    TasksArePositioned(doc, request, finals, ctx, newIds);
    AtMostTenTasks(doc, request, finals, ctx, newIds);
    DoersAreAssigned(doc, request, assignees, finals, ctx, now, newIds);
    SourcesStillExist(doc, request, finals, ctx, newIds);
    EditedKeepsInv(doc, request, assignees, tasks, now, savedAt);
  }

  /** A schedule that drops members takes their assignments from its coming shared executions, and nothing else of them. */
  function Pruned(doc: Doc, current: set<Id>): Doc {
    doc.(assignees := map m | m in doc.assignees && m in current :: doc.assignees[m])
  }

  /**
   So a dropped member's tasks stay with it: an update that leaves the tasks alone ends with assigned doers
   exactly when no pending task belonged to a dropped member it does not assign again.
   */
  lemma DroppedMembersKeepTasks(doc: Doc, current: set<Id>, finals: set<Id>)
    requires DocInv(doc) && DoersAssigned((set m | m in doc.assignees), doc.tasks)
    ensures DocInv(Pruned(doc, current))
    ensures DoersKnown(Pruned(doc, current), finals)
            <==> forall t :: t in doc.tasks && doc.tasks[t].pending && doc.tasks[t].doer.Some? ==>
                   doc.tasks[t].doer.value in current || doc.tasks[t].doer.value in finals
  {
    var pruned := Pruned(doc, current);
    forall t | t in doc.tasks && doc.tasks[t].pending && doc.tasks[t].doer.Some?
      ensures doc.tasks[t].doer.value in pruned.assignees <==> doc.tasks[t].doer.value in current {
      assert doc.tasks[t].doer.value in set m | m in doc.assignees;
    }
  }

  lemma SourcesStillExist(doc: Doc, request: Request, finals: set<Id>, ctx: Context, newIds: nat -> Id)
    requires FreshIds(doc, newIds) && SourcesExist(doc.sources, doc.tasks)
    requires FinalTasks(doc, request, finals, ctx, newIds).Ok?
    ensures SourcesExist(if request.tasks.Some? then SourcesLeft(doc.sources, doc.tasks) else doc.sources,
                         FinalTasks(doc, request, finals, ctx, newIds).value)
  {
    if request.tasks.Some? {
      forall c | c in SourcesLeft(doc.sources, doc.tasks) ensures doc.sources[c] in FinalTasks(doc, request, finals, ctx, newIds).value {
        TreatedTasksUnchanged(doc, request, finals, ctx, newIds, doc.sources[c]);
      }
    }
  }

  /**
   Submitting tasks deletes every pending one and writes the kept ones again: an accepted update has met no
   observation of any of them, and cuts exactly the links of comments to pending tasks, kept ones included.
   */
  lemma RewritingCutsLinks(doc: Doc, request: Request, ctx: Context, now: Time, savedAt: Time, newIds: nat -> Id)
    requires DocInv(doc) && Updated(doc, request, ctx, now, savedAt, newIds).Ok?
    ensures var next := Updated(doc, request, ctx, now, savedAt, newIds).value;
            && (forall c :: c in next.sources <==> c in doc.sources && (request.tasks.None? || Treated(doc, doc.sources[c])))
            && (forall c :: c in next.sources ==> next.sources[c] == doc.sources[c])
            && (request.tasks.Some? ==> forall t :: IsPending(doc, t) ==> t !in ctx.observedTasks)
  {
    var assignees, finals, tasks := AcceptedParts(doc, request, ctx, now, savedAt, newIds);
  }

  /** The assignees and tasks an accepted update ends with. */
  lemma AcceptedParts(doc: Doc, request: Request, ctx: Context, now: Time, savedAt: Time, newIds: nat -> Id)
    returns (assignees: map<Id, AssigneeRow>, finals: set<Id>, tasks: map<Id, Task>)
    requires Updated(doc, request, ctx, now, savedAt, newIds).Ok?
    ensures FinalAssignees(doc, request.assignees, ctx, now) == Ok(assignees) && finals == (set m | m in assignees)
    ensures finals != {} && FinalTasks(doc, request, finals, ctx, newIds) == Ok(tasks)
    ensures Updated(doc, request, ctx, now, savedAt, newIds).value == Edited(doc, request, assignees, tasks, now, savedAt)
    ensures request.tasks.Some? ==> !SomePendingObserved(doc.tasks, ctx.observedTasks)
  {
    assignees := FinalAssignees(doc, request.assignees, ctx, now).value;
    finals := set m | m in assignees;
    tasks := FinalTasks(doc, request, finals, ctx, newIds).value;
  }

  lemma EditedKeepsInv(doc: Doc, request: Request, assignees: map<Id, AssigneeRow>, tasks: map<Id, Task>, now: Time, savedAt: Time)
    requires Positioned(tasks) && |tasks| <= MAX_TASKS && OnlyPilotFlagged(doc.pilot, doc.teams)
    requires (set m | m in assignees) != {}
    requires SourcesExist(if request.tasks.Some? then SourcesLeft(doc.sources, doc.tasks) else doc.sources, tasks)
    ensures var next := Edited(doc, request, assignees, tasks, now, savedAt);
            && DocInv(next) && TeamsExact(next) && (exists m :: m in next.assignees)
            && next.assignees == assignees && next.tasks == tasks
            && next.execution == Apply(doc.execution, DoEdit(request.edit, Activity(doc, assignees, tasks)), now)
  {
    EditedDocInv(doc, request, assignees, tasks, now, savedAt);
    EditedIsEdit(doc, request, assignees, tasks, now, savedAt);
    var m :| m in set k | k in assignees;
    assert m in assignees;
  }

  lemma EditedIsEdit(doc: Doc, request: Request, assignees: map<Id, AssigneeRow>, tasks: map<Id, Task>, now: Time, savedAt: Time)
    ensures var next := Edited(doc, request, assignees, tasks, now, savedAt);
            && next.assignees == assignees && next.tasks == tasks
            && next.execution == Apply(doc.execution, DoEdit(request.edit, Activity(doc, assignees, tasks)), now)
  {
  }

  lemma EditedDocInv(doc: Doc, request: Request, assignees: map<Id, AssigneeRow>, tasks: map<Id, Task>, now: Time, savedAt: Time)
    requires Positioned(tasks) && |tasks| <= MAX_TASKS && OnlyPilotFlagged(doc.pilot, doc.teams)
    requires SourcesExist(if request.tasks.Some? then SourcesLeft(doc.sources, doc.tasks) else doc.sources, tasks)
    ensures DocInv(Edited(doc, request, assignees, tasks, now, savedAt))
    ensures TeamsExact(Edited(doc, request, assignees, tasks, now, savedAt))
  {
    TeamsAreExact(doc, assignees, tasks);
  }

  /** A request made from an outdated reading is refused. */
  lemma StaleIsRefused(doc: Doc, request: Request, ctx: Context, now: Time, savedAt: Time, newIds: nat -> Id)
    requires request.expectedUpdatedAt != doc.updatedAt
    ensures Updated(doc, request, ctx, now, savedAt, newIds).Err?
  {
  }

  // ----- the update as it runs -----

  /** What an update has changed so far. */
  class UpdateDiff {
    var added: set<Id>
    var removed: set<Id>
    var endChanged: set<Id>
    var assignmentActivity: bool
    var deadlineActivity: bool

    constructor ()
      ensures added == {} && removed == {} && endChanged == {} && !assignmentActivity && !deadlineActivity
    {
      added, removed, endChanged, assignmentActivity, deadlineActivity := {}, {}, {}, false, false;
    }
  }

  ghost predicate AddedAre(added: set<Id>, before: map<Id, AssigneeRow>, finals: map<Id, AssigneeRow>) {
    forall m :: m in added <==> m in finals && m !in before
  }

  ghost predicate EndsAre(changed: set<Id>, before: map<Id, AssigneeRow>, finals: map<Id, AssigneeRow>) {
    forall m :: m in changed <==> m in finals && m in before && finals[m].endAt != before[m].endAt
  }

  /** The diff names exactly who joined, who left and whose end moved, and raises the two activity flags for them. */
  ghost predicate DiffSays(diff: UpdateDiff, doc: Doc, finals: map<Id, AssigneeRow>)
    reads diff
  {
    && AddedAre(diff.added, doc.assignees, finals) && EndsAre(diff.endChanged, doc.assignees, finals)
    && AddedAre(diff.removed, finals, doc.assignees)
    && (diff.assignmentActivity <==> diff.added != {} || diff.removed != {})
    && (diff.deadlineActivity <==> diff.endChanged != {})
  }

  ghost predicate Blank(diff: UpdateDiff)
    reads diff
  {
    diff.added == {} && diff.removed == {} && diff.endChanged == {} && !diff.assignmentActivity && !diff.deadlineActivity
  }

  lemma DiffNext(added: set<Id>, changed: set<Id>, before: map<Id, AssigneeRow>, finals: map<Id, AssigneeRow>, m: Id, row: AssigneeRow)
    requires AddedAre(added, before, finals) && EndsAre(changed, before, finals) && m !in finals
    ensures AddedAre(if m in before then added else added + {m}, before, finals[m := row])
    ensures EndsAre(if m in before && row.endAt != before[m].endAt then changed + {m} else changed, before, finals[m := row])
  {
  }

  lemma {:induction false} ResolvedMembersDistinct(doc: Doc, items: seq<AssigneeItem>, ctx: Context, now: Time)
    requires ResolvedRows(doc, items, ctx, now).Ok?
    ensures var rows := ResolvedRows(doc, items, ctx, now).value;
            forall i, j :: 0 <= i < j < |rows| ==> rows[i].member != rows[j].member
  {
    if items != [] {
      var n := |items| - 1;
      ResolvedMembersDistinct(doc, items[..n], ctx, now);
      var prior := ResolvedRows(doc, items[..n], ctx, now).value;
      forall i | 0 <= i < |prior| ensures prior[i].member in MembersOf(prior) {
      }
    }
  }

  class Service {
    var doc: Doc

    constructor (doc: Doc)
      ensures this.doc == doc
    {
      this.doc := doc;
    }

    method ResolveRows(items: seq<AssigneeItem>, ctx: Context, now: Time, diff: UpdateDiff) returns (r: Result<map<Id, AssigneeRow>, Failure>)
      requires Blank(diff)
      modifies diff
      ensures r == match ResolvedRows(doc, items, ctx, now) { case Err(f) => Err(f) case Ok(rows) => Ok(Assigned(rows)) }
      ensures r.Ok? ==>
                && AddedAre(diff.added, doc.assignees, r.value) && EndsAre(diff.endChanged, doc.assignees, r.value)
                && diff.removed == {}
                && (diff.assignmentActivity <==> diff.added != {}) && (diff.deadlineActivity <==> diff.endChanged != {})
    {
      var seen: set<Id>, finals: map<Id, AssigneeRow> := {}, map[];
      ghost var rows: seq<FinalRow> := [];
      for i := 0 to |items|
        invariant ResolvedRows(doc, items[..i], ctx, now) == Ok(rows)
        invariant finals == Assigned(rows) && seen == MembersOf(rows)
        invariant AddedAre(diff.added, doc.assignees, finals) && EndsAre(diff.endChanged, doc.assignees, finals)
        invariant diff.removed == {}
        invariant (diff.assignmentActivity <==> diff.added != {}) && (diff.deadlineActivity <==> diff.endChanged != {})
      {
        RowsNext(doc, items, i, rows, ctx, now);
        var next := ResolvedRow(doc, items[i], seen, ctx, now);
        if next.Err? {
          RowsFail(doc, items, i + 1, ctx, now);
          return Err(next.error);
        }
        var m, row := next.value.member, next.value.row;
        AssignedMembers(rows);
        NotSeen(doc, items[i], seen, ctx, now);
        DiffNext(diff.added, diff.endChanged, doc.assignees, finals, m, row);
        MembersNext(rows, next.value);
        if m !in doc.assignees {
          diff.added, diff.assignmentActivity := diff.added + {m}, true;
        } else if row.endAt != doc.assignees[m].endAt {
          diff.endChanged, diff.deadlineActivity := diff.endChanged + {m}, true;
        }
        seen, finals := seen + {m}, finals[m := row];
        rows := rows + [next.value];
      }
      assert items[..|items|] == items;
      return Ok(finals);
    }

    /** Whoever is left out is removed, if the actor may remove them. */
    method RemoveOthers(finals: map<Id, AssigneeRow>, ctx: Context, diff: UpdateDiff) returns (ok: bool)
      requires diff.removed == {} && (diff.assignmentActivity <==> diff.added != {})
      modifies diff`removed, diff`assignmentActivity
      ensures ok <==> forall m :: m in doc.assignees && m !in finals ==> MayRemove(doc, m, ctx)
      ensures ok ==> AddedAre(diff.removed, finals, doc.assignees)
      ensures ok ==> (diff.assignmentActivity <==> diff.added != {} || diff.removed != {})
    {
      var gone := set m | m in doc.assignees && m !in finals;
      var todo := gone;
      while todo != {}
        invariant todo <= gone && forall m :: m in diff.removed <==> m in gone && m !in todo
        invariant forall m :: m in gone && m !in todo ==> MayRemove(doc, m, ctx)
        invariant diff.assignmentActivity <==> diff.added != {} || diff.removed != {}
        decreases |todo|
      {
        var m :| m in todo;
        if !MayRemove(doc, m, ctx) {
          assert m in doc.assignees && m !in finals;
          return false;
        }
        diff.removed, diff.assignmentActivity, todo := diff.removed + {m}, true, todo - {m};
      }
      return true;
    }

    method ResolveFinalAssignees(items: Option<seq<AssigneeItem>>, ctx: Context, now: Time, diff: UpdateDiff)
      returns (r: Result<map<Id, AssigneeRow>, Failure>)
      requires Blank(diff)
      modifies diff
      ensures r == FinalAssignees(doc, items, ctx, now)
      ensures r.Ok? ==> DiffSays(diff, doc, r.value)
    {
      if items.None? {
        return Ok(doc.assignees);
      }
      r := ResolveRows(items.value, ctx, now, diff);
      if r.Err? {
        return;
      }
      AssignedMembers(ResolvedRows(doc, items.value, ctx, now).value);
      var ok := RemoveOthers(r.value, ctx, diff);
      if !ok {
        return Err(Denied);
      }
    }

    /** Every submitted task, against the positions and ids taken so far. */
    method ResolveTasks(items: seq<TaskItem>, finals: set<Id>, ctx: Context, newIds: nat -> Id)
      returns (r: Result<seq<Spec>, Failure>, active: bool)
      ensures r == ResolvedTasks(doc, items, finals, ctx, newIds)
      ensures r.Ok? ==> (active <==> SomeSpecActive(doc, r.value))
    {
      var specs: seq<Spec> := [];
      active := false;
      for i := 0 to |items|
        invariant ResolvedTasks(doc, items[..i], finals, ctx, newIds) == Ok(specs)
        invariant active <==> SomeSpecActive(doc, specs)
      {
        TasksNext(doc, items, i, specs, finals, ctx, newIds);
        var next := ResolvedTask(doc, items[i], i + 1, specs, finals, ctx, newIds(i));
        if next.Err? {
          TasksFail(doc, items, i + 1, finals, ctx, newIds);
          return Err(next.error), false;
        }
        SpecActiveNext(doc, specs, next.value);
        active := active || SpecActive(doc, next.value);
        specs := specs + [next.value];
      }
      assert items[..|items|] == items;
      return Ok(specs), active;
    }

    /** Pending tasks that were left out, in the order of their ids. */
    method DropOthers(specs: seq<Spec>, ctx: Context) returns (failure: Option<Failure>, active: bool)
      ensures failure == DropFailure(doc, specs, ctx)
      ensures failure.None? ==> (active <==> SomeDroppedActive(doc, specs))
    {
      active := false;
      var dropped := set t | t in doc.tasks && doc.tasks[t].pending && !SeenId(specs, t);
      var todo := dropped;
      while todo != {}
        invariant todo <= dropped
        invariant forall t :: t in dropped && t !in todo ==> !CannotDrop(doc, t, ctx) && forall u :: u in todo ==> t <= u
        invariant active <==> exists t :: t in dropped && t !in todo && TaskActive(Some(doc.tasks[t]), None)
        decreases |todo|
      {
        var t := Least(todo);
        if CannotDrop(doc, t, ctx) {
          FirstStuck(doc, specs, ctx, t);
          return Some(if MayTouch(doc, doc.tasks[t].unit, ctx) then Invalid else Denied), false;
        }
        active := active || TaskActive(Some(doc.tasks[t]), None);
        todo := todo - {t};
      }
      assert Stuck(doc, specs, ctx) == {};
      return None, active;
    }

    /** Creates the teams that are missing and deletes the ones of no use. */
    method SyncTeams(needed: set<Id>)
      modifies this
      ensures doc == old(doc).(teams := SyncedTeams(old(doc).pilot, old(doc).teams, needed))
    {
      var was := doc;
      ghost var before := doc.teams;
      var teams := doc.teams;
      var missing := needed;
      while missing != {}
        invariant doc == was && TeamsAdded(was.pilot, before, needed, missing, teams)
        decreases |missing|
      {
        var u :| u in missing;
        TeamAdded(doc.pilot, before, needed, missing, teams, u);
        missing := missing - {u};
        if u !in teams {
          teams := teams[u := u == doc.pilot];
        }
      }
      var orphans := set u | u in teams && !teams[u] && u !in needed;
      var kept := map u | u in teams && u !in orphans :: teams[u];
      OrphansDropped(doc.pilot, before, needed, teams, kept);
      assert kept == SyncedTeams(was.pilot, was.teams, needed);
      doc := was.(teams := kept);
    }

    /** Nothing is written until everything has been checked. */
    method Update(request: Request, ctx: Context, now: Time, savedAt: Time, newIds: nat -> Id) returns (failure: Option<Failure>)
      requires FreshIds(doc, newIds)
      modifies this
      ensures match Updated(old(doc), request, ctx, now, savedAt, newIds) {
                case Err(f) => failure == Some(f) && doc == old(doc)
                case Ok(next) => failure == None && doc == next
              }
    {
      failure := CheckRequest(request, ctx);
      if failure.Some? {
        return;
      }
      var diff := new UpdateDiff();
      var resolved := ResolveFinalAssignees(request.assignees, ctx, now, diff);
      if resolved.Err? {
        return Some(resolved.error);
      }
      var assignees := resolved.value;
      var finals := set m | m in assignees;
      if finals == {} {
        return Some(Invalid);
      }
      var planned, active := ResolveFinalTasks(request, assignees, finals, ctx, newIds);
      if planned.Err? {
        return Some(planned.error);
      }
      if ctx.staff && !ctx.staffAccepts {
        return Some(Denied);
      }
      var tasks := planned.value;
      ActivityFound(diff, doc, assignees, tasks);
      var touched := diff.assignmentActivity || diff.deadlineActivity || active;
      var written := WriteAll(request, EditContent(doc.execution, request.edit, touched, now), assignees, tasks, ctx, savedAt);
      return if written then None else Some(Protected);
    }

    method CheckRequest(request: Request, ctx: Context) returns (failure: Option<Failure>)
      ensures failure == Refused(doc, request, ctx)
    {
      if !ctx.canUpdate {
        return Some(Denied);
      }
      if doc.execution.status != InProgress {
        return Some(WrongState);
      }
      if doc.updatedAt != request.expectedUpdatedAt {
        return Some(Stale);
      }
      if ctx.staff && request.edit.requiresValidation == Some(true) {
        return Some(Denied);
      }
      if !EditAccepted(doc.execution, request.edit) {
        return Some(Invalid);
      }
      return None;
    }

    /** Every write of the update, in order; a protected row undoes all of them. */
    method WriteAll(request: Request, execution: Execution, assignees: map<Id, AssigneeRow>, tasks: map<Id, Task>, ctx: Context,
                    savedAt: Time) returns (ok: bool)
      modifies this
      ensures ok <==> request.tasks.None? || !SomePendingObserved(old(doc).tasks, ctx.observedTasks)
      ensures doc == if ok then Rewritten(old(doc), request, execution, assignees, tasks, savedAt) else old(doc)
    {
      var saved, needed := doc, NeededUnits(doc.pilot, assignees, tasks);
      WriteContent(request, execution, savedAt);
      doc := doc.(assignees := assignees);
      ok := WriteTasks(request, tasks, ctx);
      if !ok {
        doc := saved;
        return;
      }
      SyncTeams(needed);
    }

    method WriteContent(request: Request, execution: Execution, savedAt: Time)
      modifies this
      ensures doc == WithContent(old(doc), request, execution, savedAt)
    {
      if request.title.Some? {
        doc := doc.(title := request.title.value);
      }
      if request.description.Some? {
        doc := doc.(description := request.description.value);
      }
      doc := doc.(execution := execution, updatedAt := savedAt);
    }

    /** Unassigns in place, or deletes the pending tasks and inserts the final ones. */
    method WriteTasks(request: Request, tasks: map<Id, Task>, ctx: Context) returns (ok: bool)
      modifies this
      ensures ok <==> request.tasks.None? || !SomePendingObserved(old(doc).tasks, ctx.observedTasks)
      ensures doc == if !ok then old(doc)
                     else old(doc).(tasks := tasks, sources := if request.tasks.Some? then SourcesLeft(old(doc).sources, old(doc).tasks) else old(doc).sources)
    {
      if request.tasks.Some? {
        if SomePendingObserved(doc.tasks, ctx.observedTasks) {
          return false;
        }
        doc := doc.(tasks := TreatedTasks(doc), sources := SourcesLeft(doc.sources, doc.tasks));
      }
      doc := doc.(tasks := tasks);
      return true;
    }

    /** `active` says whether a doer or a deadline of a task changes in a way the assignees do not already show. */
    method ResolveFinalTasks(request: Request, assignees: map<Id, AssigneeRow>, finals: set<Id>, ctx: Context, newIds: nat -> Id)
      returns (r: Result<map<Id, Task>, Failure>, active: bool)
      requires finals == (set m | m in assignees) && FreshIds(doc, newIds)
      ensures r == FinalTasks(doc, request, finals, ctx, newIds)
      ensures r.Ok? ==> (active || SomeoneRemoved(doc, assignees) <==> TasksActive(doc, r.value) || SomeoneRemoved(doc, assignees))
    {
      if request.tasks.None? {
        UnassigningShows(doc, assignees, finals);
        return Ok(if request.assignees.Some? then AutoUnassigned(doc, finals) else doc.tasks), false;
      }
      if |request.tasks.value| + TreatedCount(doc) > MAX_TASKS {
        return Err(Invalid), false;
      }
      var specs, changed := ResolveTasks(request.tasks.value, finals, ctx, newIds);
      if specs.Err? {
        return Err(specs.error), false;
      }
      var failed, dropped := DropOthers(specs.value, ctx);
      if failed.Some? {
        return Err(failed.value), false;
      }
      SpecsShow(doc, request.tasks.value, finals, ctx, newIds);
      return Ok(TreatedTasks(doc) + Written(specs.value)), changed || dropped;
    }
  }

  predicate SpecActive(doc: Doc, s: Spec) {
    TaskActive(if s.id in doc.tasks then Some(doc.tasks[s.id]) else None, Some(s.task))
  }

  ghost predicate SomeSpecActive(doc: Doc, specs: seq<Spec>) {
    exists i :: 0 <= i < |specs| && SpecActive(doc, specs[i])
  }

  ghost predicate SomeDroppedActive(doc: Doc, specs: seq<Spec>) {
    exists t :: t in doc.tasks && doc.tasks[t].pending && !SeenId(specs, t) && TaskActive(Some(doc.tasks[t]), None)
  }

  lemma SpecActiveNext(doc: Doc, specs: seq<Spec>, next: Spec)
    ensures SomeSpecActive(doc, specs + [next]) <==> SomeSpecActive(doc, specs) || SpecActive(doc, next)
  {
    var more := specs + [next];
    if i :| 0 <= i < |specs| && SpecActive(doc, specs[i]) {
      assert more[i] == specs[i];
    }
    assert more[|specs|] == next;
  }

  lemma TasksNext(doc: Doc, items: seq<TaskItem>, i: nat, specs: seq<Spec>, finals: set<Id>, ctx: Context, newIds: nat -> Id)
    requires i < |items| && ResolvedTasks(doc, items[..i], finals, ctx, newIds) == Ok(specs)
    ensures ResolvedTasks(doc, items[..i + 1], finals, ctx, newIds) ==
            match ResolvedTask(doc, items[i], i + 1, specs, finals, ctx, newIds(i)) {
              case Err(f) => Err(f)
              case Ok(spec) => Ok(specs + [spec])
            }
  {
    assert items[..i + 1][..i] == items[..i];
  }

  lemma {:induction false} TasksFail(doc: Doc, items: seq<TaskItem>, k: nat, finals: set<Id>, ctx: Context, newIds: nat -> Id)
    requires k <= |items| && ResolvedTasks(doc, items[..k], finals, ctx, newIds).Err?
    ensures ResolvedTasks(doc, items, finals, ctx, newIds) == ResolvedTasks(doc, items[..k], finals, ctx, newIds)
  {
    if k == |items| {
      assert items[..k] == items;
    } else {
      assert items[..|items| - 1][..k] == items[..k];
      TasksFail(doc, items[..|items| - 1], k, finals, ctx, newIds);
    }
  }

  lemma FirstStuck(doc: Doc, specs: seq<Spec>, ctx: Context, t: Id)
    requires t in Stuck(doc, specs, ctx) && forall u :: u in Stuck(doc, specs, ctx) ==> t <= u
    ensures DropFailure(doc, specs, ctx) == Some(if MayTouch(doc, doc.tasks[t].unit, ctx) then Invalid else Denied)
  {
    assert Least(Stuck(doc, specs, ctx)) == t;
  }

  ghost predicate SomeoneRemoved(doc: Doc, assignees: map<Id, AssigneeRow>) {
    exists m :: m in doc.assignees && m !in assignees
  }

  ghost predicate TasksActive(doc: Doc, tasks: map<Id, Task>) {
    WrittenActive(doc, tasks) || GoneActive(doc, tasks)
  }

  /** Only a removed member's tasks are unassigned, and removing a member is activity already. */
  lemma UnassigningShows(doc: Doc, assignees: map<Id, AssigneeRow>, finals: set<Id>)
    requires finals == set m | m in assignees
    ensures TasksActive(doc, AutoUnassigned(doc, finals)) ==> SomeoneRemoved(doc, assignees)
    ensures !TasksActive(doc, doc.tasks)
  {
    var tasks := AutoUnassigned(doc, finals);
    if t :| t in tasks && TaskActive(Some(doc.tasks[t]), Some(tasks[t])) {
      assert doc.tasks[t].doer.value in doc.assignees && doc.tasks[t].doer.value !in assignees;
    }
  }

  /** What the specs and the dropped tasks show is what the final tasks show. */
  lemma SpecsShow(doc: Doc, items: seq<TaskItem>, finals: set<Id>, ctx: Context, newIds: nat -> Id)
    requires FreshIds(doc, newIds) && ResolvedTasks(doc, items, finals, ctx, newIds).Ok?
    ensures var specs := ResolvedTasks(doc, items, finals, ctx, newIds).value;
            TasksActive(doc, TreatedTasks(doc) + Written(specs)) <==> SomeSpecActive(doc, specs) || SomeDroppedActive(doc, specs)
  {
    ResolvedTasksOk(doc, items, finals, ctx, newIds);
    var specs := ResolvedTasks(doc, items, finals, ctx, newIds).value;
    WrittenShow(doc, finals, specs);
    DroppedShow(doc, finals, specs);
  }

  ghost predicate WrittenActive(doc: Doc, tasks: map<Id, Task>) {
    exists t :: t in tasks && TaskActive(if t in doc.tasks then Some(doc.tasks[t]) else None, Some(tasks[t]))
  }

  ghost predicate GoneActive(doc: Doc, tasks: map<Id, Task>) {
    exists t :: t in doc.tasks && t !in tasks && TaskActive(Some(doc.tasks[t]), None)
  }

  lemma WrittenShow(doc: Doc, finals: set<Id>, specs: seq<Spec>)
    requires SpecsOk(doc, finals, specs)
    ensures WrittenActive(doc, TreatedTasks(doc) + Written(specs)) <==> SomeSpecActive(doc, specs)
  {
    WrittenAre(specs);
    var tasks := TreatedTasks(doc) + Written(specs);
    if t :| t in tasks && TaskActive(if t in doc.tasks then Some(doc.tasks[t]) else None, Some(tasks[t])) {
      assert t in Written(specs);
      var i :| 0 <= i < |specs| && specs[i].id == t;
      assert SpecActive(doc, specs[i]);
    }
    if i :| 0 <= i < |specs| && SpecActive(doc, specs[i]) {
      assert specs[i].id in tasks && tasks[specs[i].id] == specs[i].task;
    }
  }

  lemma DroppedShow(doc: Doc, finals: set<Id>, specs: seq<Spec>)
    requires SpecsOk(doc, finals, specs)
    ensures GoneActive(doc, TreatedTasks(doc) + Written(specs)) <==> SomeDroppedActive(doc, specs)
  {
    var tasks := TreatedTasks(doc) + Written(specs);
    forall t | t in doc.tasks ensures t !in tasks <==> doc.tasks[t].pending && !SeenId(specs, t) {
      WrittenIsSeen(doc, finals, specs, t);
    }
  }

  /** The flags raised along the way add up to the activity of the update. */
  lemma ActivityFound(diff: UpdateDiff, doc: Doc, assignees: map<Id, AssigneeRow>, tasks: map<Id, Task>)
    requires DiffSays(diff, doc, assignees)
    ensures Activity(doc, assignees, tasks) <==> diff.assignmentActivity || diff.deadlineActivity || TasksActive(doc, tasks)
    ensures SomeoneRemoved(doc, assignees) ==> diff.assignmentActivity
  {
    if diff.added != {} {
      var m :| m in diff.added;
    }
    if diff.removed != {} {
      var m :| m in diff.removed;
    }
    if diff.endChanged != {} {
      var m :| m in diff.endChanged;
    }
    if m :| m in doc.assignees && m !in assignees {
      assert m in diff.removed;
    }
    if m :| m in assignees && (m !in doc.assignees || assignees[m].endAt != doc.assignees[m].endAt) {
      assert m in diff.added || m in diff.endChanged;
    }
  }

  lemma NotSeen(doc: Doc, item: AssigneeItem, seen: set<Id>, ctx: Context, now: Time)
    requires ResolvedRow(doc, item, seen, ctx, now).Ok?
    ensures ResolvedRow(doc, item, seen, ctx, now).value.member !in seen
  {
  }

  lemma RowsNext(doc: Doc, items: seq<AssigneeItem>, i: nat, rows: seq<FinalRow>, ctx: Context, now: Time)
    requires i < |items| && ResolvedRows(doc, items[..i], ctx, now) == Ok(rows)
    ensures ResolvedRows(doc, items[..i + 1], ctx, now) ==
            match ResolvedRow(doc, items[i], MembersOf(rows), ctx, now) {
              case Err(f) => Err(f)
              case Ok(row) => Ok(rows + [row])
            }
  {
    assert items[..i + 1][..i] == items[..i];
  }

  lemma {:induction false} RowsFail(doc: Doc, items: seq<AssigneeItem>, k: nat, ctx: Context, now: Time)
    requires k <= |items| && ResolvedRows(doc, items[..k], ctx, now).Err?
    ensures ResolvedRows(doc, items, ctx, now) == ResolvedRows(doc, items[..k], ctx, now)
  {
    if k == |items| {
      assert items[..k] == items;
    } else {
      assert items[..|items| - 1][..k] == items[..k];
      RowsFail(doc, items[..|items| - 1], k, ctx, now);
    }
  }

  lemma MembersNext(rows: seq<FinalRow>, next: FinalRow)
    ensures MembersOf(rows + [next]) == MembersOf(rows) + {next.member}
    ensures Assigned(rows + [next]) == Assigned(rows)[next.member := next.row]
  {
    var more := rows + [next];
    assert more[..|rows|] == rows;
    forall m ensures m in MembersOf(more) <==> m in MembersOf(rows) || m == next.member {
      if m in MembersOf(rows) {
        var i :| 0 <= i < |rows| && rows[i].member == m;
        assert more[i].member == m;
      }
      assert more[|rows|].member == next.member;
    }
  }
}
