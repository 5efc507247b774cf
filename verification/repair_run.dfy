/**
 The repair of marked-done snapshots: snapshots that can be rebuilt from their execution
 are filled, and every execution that has one that cannot is deleted with all that is
 linked to it.
 */
module RepairRun {
  import opened Core
  import opened RepairGraphs
  import opened RepairMerge
  import LeafDeletion

  datatype ExecutionRow = ExecutionRow(links: ExecutionLinks, status: Status, startAt: Option<Time>, endAt: Option<Time>)

  /** A journal event with the window of its snapshot, where the metadata holds one. */
  datatype EventRow = EventRow(execution: Id, markedDone: bool, startAt: Option<Time>, endAt: Option<Time>)

  datatype CommentRow = CommentRow(signal: Option<Id>, execution: Option<Id>)

  datatype PointSource = ForExecution(id: Id) | ForSignal(id: Id) | ForResolutionOf(signal: Id) | Elsewhere

  datatype Db = Db(
    executions: map<Id, ExecutionRow>,
    events: map<Id, EventRow>,
    schedulePlan: map<Id, Id>,
    taskExecution: map<Id, Id>,
    observations: map<Id, ObservationLinks>,
    sources: set<Source>,
    comments: map<Id, CommentRow>,
    points: map<Id, PointSource>)

  datatype Population = Population(classifiable: nat, excluded: nat, overrun: nat)

  datatype Report = Report(filled: set<Id>, doomed: Graph, before: Population, after: Population)

  function LinksOf(db: Db): Links {
    Links(map e | e in db.executions :: db.executions[e].links, db.schedulePlan, db.taskExecution, db.observations, db.sources)
  }

  ghost predicate Integral(db: Db) {
    forall ev :: ev in db.events ==> db.events[ev].execution in db.executions
  }

  predicate ValidWindow(startAt: Option<Time>, endAt: Option<Time>) {
    startAt.Some? && endAt.Some? && startAt.value < endAt.value
  }

  predicate SnapshotValid(ev: EventRow) { ValidWindow(ev.startAt, ev.endAt) }

  predicate Incomplete(db: Db, ev: Id) {
    ev in db.events && db.events[ev].markedDone && !SnapshotValid(db.events[ev])
  }

  predicate Recoverable(db: Db, e: Id) {
    e in db.executions && ValidWindow(db.executions[e].startAt, db.executions[e].endAt)
  }

  function Fills(db: Db): set<Id> {
    set ev | ev in db.events && Incomplete(db, ev) && Recoverable(db, db.events[ev].execution)
  }

  function Seeds(db: Db): set<Id> {
    set ev | ev in db.events && Incomplete(db, ev) && !Recoverable(db, db.events[ev].execution) :: db.events[ev].execution
  }

  // ----- the dashboard's population -----

  predicate Counts(db: Db, ev: Id, skip: set<Id>) {
    ev in db.events && db.events[ev].markedDone && ev !in skip
  }

  predicate Classifiable(db: Db, ev: Id, filled: set<Id>) {
    ev in db.events && (ev in filled || SnapshotValid(db.events[ev]))
  }

  predicate Overrun(db: Db, e: Id, skip: set<Id>, now: Time) {
    && e in db.executions && e !in skip
    && (db.executions[e].status == Scheduled || db.executions[e].status == InProgress)
    && ValidWindow(db.executions[e].startAt, db.executions[e].endAt) && db.executions[e].endAt.value < now
  }

  function PopulationOf(db: Db, skipEvents: set<Id>, skipExecutions: set<Id>, filled: set<Id>, now: Time): Population {
    Population(
      |set ev | ev in db.events && Counts(db, ev, skipEvents) && Classifiable(db, ev, filled)|,
      |set ev | ev in db.events && Counts(db, ev, skipEvents) && !Classifiable(db, ev, filled)|,
      |set e | e in db.executions && Overrun(db, e, skipExecutions, now)|)
  }

  // ----- what a repair writes -----

  function DoomedEvents(db: Db, doomed: Graph): set<Id> {
    set ev | ev in db.events && db.events[ev].execution in doomed.executions
  }

  function DoomedComments(db: Db, doomed: Graph): set<Id> {
    set c | c in db.comments && (InOpt(db.comments[c].signal, doomed.signals) || InOpt(db.comments[c].execution, doomed.executions))
  }

  predicate PointOf(source: PointSource, doomed: Graph) {
    match source
    case ForExecution(e) => e in doomed.executions
    case ForSignal(s) => s in doomed.signals
    case ForResolutionOf(s) => s in doomed.signals
    case Elsewhere => false
  }

  /** Transactions of a doomed source, with their reversals. */
  function DoomedPoints(db: Db, rows: LeafDeletion.Rows, doomed: Graph): set<Id> {
    LeafDeletion.WithReversals(rows, set t | t in db.points && PointOf(db.points[t], doomed))
  }

  /** Deleting transactions reaches one level of reversals further. */
  function PurgedPoints(db: Db, rows: LeafDeletion.Rows, doomed: Graph): set<Id> {
    LeafDeletion.WithReversals(rows, DoomedPoints(db, rows, doomed))
  }

  function WithSnapshot(db: Db, ev: Id): EventRow
    requires ev in db.events
  {
    var row := db.events[ev];
    if row.execution in db.executions
    then row.(startAt := db.executions[row.execution].startAt, endAt := db.executions[row.execution].endAt) else row
  }

  function Filled(db: Db, fills: set<Id>): Db {
    db.(events := map ev | ev in db.events :: if ev in fills then WithSnapshot(db, ev) else db.events[ev])
  }

  function Pruned(db: Db, doomed: Graph, comments: set<Id>, points: set<Id>): Db {
    db.(executions := (map e | e in db.executions && e !in doomed.executions :: db.executions[e]),
        events := (map ev | ev in db.events && db.events[ev].execution !in doomed.executions :: db.events[ev]),
        schedulePlan := (map s | s in db.schedulePlan && s !in doomed.schedules :: db.schedulePlan[s]),
        taskExecution := (map t | t in db.taskExecution && t !in doomed.tasks :: db.taskExecution[t]),
        observations := (map o | o in db.observations && o !in doomed.observations :: db.observations[o]),
        sources := (set s | s in db.sources && s.signal !in doomed.signals),
        comments := (map c | c in db.comments && c !in comments :: db.comments[c]),
        points := (map t | t in db.points && t !in points :: db.points[t]))
  }

  /** What a repair that is not a dry run leaves. */
  function Repaired(db: Db, doomed: Graph, comments: set<Id>, points: set<Id>): Db {
    Pruned(Filled(db, Fills(db)), doomed, comments, points)
  }

  /** The graph a repair deletes. */
  ghost predicate Dooms(db: Db, doomed: Graph) {
    LeastClosed(LinksOf(db), Seeds(db), doomed)
  }

  // ----- what a repair guarantees -----

  lemma RepairedEvent(db: Db, doomed: Graph, comments: set<Id>, points: set<Id>, ev: Id)
    ensures var after := Repaired(db, doomed, comments, points);
            && (ev in after.events <==> ev in db.events && ev !in DoomedEvents(db, doomed))
            && (ev in after.events ==>
                  after.events[ev] == if ev in Fills(db) then WithSnapshot(db, ev) else db.events[ev])
  {
  }

  lemma SeedsAreDoomed(db: Db, doomed: Graph, ev: Id)
    requires Integral(db) && Dooms(db, doomed) && Incomplete(db, ev) && ev !in Fills(db)
    ensures ev in DoomedEvents(db, doomed)
  {
    var e := db.events[ev].execution;
    assert e in Seeds(db);
    assert Has(Seeded(Seeds(db)), ExecutionNode(e));
    assert Has(doomed, ExecutionNode(e));
  }

  /** No marked-done event is left that the dashboard cannot classify. */
  lemma NothingUnclassifiableLeft(db: Db, doomed: Graph, comments: set<Id>, points: set<Id>, ev: Id)
    requires Integral(db) && Dooms(db, doomed)
    ensures !Incomplete(Repaired(db, doomed, comments, points), ev)
  {
    var after := Repaired(db, doomed, comments, points);
    RepairedEvent(db, doomed, comments, points, ev);
    if Incomplete(after, ev) {
      if ev !in Fills(db) {
        SeedsAreDoomed(db, doomed, ev);
      }
    }
  }

  /** A second repair fills nothing and deletes nothing. */
  lemma SecondRepairIsIdle(db: Db, doomed: Graph, comments: set<Id>, points: set<Id>)
    requires Integral(db) && Dooms(db, doomed)
    ensures var after := Repaired(db, doomed, comments, points);
            && Fills(after) == {} && Seeds(after) == {}
            && Dooms(after, Seeded({}))
  {
    var after := Repaired(db, doomed, comments, points);
    forall ev ensures !Incomplete(after, ev) {
      NothingUnclassifiableLeft(db, doomed, comments, points, ev);
    }
    assert Seeds(after) == {};
    NothingGrows(LinksOf(after), Seeded({}));
  }

  /** The population a dry run projects is the one found after the repair, at the same instant. */
  lemma DryRunPredicts(db: Db, doomed: Graph, comments: set<Id>, points: set<Id>, now: Time)
    requires Integral(db) && Dooms(db, doomed)
    ensures PopulationOf(db, DoomedEvents(db, doomed), doomed.executions, Fills(db), now)
            == PopulationOf(Repaired(db, doomed, comments, points), {}, {}, {}, now)
    ensures PopulationOf(Repaired(db, doomed, comments, points), {}, {}, {}, now).excluded == 0
  {
    var after, skip, fills := Repaired(db, doomed, comments, points), DoomedEvents(db, doomed), Fills(db);
    forall ev
      ensures Counts(db, ev, skip) <==> Counts(after, ev, {})
      ensures Counts(after, ev, {}) ==> Classifiable(db, ev, fills) && Classifiable(after, ev, {})
    {
      RepairedEvent(db, doomed, comments, points, ev);
      NothingUnclassifiableLeft(db, doomed, comments, points, ev);
      if Counts(db, ev, skip) && Incomplete(db, ev) && ev !in fills {
        SeedsAreDoomed(db, doomed, ev);
      }
    }
    assert (set ev | ev in db.events && Counts(db, ev, skip) && Classifiable(db, ev, fills))
        == (set ev | ev in after.events && Counts(after, ev, {}) && Classifiable(after, ev, {}));
    assert (set ev | ev in db.events && Counts(db, ev, skip) && !Classifiable(db, ev, fills)) == {};
    assert (set ev | ev in after.events && Counts(after, ev, {}) && !Classifiable(after, ev, {})) == {};
    assert (set e | e in db.executions && Overrun(db, e, doomed.executions, now))
        == (set e | e in after.executions && Overrun(after, e, {}, now));
  }

  /** Nothing that is kept points at anything that is deleted. */
  ghost predicate NoDangling(after: Db, doomed: Graph) {
    && (forall e :: e in after.executions ==>
          !InOpt(after.executions[e].links.plan, doomed.plans) && !InOpt(after.executions[e].links.signal, doomed.signals)
          && !InOpt(after.executions[e].links.schedule, doomed.schedules))
    && (forall s :: s in after.schedulePlan ==> after.schedulePlan[s] !in doomed.plans)
    && (forall t :: t in after.taskExecution ==> after.taskExecution[t] !in doomed.executions)
    && (forall o :: o in after.observations ==>
          !InOpt(after.observations[o].execution, doomed.executions) && !InOpt(after.observations[o].task, doomed.tasks))
    && (forall s :: s in after.sources ==> s.observation !in doomed.observations && s.signal !in doomed.signals)
    && (forall ev :: ev in after.events ==> after.events[ev].execution !in doomed.executions)
  }

  lemma NothingDangles(db: Db, doomed: Graph, comments: set<Id>, points: set<Id>)
    requires Dooms(db, doomed)
    ensures NoDangling(Repaired(db, doomed, comments, points), doomed)
  {
    var links, after := LinksOf(db), Repaired(db, doomed, comments, points);
    forall a, b | LeadsTo(links, a, b) && !Has(doomed, b) ensures !Has(doomed, a) {
    }
    forall e | e in after.executions
      ensures !InOpt(after.executions[e].links.plan, doomed.plans) && !InOpt(after.executions[e].links.signal, doomed.signals)
              && !InOpt(after.executions[e].links.schedule, doomed.schedules)
    {
      var row := db.executions[e].links;
      assert links.executions[e] == row;
      if row.plan.Some? { assert LeadsTo(links, PlanNode(row.plan.value), ExecutionNode(e)); }
      if row.signal.Some? { assert LeadsTo(links, SignalNode(row.signal.value), ExecutionNode(e)); }
      if row.schedule.Some? { assert LeadsTo(links, ScheduleNode(row.schedule.value), ExecutionNode(e)); }
    }
    forall s | s in after.schedulePlan ensures after.schedulePlan[s] !in doomed.plans {
      assert LeadsTo(links, PlanNode(db.schedulePlan[s]), ScheduleNode(s));
    }
    forall t | t in after.taskExecution ensures after.taskExecution[t] !in doomed.executions {
      assert LeadsTo(links, ExecutionNode(db.taskExecution[t]), TaskNode(t));
    }
    forall o | o in after.observations
      ensures !InOpt(after.observations[o].execution, doomed.executions) && !InOpt(after.observations[o].task, doomed.tasks)
    {
      var row := db.observations[o];
      if row.execution.Some? { assert LeadsTo(links, ExecutionNode(row.execution.value), ObservationNode(o)); }
      if row.task.Some? { assert LeadsTo(links, TaskNode(row.task.value), ObservationNode(o)); }
    }
    forall s | s in after.sources ensures s.observation !in doomed.observations && s.signal !in doomed.signals {
      assert s == Source(s.signal, s.observation);
      assert LeadsTo(links, ObservationNode(s.observation), SignalNode(s.signal));
    }
  }

  // ----- what goes and what stays, row by row -----

  /** Linked to a doomed signal or to a doomed execution. */
  ghost predicate CommentGoes(c: CommentRow, doomed: Graph) {
    || (c.signal.Some? && Has(doomed, SignalNode(c.signal.value)))
    || (c.execution.Some? && Has(doomed, ExecutionNode(c.execution.value)))
  }

  /** Earned for a doomed execution, for a doomed signal, or for the resolution of one. */
  ghost predicate SourceGoes(p: PointSource, doomed: Graph) {
    || (exists e :: Has(doomed, ExecutionNode(e)) && p == ForExecution(e))
    || (exists s :: Has(doomed, SignalNode(s)) && (p == ForSignal(s) || p == ForResolutionOf(s)))
  }

  /** A transaction is that many reversals away from another. */
  ghost predicate Reverses(rows: LeafDeletion.Rows, t: Id, u: Id, steps: nat)
    decreases steps
  {
    if steps == 0 then t == u else exists v :: LeafDeletion.RefersTo(rows, t, v) && Reverses(rows, v, u, steps - 1)
  }

  /** At most two reversals away from a transaction of a doomed source. */
  ghost predicate PointGoes(db: Db, rows: LeafDeletion.Rows, doomed: Graph, t: Id) {
    exists u, steps: nat :: steps <= 2 && u in db.points && SourceGoes(db.points[u], doomed) && Reverses(rows, t, u, steps)
  }

  predicate HasWindow(startAt: Option<Time>, endAt: Option<Time>) {
    startAt.Some? && endAt.Some? && startAt.value < endAt.value
  }

  /** A marked-done event without a window of its own takes its execution's, when that is one. */
  ghost predicate EventFilled(db: Db, ev: EventRow, after: EventRow) {
    var takes := ev.markedDone && !HasWindow(ev.startAt, ev.endAt) && ev.execution in db.executions
                 && HasWindow(db.executions[ev.execution].startAt, db.executions[ev.execution].endAt);
    && after.execution == ev.execution && after.markedDone == ev.markedDone
    && after.startAt == (if takes then db.executions[ev.execution].startAt else ev.startAt)
    && after.endAt == (if takes then db.executions[ev.execution].endAt else ev.endAt)
  }

  /** The rows of the graph that are left. */
  ghost predicate LeavesGraph(db: Db, doomed: Graph, after: Db) {
    && (forall e :: e in after.executions <==> e in db.executions && !Has(doomed, ExecutionNode(e)))
    && (forall e :: e in after.executions ==> after.executions[e] == db.executions[e])
    && (forall s :: s in after.schedulePlan <==> s in db.schedulePlan && !Has(doomed, ScheduleNode(s)))
    && (forall s :: s in after.schedulePlan ==> after.schedulePlan[s] == db.schedulePlan[s])
    && (forall t :: t in after.taskExecution <==> t in db.taskExecution && !Has(doomed, TaskNode(t)))
    && (forall t :: t in after.taskExecution ==> after.taskExecution[t] == db.taskExecution[t])
    && (forall o :: o in after.observations <==> o in db.observations && !Has(doomed, ObservationNode(o)))
    && (forall o :: o in after.observations ==> after.observations[o] == db.observations[o])
    && (forall s :: s in after.sources <==> s in db.sources && !Has(doomed, SignalNode(s.signal)))
  }

  /** The events that are left, filled where they can be. */
  ghost predicate LeavesEvents(db: Db, doomed: Graph, after: Db) {
    && (forall ev :: ev in after.events <==> ev in db.events && !Has(doomed, ExecutionNode(db.events[ev].execution)))
    && (forall ev :: ev in after.events ==> EventFilled(db, db.events[ev], after.events[ev]))
  }

  /** The comments and point transactions that are left. */
  ghost predicate LeavesLinked(db: Db, points: LeafDeletion.Rows, doomed: Graph, after: Db) {
    && (forall c :: c in after.comments <==> c in db.comments && !CommentGoes(db.comments[c], doomed))
    && (forall c :: c in after.comments ==> after.comments[c] == db.comments[c])
    && (forall t :: t in after.points <==> t in db.points && !PointGoes(db, points, doomed, t))
    && (forall t :: t in after.points ==> after.points[t] == db.points[t])
  }

  lemma CommentsGo(db: Db, doomed: Graph, c: Id)
    ensures c in DoomedComments(db, doomed) <==> c in db.comments && CommentGoes(db.comments[c], doomed)
  {
  }

  lemma PointsGo(db: Db, rows: LeafDeletion.Rows, doomed: Graph, t: Id)
    ensures t in PurgedPoints(db, rows, doomed) <==> PointGoes(db, rows, doomed, t)
  {
    var first := set t | t in db.points && PointOf(db.points[t], doomed);
    forall t | t in db.points ensures t in first <==> SourceGoes(db.points[t], doomed) {
      SourcesGo(db.points[t], doomed);
    }
    if t in PurgedPoints(db, rows, doomed) {
      PurgedGo(db, rows, doomed, first, t);
    }
    if u, steps: nat :| steps <= 2 && u in db.points && SourceGoes(db.points[u], doomed) && Reverses(rows, t, u, steps) {
      ReversalsArePurged(rows, first, t, u, steps);
    }
  }

  lemma SourcesGo(p: PointSource, doomed: Graph)
    ensures PointOf(p, doomed) <==> SourceGoes(p, doomed)
  {
    match p
    case ForExecution(e) => assert Has(doomed, ExecutionNode(e)) <==> e in doomed.executions;
    case ForSignal(s) => assert Has(doomed, SignalNode(s)) <==> s in doomed.signals;
    case ForResolutionOf(s) => assert Has(doomed, SignalNode(s)) <==> s in doomed.signals;
    case Elsewhere =>
  }

  lemma PurgedGo(db: Db, rows: LeafDeletion.Rows, doomed: Graph, first: set<Id>, t: Id)
    requires forall t :: t in first ==> t in db.points && SourceGoes(db.points[t], doomed)
    requires t in LeafDeletion.WithReversals(rows, LeafDeletion.WithReversals(rows, first))
    ensures PointGoes(db, rows, doomed, t)
  {
    if t in first {
      assert Reverses(rows, t, t, 0);
    } else if t in LeafDeletion.WithReversals(rows, first) {
      assert Reverses(rows, rows[t].value, rows[t].value, 0) && LeafDeletion.RefersTo(rows, t, rows[t].value);
      assert Reverses(rows, t, rows[t].value, 1);
    } else {
      var v := rows[t].value;
      var u := rows[v].value;
      assert Reverses(rows, u, u, 0) && LeafDeletion.RefersTo(rows, v, u);
      assert Reverses(rows, v, u, 1) && LeafDeletion.RefersTo(rows, t, v);
      assert Reverses(rows, t, u, 2);
    }
  }

  lemma ReversalsArePurged(rows: LeafDeletion.Rows, first: set<Id>, t: Id, u: Id, steps: nat)
    requires u in first && steps <= 2 && Reverses(rows, t, u, steps)
    ensures t in LeafDeletion.WithReversals(rows, LeafDeletion.WithReversals(rows, first))
  {
    var once := LeafDeletion.WithReversals(rows, first);
    if steps == 1 {
      var v :| LeafDeletion.RefersTo(rows, t, v) && Reverses(rows, v, u, 0);
      assert t in once;
    } else if steps == 2 {
      var v :| LeafDeletion.RefersTo(rows, t, v) && Reverses(rows, v, u, 1);
      var w :| LeafDeletion.RefersTo(rows, v, w) && Reverses(rows, w, u, 0);
      assert v in once;
    }
  }

  /** What a repair leaves, of every kind of row. */
  lemma RepairLeaves(db: Db, points: LeafDeletion.Rows, doomed: Graph)
    ensures LeavesGraph(db, doomed, After(db, points, doomed))
    ensures LeavesEvents(db, doomed, After(db, points, doomed))
    ensures LeavesLinked(db, points, doomed, After(db, points, doomed))
  {
    LinkedLeft(db, points, doomed);
    EventsLeft(db, doomed, DoomedComments(db, doomed), PurgedPoints(db, points, doomed));
    GraphLeft(db, doomed, DoomedComments(db, doomed), PurgedPoints(db, points, doomed));
  }

  lemma GraphLeft(db: Db, doomed: Graph, comments: set<Id>, points: set<Id>)
    ensures LeavesGraph(db, doomed, Repaired(db, doomed, comments, points))
  {
  }

  lemma EventsLeft(db: Db, doomed: Graph, comments: set<Id>, points: set<Id>)
    ensures LeavesEvents(db, doomed, Repaired(db, doomed, comments, points))
  {
    var after := Repaired(db, doomed, comments, points);
    forall ev | ev in after.events ensures EventFilled(db, db.events[ev], after.events[ev]) {
      RepairedEvent(db, doomed, comments, points, ev);
    }
  }

  lemma LinkedLeft(db: Db, points: LeafDeletion.Rows, doomed: Graph)
    ensures LeavesLinked(db, points, doomed, After(db, points, doomed))
  {
    var after := After(db, points, doomed);
    forall c ensures c in after.comments <==> c in db.comments && !CommentGoes(db.comments[c], doomed) {
      CommentsGo(db, doomed, c);
    }
    forall t ensures t in after.points <==> t in db.points && !PointGoes(db, points, doomed, t) {
      PointsGo(db, points, doomed, t);
    }
  }

  /** The comments, and the point transactions, that are left in their own tables. */
  ghost predicate LeavesRows(db: Db, doomed: Graph, comments: LeafDeletion.Rows, points: LeafDeletion.Rows,
                             commentsLeft: LeafDeletion.Rows, pointsLeft: LeafDeletion.Rows) {
    && (forall c :: c in commentsLeft <==> c in comments && !(c in db.comments && CommentGoes(db.comments[c], doomed)))
    && (forall t :: t in pointsLeft <==> t in points && !PointGoes(db, points, doomed, t))
  }

  lemma RowsLeft(db: Db, doomed: Graph, comments: LeafDeletion.Rows, points: LeafDeletion.Rows)
    ensures LeavesRows(db, doomed, comments, points, LeafDeletion.Without(comments, DoomedComments(db, doomed)),
                       LeafDeletion.Without(points, PurgedPoints(db, points, doomed)))
  {
    forall c ensures c in DoomedComments(db, doomed) <==> c in db.comments && CommentGoes(db.comments[c], doomed) {
      CommentsGo(db, doomed, c);
    }
    forall t ensures t in PurgedPoints(db, points, doomed) <==> PointGoes(db, points, doomed, t) {
      PointsGo(db, points, doomed, t);
    }
  }

  /** What an applied repair leaves of every table. */
  ghost predicate Leaves(db: Db, comments: LeafDeletion.Rows, points: LeafDeletion.Rows, doomed: Graph,
                         after: Db, commentsLeft: LeafDeletion.Rows, pointsLeft: LeafDeletion.Rows) {
    && LeavesGraph(db, doomed, after) && LeavesEvents(db, doomed, after) && LeavesLinked(db, points, doomed, after)
    && LeavesRows(db, doomed, comments, points, commentsLeft, pointsLeft)
  }

  /** The dashboard counts marked-done events by whether they have a window, and open executions past theirs. */
  lemma PopulationExactly(db: Db, now: Time)
    ensures var p := PopulationOf(db, {}, {}, {}, now);
            && p.classifiable == |set ev | ev in db.events && db.events[ev].markedDone && HasWindow(db.events[ev].startAt, db.events[ev].endAt)|
            && p.excluded == |set ev | ev in db.events && db.events[ev].markedDone && !HasWindow(db.events[ev].startAt, db.events[ev].endAt)|
            && p.overrun == |set e | e in db.executions && LateAndOpen(db.executions[e], now)|
  {
    assert (set ev | ev in db.events && Counts(db, ev, {}) && Classifiable(db, ev, {}))
        == (set ev | ev in db.events && db.events[ev].markedDone && HasWindow(db.events[ev].startAt, db.events[ev].endAt));
    assert (set ev | ev in db.events && Counts(db, ev, {}) && !Classifiable(db, ev, {}))
        == (set ev | ev in db.events && db.events[ev].markedDone && !HasWindow(db.events[ev].startAt, db.events[ev].endAt));
    assert (set e | e in db.executions && Overrun(db, e, {}, now))
        == (set e | e in db.executions && LateAndOpen(db.executions[e], now));
  }

  /** Not pending, done or canceled, with a window that has ended. */
  predicate LateAndOpen(e: ExecutionRow, now: Time) {
    && e.status != PendingValidation && e.status != Done && e.status != Canceled
    && HasWindow(e.startAt, e.endAt) && e.endAt.value < now
  }

  // ----- the graphs together -----

  ghost predicate UnionOf(list: seq<Graph>, u: Graph) {
    forall n :: Has(u, n) <==> InAny(list, n)
  }

  /** The graphs of single executions, in the order they were grown. */
  ghost predicate Expanded(links: Links, graphs: seq<Graph>, order: seq<Id>) {
    && |graphs| == |order|
    && (forall k :: 0 <= k < |graphs| ==> LeastClosed(links, {order[k]}, graphs[k]))
  }

  lemma TogetherIsClosed(links: Links, graphs: seq<Graph>, u: Graph)
    requires UnionOf(graphs, u) && forall k :: 0 <= k < |graphs| ==> Closed(links, graphs[k])
    ensures Closed(links, u)
  {
    forall a, b | Has(u, a) && LeadsTo(links, a, b) ensures Has(u, b) {
      var k :| 0 <= k < |graphs| && Has(graphs[k], a);
      assert Closed(links, graphs[k]);
    }
  }

  lemma TogetherIsForced(links: Links, graphs: seq<Graph>, order: seq<Id>, seeds: set<Id>, u: Graph)
    requires UnionOf(graphs, u) && |order| == |graphs| && forall k :: 0 <= k < |order| ==> order[k] in seeds
    requires forall k :: 0 <= k < |graphs| ==> Forced(links, Seeded({order[k]}), graphs[k])
    ensures Forced(links, Seeded(seeds), u)
  {
    forall c | Closed(links, c) && Within(Seeded(seeds), c) ensures Within(u, c) {
      forall n | Has(u, n) ensures Has(c, n) {
        var k :| 0 <= k < |graphs| && Has(graphs[k], n);
        assert order[k] in seeds && Forced(links, Seeded({order[k]}), graphs[k]);
        forall m | Has(Seeded({order[k]}), m) ensures Has(c, m) {
          assert Has(Seeded(seeds), m);
        }
      }
    }
  }

  lemma TogetherHasSeeds(graphs: seq<Graph>, order: seq<Id>, seeds: set<Id>, u: Graph)
    requires UnionOf(graphs, u) && |order| == |graphs| && forall e :: e in seeds ==> e in order
    requires forall k :: 0 <= k < |graphs| ==> Within(Seeded({order[k]}), graphs[k])
    ensures Within(Seeded(seeds), u)
  {
    forall n | Has(Seeded(seeds), n) ensures Has(u, n) {
      var k :| 0 <= k < |order| && order[k] == n.id;
      assert Within(Seeded({order[k]}), graphs[k]) && Has(Seeded({order[k]}), n);
    }
  }

  /** Expanding each execution by itself and merging dooms exactly what expanding them all at once would. */
  lemma TogetherIsLeast(links: Links, graphs: seq<Graph>, order: seq<Id>, seeds: set<Id>, u: Graph)
    requires Expanded(links, graphs, order) && UnionOf(graphs, u) && forall e :: e in seeds <==> e in order
    ensures LeastClosed(links, seeds, u)
  {
    forall k | 0 <= k < |graphs|
      ensures Closed(links, graphs[k]) && Within(Seeded({order[k]}), graphs[k])
      ensures Forced(links, Seeded({order[k]}), graphs[k])
    {
      assert LeastClosed(links, {order[k]}, graphs[k]);
    }
    TogetherIsClosed(links, graphs, u);
    TogetherHasSeeds(graphs, order, seeds, u);
    TogetherIsForced(links, graphs, order, seeds, u);
  }

  lemma UnionNext(list: seq<Graph>, k: nat, u: Graph)
    requires k < |list| && UnionOf(list[..k], u)
    ensures UnionOf(list[..k + 1], Union(u, list[k]))
  {
    var early, more := list[..k], list[..k + 1];
    forall n ensures Has(Union(u, list[k]), n) <==> InAny(more, n) {
      assert Has(Union(u, list[k]), n) <==> Has(u, n) || Has(list[k], n);
      if t :| 0 <= t < k && Has(early[t], n) {
        assert more[t] == early[t];
      }
      if t :| 0 <= t < k + 1 && Has(more[t], n) {
        assert t < k ==> early[t] == more[t];
      }
      assert more[k] == list[k];
    }
  }

  /** The rows of a list of graphs, collected by kind. */
  method Collect(graphs: seq<GraphIds>) returns (u: Graph)
    ensures UnionOf(Values(graphs), u)
  {
    u := Seeded({});
    ghost var list := Values(graphs);
    for k := 0 to |graphs|
      invariant UnionOf(list[..k], u)
    {
      UnionNext(list, k, u);
      u := Union(u, graphs[k].Value());
    }
    assert list[..|graphs|] == list;
  }

  /** The graphs of the executions whose snapshots cannot be rebuilt, merged. */
  method DoomedGraph(links: Links, seeds: set<Id>) returns (u: Graph)
    ensures LeastClosed(links, seeds, u)
  {
    var graphs: seq<GraphIds> := [];
    ghost var pool: set<GraphIds>, order: seq<Id> := {}, [];
    var todo := seeds;
    while todo != {}
      invariant Distinct(graphs) && From(graphs, pool) && fresh(pool)
      invariant Expanded(links, Values(graphs), order)
      invariant forall e :: e in seeds <==> e in order || e in todo
      decreases |todo|
    {
      var e :| e in todo;
      ghost var list := Values(graphs);
      var g := ExpandFromExecutions(links, {e});
      todo, graphs, order, pool := todo - {e}, graphs + [g], order + [e], pool + {g};
      assert Values(graphs) == list + [g.Value()];
    }
    ghost var list := Values(graphs);
    var merged := MergeGraphs(graphs, pool);
    u := Collect(merged);
    forall n ensures Has(u, n) <==> InAny(list, n) {
      MergedKeepsRows(list, n);
    }
    TogetherIsLeast(links, list, order, seeds, u);
  }

  // ----- the repair as it runs -----

  class Repair {
    var db: Db
    const comments: LeafDeletion.Table
    const points: LeafDeletion.Table

    constructor (db: Db, comments: LeafDeletion.Table, points: LeafDeletion.Table)
      ensures this.db == db && this.comments == comments && this.points == points
    {
      this.db, this.comments, this.points := db, comments, points;
    }

    method DashboardPopulation(skipEvents: set<Id>, skipExecutions: set<Id>, filled: set<Id>, now: Time) returns (p: Population)
      ensures p == PopulationOf(db, skipEvents, skipExecutions, filled, now)
    {
      var classifiable, excluded := CountEvents(skipEvents, filled);
      var overrun := CountOverrun(skipExecutions, now);
      p := Population(classifiable, excluded, overrun);
    }

    method CountEvents(skip: set<Id>, filled: set<Id>) returns (classifiable: nat, excluded: nat)
      ensures classifiable == |set ev | ev in db.events && Counts(db, ev, skip) && Classifiable(db, ev, filled)|
      ensures excluded == |set ev | ev in db.events && Counts(db, ev, skip) && !Classifiable(db, ev, filled)|
    {
      classifiable, excluded := 0, 0;
      var todo := set ev | ev in db.events;
      ghost var good: set<Id>, bad: set<Id> := {}, {};
      while todo != {}
        invariant forall ev :: ev in todo ==> ev in db.events
        invariant good == set ev | ev in db.events && ev !in todo && Counts(db, ev, skip) && Classifiable(db, ev, filled)
        invariant bad == set ev | ev in db.events && ev !in todo && Counts(db, ev, skip) && !Classifiable(db, ev, filled)
        invariant classifiable == |good| && excluded == |bad|
        decreases |todo|
      {
        var ev :| ev in todo;
        todo := todo - {ev};
        if !db.events[ev].markedDone || ev in skip {
          continue;
        }
        if ev in filled || SnapshotValid(db.events[ev]) {
          classifiable, good := classifiable + 1, good + {ev};
        } else {
          excluded, bad := excluded + 1, bad + {ev};
        }
      }
      assert good == set ev | ev in db.events && Counts(db, ev, skip) && Classifiable(db, ev, filled);
      assert bad == set ev | ev in db.events && Counts(db, ev, skip) && !Classifiable(db, ev, filled);
    }

    method CountOverrun(skip: set<Id>, now: Time) returns (overrun: nat)
      ensures overrun == |set e | e in db.executions && Overrun(db, e, skip, now)|
    {
      overrun := 0;
      var todo := set e | e in db.executions;
      ghost var late: set<Id> := {};
      while todo != {}
        invariant forall e :: e in todo ==> e in db.executions
        invariant late == set e | e in db.executions && e !in todo && Overrun(db, e, skip, now)
        invariant overrun == |late|
        decreases |todo|
      {
        var e :| e in todo;
        todo := todo - {e};
        if Overrun(db, e, skip, now) {
          overrun, late := overrun + 1, late + {e};
        }
      }
      assert late == set e | e in db.executions && Overrun(db, e, skip, now);
    }

    /** Execution by execution: incomplete snapshots are filled, or their execution is a seed. */
    method Sort() returns (fills: set<Id>, seeds: set<Id>)
      ensures fills == Fills(db) && seeds == Seeds(db)
    {
      fills, seeds := {}, {};
      var todo := set ev | ev in db.events && db.events[ev].markedDone :: db.events[ev].execution;
      while todo != {}
        invariant forall ev :: ev in fills <==> ev in Fills(db) && db.events[ev].execution !in todo
        invariant forall e :: e in seeds <==> e in Seeds(db) && e !in todo
        decreases |todo|
      {
        var e :| e in todo;
        var incomplete := set ev | ev in db.events && db.events[ev].execution == e && Incomplete(db, ev);
        todo := todo - {e};
        assert forall ev :: ev in db.events && Incomplete(db, ev) && db.events[ev].execution == e ==> ev in incomplete;
        assert forall ev :: ev in Fills(db) && db.events[ev].execution == e ==> ev in incomplete;
        if incomplete == {} {
          assert e !in Seeds(db);
          continue;
        }
        if Recoverable(db, e) {
          fills := fills + incomplete;
        } else {
          var ev :| ev in incomplete;
          assert db.events[ev].execution in Seeds(db);
          seeds := seeds + {e};
        }
      }
    }

    /**
     A dry run writes nothing and projects the population; otherwise the fills and the deletions are one
     transaction, which the protected keys of comments and point transactions can undo.
     */
    method Transact(dryRun: bool, now: Time) returns (r: Result<Report, LeafDeletion.Failure>)
      requires Integral(db) && comments != points
      requires LeafDeletion.Integral(comments.rows) && LeafDeletion.Integral(points.rows)
      modifies this, comments, points
      ensures r.Err? || dryRun ==> db == old(db) && comments.rows == old(comments.rows) && points.rows == old(points.rows)
      ensures r.Ok? ==>
                && Dooms(old(db), r.value.doomed) && r.value.filled == Fills(old(db))
                && r.value.before == PopulationOf(old(db), {}, {}, {}, now)
                && r.value.after == PopulationOf(After(old(db), old(points.rows), r.value.doomed), {}, {}, {}, now)
      ensures r.Ok? && !dryRun ==>
                && db == After(old(db), old(points.rows), r.value.doomed)
                && comments.rows == LeafDeletion.Without(old(comments.rows), DoomedComments(old(db), r.value.doomed))
                && points.rows == LeafDeletion.Without(old(points.rows), PurgedPoints(old(db), old(points.rows), r.value.doomed))
      ensures forall doomed :: Dooms(old(db), doomed) ==>
                (r.Ok? <==> dryRun || Removable(old(db), old(comments.rows), old(points.rows), doomed))
    {
      var saved := db;
      var before := DashboardPopulation({}, {}, {}, now);
      var fills, seeds := Sort();
      var doomed := DoomedGraph(LinksOf(db), seeds);
      var gone, undone := DoomedComments(db, doomed), DoomedPoints(db, points.rows, doomed);
      var purged := PurgedPoints(db, points.rows, doomed);
      var after := DashboardPopulation(DoomedEvents(db, doomed), doomed.executions, fills, now);
      DryRunPredicts(db, doomed, gone, purged, now);
      forall other | Dooms(saved, other) ensures other == doomed {
        LeastIsUnique(LinksOf(saved), seeds, other, doomed);
      }
      if dryRun {
        return Ok(Report(fills, doomed, before, after));
      }
      var savedComments := comments.rows;
      db := Filled(db, fills);
      var deleted := comments.DeleteComments(gone);
      if deleted.Err? {
        db := saved;
        return Err(deleted.error);
      }
      deleted := points.DeleteTransactions(undone);
      if deleted.Err? {
        db, comments.rows := saved, savedComments;
        return Err(deleted.error);
      }
      db := Pruned(db, doomed, gone, purged);
      after := DashboardPopulation({}, {}, {}, now);
      return Ok(Report(fills, doomed, before, after));
    }

    /** The repair: what it dooms, counts and fills, and which rows of every table are left. */
    method Run(dryRun: bool, now: Time) returns (r: Result<Report, LeafDeletion.Failure>)
      requires Integral(db) && comments != points
      requires LeafDeletion.Integral(comments.rows) && LeafDeletion.Integral(points.rows)
      modifies this, comments, points
      ensures r.Err? || dryRun ==> db == old(db) && comments.rows == old(comments.rows) && points.rows == old(points.rows)
      ensures r.Ok? ==>
                && Dooms(old(db), r.value.doomed) && r.value.filled == Fills(old(db))
                && r.value.before == PopulationOf(old(db), {}, {}, {}, now)
                && r.value.after == PopulationOf(After(old(db), old(points.rows), r.value.doomed), {}, {}, {}, now)
      ensures r.Ok? && !dryRun ==>
                && db == After(old(db), old(points.rows), r.value.doomed)
                && Leaves(old(db), old(comments.rows), old(points.rows), r.value.doomed, db, comments.rows, points.rows)
      ensures forall doomed :: Dooms(old(db), doomed) ==>
                (r.Ok? <==> dryRun || Removable(old(db), old(comments.rows), old(points.rows), doomed))
    {
      r := Transact(dryRun, now);
      if r.Ok? && !dryRun {
        RepairLeaves(old(db), old(points.rows), r.value.doomed);
        RowsLeft(old(db), r.value.doomed, old(comments.rows), old(points.rows));
      }
    }
  }

  function After(db: Db, points: LeafDeletion.Rows, doomed: Graph): Db {
    Repaired(db, doomed, DoomedComments(db, doomed), PurgedPoints(db, points, doomed))
  }

  ghost predicate Removable(db: Db, comments: LeafDeletion.Rows, points: LeafDeletion.Rows, doomed: Graph) {
    && LeafDeletion.Deletable(comments, DoomedComments(db, doomed))
    && LeafDeletion.Deletable(points, PurgedPoints(db, points, doomed))
  }
}
