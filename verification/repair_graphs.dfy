/**
 The graphs of rows a repair deletes together: closed under the links between them,
 and merged until no two of them share a row.
 */
module RepairGraphs {
  import opened Core

  datatype ExecutionLinks = ExecutionLinks(plan: Option<Id>, signal: Option<Id>, schedule: Option<Id>)

  datatype ObservationLinks = ObservationLinks(execution: Option<Id>, task: Option<Id>)

  datatype Source = Source(signal: Id, observation: Id)

  /** The foreign keys a graph is grown along. */
  datatype Links = Links(
    executions: map<Id, ExecutionLinks>,
    schedulePlan: map<Id, Id>,
    taskExecution: map<Id, Id>,
    observations: map<Id, ObservationLinks>,
    sources: set<Source>)

  /** The value of a graph; its seeds are kept apart and grow with it. */
  datatype Graph = Graph(executions: set<Id>, plans: set<Id>, signals: set<Id>, observations: set<Id>,
                         schedules: set<Id>, tasks: set<Id>, seeds: set<Id>)

  datatype Node = ExecutionNode(id: Id) | PlanNode(id: Id) | SignalNode(id: Id) | ObservationNode(id: Id)
                | ScheduleNode(id: Id) | TaskNode(id: Id) | SeedNode(id: Id)

  predicate Has(g: Graph, n: Node) {
    match n
    case ExecutionNode(i) => i in g.executions
    case PlanNode(i) => i in g.plans
    case SignalNode(i) => i in g.signals
    case ObservationNode(i) => i in g.observations
    case ScheduleNode(i) => i in g.schedules
    case TaskNode(i) => i in g.tasks
    case SeedNode(i) => i in g.seeds
  }

  ghost predicate Within(g: Graph, h: Graph) {
    forall n :: Has(g, n) ==> Has(h, n)
  }

  // ----- growing a graph -----

  /** Along which links a graph grows: `a` leads to `b`. */
  predicate LeadsTo(db: Links, a: Node, b: Node) {
    match a
    case ExecutionNode(e) =>
      || (b.PlanNode? && e in db.executions && db.executions[e].plan == Some(b.id))
      || (b.SignalNode? && e in db.executions && db.executions[e].signal == Some(b.id))
      || (b.ScheduleNode? && e in db.executions && db.executions[e].schedule == Some(b.id))
      || (b.TaskNode? && b.id in db.taskExecution && db.taskExecution[b.id] == e)
      || (b.ObservationNode? && b.id in db.observations && db.observations[b.id].execution == Some(e))
    case PlanNode(p) =>
      || (b.ExecutionNode? && b.id in db.executions && db.executions[b.id].plan == Some(p))
      || (b.ScheduleNode? && b.id in db.schedulePlan && db.schedulePlan[b.id] == p)
    case SignalNode(s) =>
      || (b.ExecutionNode? && b.id in db.executions && db.executions[b.id].signal == Some(s))
      || (b.ObservationNode? && Source(s, b.id) in db.sources)
    case ScheduleNode(s) => b.ExecutionNode? && b.id in db.executions && db.executions[b.id].schedule == Some(s)
    case TaskNode(t) => b.ObservationNode? && b.id in db.observations && db.observations[b.id].task == Some(t)
    case ObservationNode(o) =>
      || (b.SignalNode? && Source(b.id, o) in db.sources)
      || (b.ExecutionNode? && o in db.observations && db.observations[o].execution == Some(b.id))
    case SeedNode(_) => false
  }

  ghost predicate Closed(db: Links, g: Graph) {
    forall a, b :: Has(g, a) && LeadsTo(db, a, b) ==> Has(g, b)
  }

  /** Nothing is in a grown graph that a closed graph around the first one could do without. */
  ghost predicate Forced(db: Links, from: Graph, g: Graph) {
    forall c {:trigger Closed(db, c)} :: Closed(db, c) && Within(from, c) ==> Within(g, c)
  }

  function FromExecutions(db: Links, g: Graph): Graph {
    var rows := set e | e in g.executions && e in db.executions :: db.executions[e];
    g.(plans := g.plans + (set r | r in rows && r.plan.Some? :: r.plan.value),
       signals := g.signals + (set r | r in rows && r.signal.Some? :: r.signal.value),
       schedules := g.schedules + (set r | r in rows && r.schedule.Some? :: r.schedule.value))
  }

  predicate InOpt(o: Option<Id>, ids: set<Id>) { o.Some? && o.value in ids }

  function FromPlans(db: Links, g: Graph): Graph {
    g.(executions := g.executions + (set e | e in db.executions && InOpt(db.executions[e].plan, g.plans)),
       schedules := g.schedules + (set s | s in db.schedulePlan && db.schedulePlan[s] in g.plans))
  }

  function FromSignals(db: Links, g: Graph): Graph {
    g.(executions := g.executions + (set e | e in db.executions && InOpt(db.executions[e].signal, g.signals)))
  }

  function FromSchedules(db: Links, g: Graph): Graph {
    g.(executions := g.executions + (set e | e in db.executions && InOpt(db.executions[e].schedule, g.schedules)))
  }

  function WithTasks(db: Links, g: Graph): Graph {
    g.(tasks := g.tasks + (set t | t in db.taskExecution && db.taskExecution[t] in g.executions))
  }

  function WithObservations(db: Links, g: Graph): Graph {
    g.(observations := g.observations
         + (set o | o in db.observations && InOpt(db.observations[o].execution, g.executions))
         + (set o | o in db.observations && InOpt(db.observations[o].task, g.tasks))
         + (set s | s in db.sources && s.signal in g.signals :: s.observation))
  }

  function FromObservations(db: Links, g: Graph): Graph {
    g.(signals := g.signals + (set s | s in db.sources && s.observation in g.observations :: s.signal),
       executions := g.executions
         + (set o | o in db.observations && o in g.observations && db.observations[o].execution.Some?
            :: db.observations[o].execution.value))
  }

  /** One round of the loop, query by query. */
  function Round(db: Links, g: Graph): Graph {
    var g1 := FromExecutions(db, g);
    var g2 := FromPlans(db, g1);
    var g3 := FromSignals(db, g2);
    var g4 := FromSchedules(db, g3);
    var g5 := WithTasks(db, g4);
    var g6 := WithObservations(db, g5);
    FromObservations(db, g6)
  }

  /** Every added node is one some present node leads to. */
  ghost predicate GrownBy(db: Links, g: Graph, h: Graph) {
    Within(g, h) && forall b :: Has(h, b) && !Has(g, b) ==> exists a :: Has(g, a) && LeadsTo(db, a, b)
  }

  lemma GrowthIsForced(db: Links, from: Graph, g: Graph, h: Graph)
    requires Forced(db, from, g) && GrownBy(db, g, h)
    ensures Forced(db, from, h)
  {
    forall c | Closed(db, c) && Within(from, c) ensures Within(h, c) {
      forall b | Has(h, b) ensures Has(c, b) {
        if !Has(g, b) {
          var a :| Has(g, a) && LeadsTo(db, a, b);
          assert Has(c, a);
        }
      }
    }
  }

  lemma FromExecutionsGrows(db: Links, g: Graph)
    ensures GrownBy(db, g, FromExecutions(db, g))
  {
    forall b | Has(FromExecutions(db, g), b) && !Has(g, b) ensures exists a :: Has(g, a) && LeadsTo(db, a, b) {
      var e :| e in g.executions && LeadsTo(db, ExecutionNode(e), b);
      assert Has(g, ExecutionNode(e));
    }
  }

  lemma FromPlansGrows(db: Links, g: Graph)
    ensures GrownBy(db, g, FromPlans(db, g))
  {
    forall b | Has(FromPlans(db, g), b) && !Has(g, b) ensures exists a :: Has(g, a) && LeadsTo(db, a, b) {
      var p := if b.ExecutionNode? then db.executions[b.id].plan.value else db.schedulePlan[b.id];
      assert Has(g, PlanNode(p)) && LeadsTo(db, PlanNode(p), b);
    }
  }

  lemma FromSignalsGrows(db: Links, g: Graph)
    ensures GrownBy(db, g, FromSignals(db, g))
  {
    forall b | Has(FromSignals(db, g), b) && !Has(g, b) ensures exists a :: Has(g, a) && LeadsTo(db, a, b) {
      var s := db.executions[b.id].signal.value;
      assert Has(g, SignalNode(s)) && LeadsTo(db, SignalNode(s), b);
    }
  }

  lemma FromSchedulesGrows(db: Links, g: Graph)
    ensures GrownBy(db, g, FromSchedules(db, g))
  {
    forall b | Has(FromSchedules(db, g), b) && !Has(g, b) ensures exists a :: Has(g, a) && LeadsTo(db, a, b) {
      var s := db.executions[b.id].schedule.value;
      assert Has(g, ScheduleNode(s)) && LeadsTo(db, ScheduleNode(s), b);
    }
  }

  lemma WithTasksGrows(db: Links, g: Graph)
    ensures GrownBy(db, g, WithTasks(db, g))
  {
    forall b | Has(WithTasks(db, g), b) && !Has(g, b) ensures exists a :: Has(g, a) && LeadsTo(db, a, b) {
      assert Has(g, ExecutionNode(db.taskExecution[b.id]));
    }
  }

  lemma WithObservationsGrows(db: Links, g: Graph)
    ensures GrownBy(db, g, WithObservations(db, g))
  {
    forall b | Has(WithObservations(db, g), b) && !Has(g, b) ensures exists a :: Has(g, a) && LeadsTo(db, a, b) {
      if b.id in db.observations && InOpt(db.observations[b.id].execution, g.executions) {
        assert Has(g, ExecutionNode(db.observations[b.id].execution.value));
      } else if b.id in db.observations && InOpt(db.observations[b.id].task, g.tasks) {
        assert Has(g, TaskNode(db.observations[b.id].task.value));
      } else {
        var s :| s in db.sources && s.signal in g.signals && s.observation == b.id;
        assert s == Source(s.signal, b.id);
        assert Has(g, SignalNode(s.signal)) && LeadsTo(db, SignalNode(s.signal), b);
      }
    }
  }

  lemma FromObservationsGrows(db: Links, g: Graph)
    ensures GrownBy(db, g, FromObservations(db, g))
  {
    forall b | Has(FromObservations(db, g), b) && !Has(g, b) ensures exists a :: Has(g, a) && LeadsTo(db, a, b) {
      if b.SignalNode? {
        var s :| s in db.sources && s.observation in g.observations && s.signal == b.id;
        assert Has(g, ObservationNode(s.observation));
      } else {
        var o :| o in db.observations && o in g.observations && db.observations[o].execution == Some(b.id);
        assert Has(g, ObservationNode(o));
      }
    }
  }

  lemma RoundIsForced(db: Links, from: Graph, g: Graph)
    requires Forced(db, from, g)
    ensures Forced(db, from, Round(db, g)) && Within(g, Round(db, g))
  {
    var g1 := FromExecutions(db, g);
    var g2 := FromPlans(db, g1);
    var g3 := FromSignals(db, g2);
    var g4 := FromSchedules(db, g3);
    var g5 := WithTasks(db, g4);
    var g6 := WithObservations(db, g5);
    FromExecutionsGrows(db, g); GrowthIsForced(db, from, g, g1);
    FromPlansGrows(db, g1); GrowthIsForced(db, from, g1, g2);
    FromSignalsGrows(db, g2); GrowthIsForced(db, from, g2, g3);
    FromSchedulesGrows(db, g3); GrowthIsForced(db, from, g3, g4);
    WithTasksGrows(db, g4); GrowthIsForced(db, from, g4, g5);
    WithObservationsGrows(db, g5); GrowthIsForced(db, from, g5, g6);
    FromObservationsGrows(db, g6); GrowthIsForced(db, from, g6, FromObservations(db, g6));
  }

  /** The change test compares five of the sets by size; tasks are not among them. */
  function Sizes(g: Graph): (nat, nat, nat, nat, nat) {
    (|g.executions|, |g.plans|, |g.signals|, |g.observations|, |g.schedules|)
  }

  lemma SameSizeIsSame(a: set<Id>, b: set<Id>)
    requires a <= b && |a| == |b|
    ensures a == b
  {
    assert |b - a| == 0;
  }

  lemma SubsetIsSmaller(a: set<Id>, b: set<Id>)
    requires a <= b
    ensures |a| <= |b|
  {
    assert a + (b - a) == b;
  }

  /** Although new tasks go unnoticed, a round that changes none of the five sizes has closed the graph. */
  lemma QuietRoundIsClosed(db: Links, g: Graph)
    requires Sizes(Round(db, g)) == Sizes(g)
    ensures Closed(db, Round(db, g))
  {
    var g1 := FromExecutions(db, g);
    var g2 := FromPlans(db, g1);
    var g3 := FromSignals(db, g2);
    var g4 := FromSchedules(db, g3);
    var g5 := WithTasks(db, g4);
    var g6 := WithObservations(db, g5);
    var h := FromObservations(db, g6);
    Squeezed(g, g1, h);
    Squeezed(g, g2, h);
    Squeezed(g, g3, h);
    Squeezed(g, g4, h);
    Squeezed(g, g6, h);
    Squeezed(g, h, h);
    assert g1 == g && g2 == g && g3 == g && g4 == g;
    assert g5 == h && g6 == h;
    forall a, b | Has(h, a) && LeadsTo(db, a, b) ensures Has(h, b) {
      QuietLink(db, g, h, a, b);
    }
  }

  predicate Below(g: Graph, h: Graph) {
    && g.executions <= h.executions && g.plans <= h.plans && g.signals <= h.signals
    && g.observations <= h.observations && g.schedules <= h.schedules && g.tasks <= h.tasks && g.seeds <= h.seeds
  }

  lemma Squeezed(g: Graph, m: Graph, h: Graph)
    requires Below(g, m) && Below(m, h) && Sizes(g) == Sizes(h) && g.seeds == m.seeds
    ensures m == g.(tasks := m.tasks)
  {
    SameSizeIsSame(g.executions, h.executions);
    SameSizeIsSame(g.plans, h.plans);
    SameSizeIsSame(g.signals, h.signals);
    SameSizeIsSame(g.observations, h.observations);
    SameSizeIsSame(g.schedules, h.schedules);
  }

  lemma QuietLink(db: Links, g: Graph, h: Graph, a: Node, b: Node)
    requires FromExecutions(db, g) == g && FromPlans(db, g) == g && FromSignals(db, g) == g && FromSchedules(db, g) == g
    requires WithTasks(db, g) == h && WithObservations(db, h) == h && FromObservations(db, h) == h
    requires Has(h, a) && LeadsTo(db, a, b)
    ensures Has(h, b)
  {
    match a
    case ExecutionNode(e) =>
      match b {
        case PlanNode(i) => assert i in FromExecutions(db, g).plans;
        case SignalNode(i) => assert i in FromExecutions(db, g).signals;
        case ScheduleNode(i) => assert i in FromExecutions(db, g).schedules;
        case TaskNode(i) => assert i in WithTasks(db, g).tasks;
        case ObservationNode(i) => assert i in WithObservations(db, h).observations;
      }
    case PlanNode(p) =>
      if b.ExecutionNode? {
        assert b.id in FromPlans(db, g).executions;
      } else {
        assert b.id in FromPlans(db, g).schedules;
      }
    case SignalNode(s) =>
      if b.ExecutionNode? {
        assert b.id in FromSignals(db, g).executions;
      } else {
        assert Source(s, b.id).observation in WithObservations(db, h).observations;
      }
    case ScheduleNode(s) => assert b.id in FromSchedules(db, g).executions;
    case TaskNode(t) => assert b.id in WithObservations(db, h).observations;
    case ObservationNode(o) =>
      if b.SignalNode? {
        assert Source(b.id, o).signal in FromObservations(db, h).signals;
      } else {
        assert b.id in FromObservations(db, h).executions;
      }
  }

  // ----- the loop stops -----

  function Seeded(seeds: set<Id>): Graph {
    Graph(seeds, {}, {}, {}, {}, {}, seeds)
  }

  /** Everything there is to reach. */
  function Everything(db: Links, seeds: set<Id>): Graph {
    var rows := set e | e in db.executions :: db.executions[e];
    Graph(seeds + (set e | e in db.executions)
            + (set o | o in db.observations && db.observations[o].execution.Some? :: db.observations[o].execution.value),
          (set r | r in rows && r.plan.Some? :: r.plan.value),
          (set r | r in rows && r.signal.Some? :: r.signal.value) + (set s | s in db.sources :: s.signal),
          (set o | o in db.observations) + (set s | s in db.sources :: s.observation),
          (set r | r in rows && r.schedule.Some? :: r.schedule.value) + (set s | s in db.schedulePlan),
          (set t | t in db.taskExecution),
          seeds)
  }

  lemma EverythingIsClosed(db: Links, seeds: set<Id>)
    ensures Closed(db, Everything(db, seeds)) && Within(Seeded(seeds), Everything(db, seeds))
  {
    var all := Everything(db, seeds);
    forall a, b | Has(all, a) && LeadsTo(db, a, b) ensures Has(all, b) {
      if a.ExecutionNode? && a.id in db.executions {
        var r := db.executions[a.id];
        assert r in set e | e in db.executions :: db.executions[e];
      } else if a.SignalNode? && b.ObservationNode? {
        assert Source(a.id, b.id).observation in all.observations;
      } else if a.ObservationNode? && b.SignalNode? {
        assert Source(b.id, a.id).signal in all.signals;
      }
    }
  }

  lemma WithinIsBelow(g: Graph, h: Graph)
    requires Within(g, h)
    ensures Below(g, h)
  {
    forall i | i in g.executions ensures i in h.executions { assert Has(g, ExecutionNode(i)); }
    forall i | i in g.plans ensures i in h.plans { assert Has(g, PlanNode(i)); }
    forall i | i in g.signals ensures i in h.signals { assert Has(g, SignalNode(i)); }
    forall i | i in g.observations ensures i in h.observations { assert Has(g, ObservationNode(i)); }
    forall i | i in g.schedules ensures i in h.schedules { assert Has(g, ScheduleNode(i)); }
    forall i | i in g.tasks ensures i in h.tasks { assert Has(g, TaskNode(i)); }
    forall i | i in g.seeds ensures i in h.seeds { assert Has(g, SeedNode(i)); }
  }

  function Total(g: Graph): nat {
    |g.executions| + |g.plans| + |g.signals| + |g.observations| + |g.schedules|
  }

  lemma TotalGrows(g: Graph, h: Graph)
    requires Below(g, h)
    ensures Total(g) <= Total(h) && (Total(g) == Total(h) ==> Sizes(g) == Sizes(h))
  {
    SubsetIsSmaller(g.executions, h.executions);
    SubsetIsSmaller(g.plans, h.plans);
    SubsetIsSmaller(g.signals, h.signals);
    SubsetIsSmaller(g.observations, h.observations);
    SubsetIsSmaller(g.schedules, h.schedules);
  }

  lemma BoundedByEverything(db: Links, seeds: set<Id>, g: Graph)
    requires Forced(db, Seeded(seeds), g)
    ensures Total(g) <= Total(Everything(db, seeds))
  {
    EverythingIsClosed(db, seeds);
    WithinIsBelow(g, Everything(db, seeds));
    TotalGrows(g, Everything(db, seeds));
  }

  /** The least graph that is closed and holds the seeds. */
  ghost predicate LeastClosed(db: Links, seeds: set<Id>, g: Graph) {
    Closed(db, g) && Within(Seeded(seeds), g) && Forced(db, Seeded(seeds), g)
  }

  lemma LeastIsUnique(db: Links, seeds: set<Id>, g: Graph, h: Graph)
    requires LeastClosed(db, seeds, g) && LeastClosed(db, seeds, h)
    ensures g == h
  {
    assert Within(g, h) && Within(h, g);
    WithinIsBelow(g, h);
    WithinIsBelow(h, g);
  }
}
