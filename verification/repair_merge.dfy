/** Merging graphs that share a row, and the mutable graph objects the repair works on. */
module RepairMerge {
  import opened Core
  import opened RepairGraphs

  // ----- merging, on values -----

  predicate Overlap(g: Graph, h: Graph) {
    || g.executions * h.executions != {} || g.plans * h.plans != {} || g.signals * h.signals != {}
    || g.observations * h.observations != {} || g.schedules * h.schedules != {}
  }

  function Union(g: Graph, h: Graph): Graph {
    Graph(g.executions + h.executions, g.plans + h.plans, g.signals + h.signals, g.observations + h.observations,
          g.schedules + h.schedules, g.tasks + h.tasks, g.seeds + h.seeds)
  }

  function FirstOverlap(list: seq<Graph>, g: Graph): (j: nat)
    ensures j <= |list|
    ensures forall k :: 0 <= k < j ==> !Overlap(list[k], g)
    ensures j < |list| ==> Overlap(list[j], g)
  {
    if list == [] then 0 else if Overlap(list[0], g) then 0 else 1 + FirstOverlap(list[1..], g)
  }

  function Attach(list: seq<Graph>, g: Graph): seq<Graph> {
    var j := FirstOverlap(list, g);
    if j == |list| then list + [g] else list[j := Union(list[j], g)]
  }

  function AttachAll(graphs: seq<Graph>): (list: seq<Graph>)
    ensures |list| <= |graphs|
  {
    if graphs == [] then [] else Attach(AttachAll(graphs[..|graphs| - 1]), graphs[|graphs| - 1])
  }

  /** Attaching is repeated until nothing attaches. */
  function Settled(list: seq<Graph>): seq<Graph>
    decreases |list|
  {
    var next := AttachAll(list);
    if |next| < |list| then Settled(next) else next
  }

  function Merged(graphs: seq<Graph>): seq<Graph> { Settled(AttachAll(graphs)) }

  // ----- what merging does -----

  ghost predicate Shares(g: Graph, h: Graph, n: Node) {
    !n.TaskNode? && !n.SeedNode? && Has(g, n) && Has(h, n)
  }

  lemma OverlapShares(g: Graph, h: Graph)
    ensures Overlap(g, h) <==> exists n :: Shares(g, h, n)
  {
    if i :| i in g.executions * h.executions {
      assert Shares(g, h, ExecutionNode(i));
    } else if i :| i in g.plans * h.plans {
      assert Shares(g, h, PlanNode(i));
    } else if i :| i in g.signals * h.signals {
      assert Shares(g, h, SignalNode(i));
    } else if i :| i in g.observations * h.observations {
      assert Shares(g, h, ObservationNode(i));
    } else if i :| i in g.schedules * h.schedules {
      assert Shares(g, h, ScheduleNode(i));
    }
    if n :| Shares(g, h, n) {
      match n
      case ExecutionNode(i) => assert i in g.executions * h.executions;
      case PlanNode(i) => assert i in g.plans * h.plans;
      case SignalNode(i) => assert i in g.signals * h.signals;
      case ObservationNode(i) => assert i in g.observations * h.observations;
      case ScheduleNode(i) => assert i in g.schedules * h.schedules;
    }
  }

  /** A row of a union of inputs. */
  ghost predicate InSome(graphs: seq<Graph>, group: set<nat>, n: Node) {
    exists i :: i in group && i < |graphs| && Has(graphs[i], n)
  }

  ghost predicate IsUnion(graphs: seq<Graph>, group: set<nat>, g: Graph) {
    forall n :: Has(g, n) <==> InSome(graphs, group, n)
  }

  /** Consecutive inputs of a chain share a row. */
  ghost predicate Chain(graphs: seq<Graph>, path: seq<nat>) {
    && path != []
    && (forall k :: 0 <= k < |path| ==> path[k] < |graphs|)
    && (forall k, l :: 0 <= k < l < |path| && l == k + 1 ==> Overlap(graphs[path[k]], graphs[path[l]]))
  }

  ghost predicate Connected(graphs: seq<Graph>, i: nat, j: nat) {
    exists path :: Chain(graphs, path) && path[0] == i && path[|path| - 1] == j
  }

  ghost predicate ConnectedGroup(graphs: seq<Graph>, group: set<nat>) {
    forall i, j :: i in group && j in group ==> Connected(graphs, i, j)
  }

  ghost predicate InGroups(groups: seq<set<nat>>, i: nat) {
    exists t :: 0 <= t < |groups| && i in groups[t]
  }

  ghost predicate Together(groups: seq<set<nat>>, i: nat, j: nat) {
    exists t :: 0 <= t < |groups| && i in groups[t] && j in groups[t]
  }

  /** Each graph of the list is the union of a group of inputs that chains connect; groups share no input. */
  ghost predicate Explained(graphs: seq<Graph>, list: seq<Graph>, groups: seq<set<nat>>) {
    && |list| == |groups|
    && (forall t :: 0 <= t < |groups| ==> IsUnion(graphs, groups[t], list[t]) && ConnectedGroup(graphs, groups[t]))
    && (forall t, i :: 0 <= t < |groups| && i in groups[t] ==> i < |graphs|)
    && (forall s, t :: 0 <= s < t < |groups| ==> groups[s] !! groups[t])
  }

  lemma Joined(graphs: seq<Graph>, i: nat, a: nat, b: nat, j: nat)
    requires Connected(graphs, i, a) && Connected(graphs, b, j)
    requires a < |graphs| && b < |graphs| && Overlap(graphs[a], graphs[b])
    ensures Connected(graphs, i, j)
  {
    var p :| Chain(graphs, p) && p[0] == i && p[|p| - 1] == a;
    var q :| Chain(graphs, q) && q[0] == b && q[|q| - 1] == j;
    var path := p + q;
    forall k, l | 0 <= k < l < |path| && l == k + 1 ensures Overlap(graphs[path[k]], graphs[path[l]]) {
      if k == |p| - 1 {
        assert path[k] == a && path[l] == b;
      } else if k >= |p| {
        assert path[k] == q[k - |p|] && path[l] == q[l - |p|];
      }
    }
    assert Chain(graphs, path);
  }

  lemma JoinedGroups(graphs: seq<Graph>, s: set<nat>, t: set<nat>, g: Graph, h: Graph)
    requires IsUnion(graphs, s, g) && IsUnion(graphs, t, h) && Overlap(g, h)
    requires ConnectedGroup(graphs, s) && ConnectedGroup(graphs, t)
    ensures ConnectedGroup(graphs, s + t)
  {
    OverlapShares(g, h);
    var n :| Shares(g, h, n);
    assert InSome(graphs, s, n) && InSome(graphs, t, n);
    var a :| a in s && a < |graphs| && Has(graphs[a], n);
    var b :| b in t && b < |graphs| && Has(graphs[b], n);
    assert Shares(graphs[a], graphs[b], n) && Shares(graphs[b], graphs[a], n);
    OverlapShares(graphs[a], graphs[b]);
    OverlapShares(graphs[b], graphs[a]);
    forall i, j | i in s + t && j in s + t ensures Connected(graphs, i, j) {
      if i in s && j in t {
        Joined(graphs, i, a, b, j);
      } else if i in t && j in s {
        Joined(graphs, i, b, a, j);
      }
    }
  }

  lemma UnionOfUnions(graphs: seq<Graph>, s: set<nat>, t: set<nat>, g: Graph, h: Graph)
    requires IsUnion(graphs, s, g) && IsUnion(graphs, t, h)
    ensures IsUnion(graphs, s + t, Union(g, h))
  {
    forall n ensures Has(Union(g, h), n) <==> InSome(graphs, s + t, n) {
      assert Has(Union(g, h), n) <==> Has(g, n) || Has(h, n);
      if InSome(graphs, s, n) {
        var i :| i in s && i < |graphs| && Has(graphs[i], n);
        assert i in s + t;
      }
      if InSome(graphs, t, n) {
        var i :| i in t && i < |graphs| && Has(graphs[i], n);
        assert i in s + t;
      }
    }
  }

  /** Attaching one more graph, which is the union of a new group. */
  lemma AttachExplained(graphs: seq<Graph>, list: seq<Graph>, groups: seq<set<nat>>, g: Graph, group: set<nat>)
    returns (after: seq<set<nat>>)
    requires Explained(graphs, list, groups) && Explained(graphs, [g], [group])
    requires forall i :: i in group ==> !InGroups(groups, i)
    ensures Explained(graphs, Attach(list, g), after)
    ensures forall i :: InGroups(after, i) <==> InGroups(groups, i) || i in group
  {
    assert [g][0] == g && [group][0] == group;
    assert IsUnion(graphs, [group][0], [g][0]) && ConnectedGroup(graphs, [group][0]);
    forall t | 0 <= t < |groups| ensures groups[t] !! group {
      forall i | i in groups[t] ensures i !in group {
        assert InGroups(groups, i);
      }
    }
    var j := FirstOverlap(list, g);
    if j == |list| {
      after := groups + [group];
      forall i ensures InGroups(after, i) <==> InGroups(groups, i) || i in group {
        if InGroups(groups, i) {
          var t :| 0 <= t < |groups| && i in groups[t];
          assert i in after[t];
        }
        assert after[|groups|] == group;
      }
    } else {
      after := groups[j := groups[j] + group];
      JoinedGroups(graphs, groups[j], group, list[j], g);
      UnionOfUnions(graphs, groups[j], group, list[j], g);
      forall i ensures InGroups(after, i) <==> InGroups(groups, i) || i in group {
        if InGroups(groups, i) {
          var t :| 0 <= t < |groups| && i in groups[t];
          assert i in after[t];
        }
        if i in group {
          assert i in after[j];
        }
        if InGroups(after, i) {
          var t :| 0 <= t < |after| && i in after[t];
          assert t != j ==> i in groups[t];
        }
      }
    }
  }

  lemma {:induction false} AttachAllExplained(graphs: seq<Graph>, list: seq<Graph>, groups: seq<set<nat>>)
    returns (after: seq<set<nat>>)
    requires Explained(graphs, list, groups)
    ensures Explained(graphs, AttachAll(list), after)
    ensures forall i :: InGroups(after, i) <==> InGroups(groups, i)
  {
    if list == [] {
      after := [];
    } else {
      var n := |list| - 1;
      var early := AttachAllExplained(graphs, list[..n], groups[..n]);
      forall i | i in groups[n] ensures !InGroups(early, i) {
        forall t | 0 <= t < n ensures i !in groups[..n][t] {
          assert groups[t] !! groups[n];
        }
      }
      assert IsUnion(graphs, groups[n], list[n]) && ConnectedGroup(graphs, groups[n]);
      after := AttachExplained(graphs, AttachAll(list[..n]), early, list[n], groups[n]);
      forall i ensures InGroups(after, i) <==> InGroups(groups, i) {
        if InGroups(groups, i) {
          var t :| 0 <= t < |groups| && i in groups[t];
          if t < n {
            assert i in groups[..n][t];
          }
        }
        if InGroups(groups[..n], i) {
          var t :| 0 <= t < n && i in groups[..n][t];
          assert i in groups[t];
        }
      }
    }
  }

  lemma {:induction false} SettledExplained(graphs: seq<Graph>, list: seq<Graph>, groups: seq<set<nat>>)
    returns (after: seq<set<nat>>)
    requires Explained(graphs, list, groups)
    ensures Explained(graphs, Settled(list), after)
    ensures forall i :: InGroups(after, i) <==> InGroups(groups, i)
    decreases |list|
  {
    after := AttachAllExplained(graphs, list, groups);
    if |AttachAll(list)| < |list| {
      after := SettledExplained(graphs, AttachAll(list), after);
    }
  }

  ghost predicate Apart(list: seq<Graph>) {
    forall s, t :: 0 <= s < t < |list| ==> !Overlap(list[s], list[t])
  }

  lemma {:induction false} NothingAttached(list: seq<Graph>)
    requires |AttachAll(list)| == |list|
    ensures AttachAll(list) == list && Apart(list)
  {
    if list != [] {
      var n := |list| - 1;
      NothingAttached(list[..n]);
      assert FirstOverlap(list[..n], list[n]) == n;
      forall s, t | 0 <= s < t < |list| ensures !Overlap(list[s], list[t]) {
        if t < n {
          assert !Overlap(list[..n][s], list[..n][t]);
        } else {
          assert !Overlap(list[..n][s], list[n]);
        }
      }
    }
  }

  lemma {:induction false} SettledIsApart(list: seq<Graph>)
    ensures Apart(Settled(list))
    decreases |list|
  {
    if |AttachAll(list)| < |list| {
      SettledIsApart(AttachAll(list));
    } else {
      NothingAttached(list);
    }
  }

  /** In graphs that lie apart, overlapping inputs went into the same one. */
  lemma OverlapTogether(graphs: seq<Graph>, list: seq<Graph>, groups: seq<set<nat>>, i: nat, j: nat)
    requires Explained(graphs, list, groups) && Apart(list) && i < |graphs| && j < |graphs|
    requires InGroups(groups, i) && InGroups(groups, j) && Overlap(graphs[i], graphs[j])
    ensures Together(groups, i, j)
  {
    var s :| 0 <= s < |groups| && i in groups[s];
    var t :| 0 <= t < |groups| && j in groups[t];
    OverlapShares(graphs[i], graphs[j]);
    var n :| Shares(graphs[i], graphs[j], n);
    assert InSome(graphs, groups[s], n) && InSome(graphs, groups[t], n);
    assert Has(list[s], n) && Has(list[t], n);
    if s != t {
      assert Shares(list[s], list[t], n) && Shares(list[t], list[s], n);
      OverlapShares(list[s], list[t]);
      OverlapShares(list[t], list[s]);
    }
  }

  lemma TogetherTwice(graphs: seq<Graph>, list: seq<Graph>, groups: seq<set<nat>>, i: nat, j: nat, k: nat)
    requires Explained(graphs, list, groups) && Together(groups, i, j) && Together(groups, j, k)
    ensures Together(groups, i, k)
  {
    var s :| 0 <= s < |groups| && i in groups[s] && j in groups[s];
    var t :| 0 <= t < |groups| && j in groups[t] && k in groups[t];
    assert s == t;
  }

  lemma {:induction false} ChainTogether(graphs: seq<Graph>, list: seq<Graph>, groups: seq<set<nat>>, path: seq<nat>)
    requires Explained(graphs, list, groups) && Apart(list) && Chain(graphs, path)
    requires forall i: nat :: i < |graphs| ==> InGroups(groups, i)
    ensures Together(groups, path[0], path[|path| - 1])
  {
    var n := |path| - 1;
    assert InGroups(groups, path[0]);
    if n > 0 {
      assert Overlap(graphs[path[n - 1]], graphs[path[n]]);
      ChainTogether(graphs, list, groups, path[..n]);
      OverlapTogether(graphs, list, groups, path[n - 1], path[n]);
      TogetherTwice(graphs, list, groups, path[0], path[n - 1], path[n]);
    }
  }

  /**
   Merging yields graphs no two of which overlap, made of exactly the rows of the inputs; two inputs
   end in the same graph exactly when a chain of overlapping inputs links them.
   */
  lemma MergedIsComponents(graphs: seq<Graph>) returns (groups: seq<set<nat>>)
    ensures Apart(Merged(graphs)) && Explained(graphs, Merged(graphs), groups)
    ensures forall i: nat :: i < |graphs| <==> InGroups(groups, i)
    ensures forall i: nat, j: nat :: i < |graphs| && j < |graphs| ==>
              (Together(groups, i, j) <==> Connected(graphs, i, j))
  {
    var single := seq(|graphs|, i requires 0 <= i < |graphs| => {i as nat});
    SinglesExplained(graphs, single);
    var once := AttachAllExplained(graphs, graphs, single);
    groups := SettledExplained(graphs, AttachAll(graphs), once);
    SettledIsApart(AttachAll(graphs));
    forall i: nat ensures i < |graphs| <==> InGroups(groups, i) {
      if i < |graphs| {
        assert i in single[i];
      }
    }
    forall i: nat, j: nat | i < |graphs| && j < |graphs| ensures Together(groups, i, j) <==> Connected(graphs, i, j) {
      if Together(groups, i, j) {
        var t :| 0 <= t < |groups| && i in groups[t] && j in groups[t];
        assert ConnectedGroup(graphs, groups[t]);
      }
      if Connected(graphs, i, j) {
        var path :| Chain(graphs, path) && path[0] == i && path[|path| - 1] == j;
        ChainTogether(graphs, Merged(graphs), groups, path);
      }
    }
  }

  lemma SinglesExplained(graphs: seq<Graph>, single: seq<set<nat>>)
    requires |single| == |graphs| && forall i :: 0 <= i < |graphs| ==> single[i] == {i}
    ensures Explained(graphs, graphs, single)
  {
    forall t | 0 <= t < |single| ensures IsUnion(graphs, single[t], graphs[t]) && ConnectedGroup(graphs, single[t]) {
      forall n ensures Has(graphs[t], n) <==> InSome(graphs, single[t], n) {
        assert t in single[t];
      }
      assert Chain(graphs, [t]);
      assert Connected(graphs, t, t);
    }
  }

  ghost predicate InAny(list: seq<Graph>, n: Node) {
    exists t :: 0 <= t < |list| && Has(list[t], n)
  }

  /** No row is lost or added by merging. */
  lemma MergedKeepsRows(graphs: seq<Graph>, n: Node)
    ensures InAny(Merged(graphs), n) <==> InAny(graphs, n)
  {
    var groups := MergedIsComponents(graphs);
    var list := Merged(graphs);
    if InAny(list, n) {
      var t :| 0 <= t < |list| && Has(list[t], n);
      assert InSome(graphs, groups[t], n);
    }
    if i :| 0 <= i < |graphs| && Has(graphs[i], n) {
      assert InGroups(groups, i);
      var t :| 0 <= t < |groups| && i in groups[t];
      assert InSome(graphs, groups[t], n);
    }
  }

  // ----- the graph objects -----

  class GraphIds {
    var executionIds: set<Id>
    var planIds: set<Id>
    var signalIds: set<Id>
    var observationIds: set<Id>
    var scheduleIds: set<Id>
    var taskIds: set<Id>
    var seedExecutionIds: set<Id>

    function Value(): Graph
      reads this
    {
      Graph(executionIds, planIds, signalIds, observationIds, scheduleIds, taskIds, seedExecutionIds)
    }

    constructor (seeds: set<Id>)
      ensures Value() == Seeded(seeds)
    {
      executionIds, seedExecutionIds := seeds, seeds;
      planIds, signalIds, observationIds, scheduleIds, taskIds := {}, {}, {}, {}, {};
    }

    method Overlaps(other: GraphIds) returns (r: bool)
      ensures r == Overlap(Value(), other.Value())
    {
      return executionIds * other.executionIds != {} || planIds * other.planIds != {}
             || signalIds * other.signalIds != {} || observationIds * other.observationIds != {}
             || scheduleIds * other.scheduleIds != {};
    }

    method Merge(other: GraphIds)
      modifies this
      ensures Value() == Union(old(Value()), old(other.Value()))
    {
      executionIds := executionIds + other.executionIds;
      planIds := planIds + other.planIds;
      signalIds := signalIds + other.signalIds;
      observationIds := observationIds + other.observationIds;
      scheduleIds := scheduleIds + other.scheduleIds;
      taskIds := taskIds + other.taskIds;
      seedExecutionIds := seedExecutionIds + other.seedExecutionIds;
    }

    method FollowExecutions(db: Links)
      modifies this
      ensures Value() == FromExecutions(db, old(Value()))
    {
      var rows := set e | e in executionIds && e in db.executions :: db.executions[e];
      planIds := planIds + set r | r in rows && r.plan.Some? :: r.plan.value;
      signalIds := signalIds + set r | r in rows && r.signal.Some? :: r.signal.value;
      scheduleIds := scheduleIds + set r | r in rows && r.schedule.Some? :: r.schedule.value;
    }

    method FollowPlans(db: Links)
      modifies this
      ensures Value() == FromPlans(db, old(Value()))
    {
      if planIds != {} {
        executionIds := executionIds + set e | e in db.executions && InOpt(db.executions[e].plan, planIds);
        scheduleIds := scheduleIds + set s | s in db.schedulePlan && db.schedulePlan[s] in planIds;
      }
    }

    method FollowSignals(db: Links)
      modifies this
      ensures Value() == FromSignals(db, old(Value()))
    {
      if signalIds != {} {
        executionIds := executionIds + set e | e in db.executions && InOpt(db.executions[e].signal, signalIds);
      }
    }

    method FollowSchedules(db: Links)
      modifies this
      ensures Value() == FromSchedules(db, old(Value()))
    {
      if scheduleIds != {} {
        executionIds := executionIds + set e | e in db.executions && InOpt(db.executions[e].schedule, scheduleIds);
      }
    }

    method AddTasks(db: Links)
      modifies this
      ensures Value() == WithTasks(db, old(Value()))
    {
      taskIds := taskIds + set t | t in db.taskExecution && db.taskExecution[t] in executionIds;
    }

    method AddObservations(db: Links)
      modifies this
      ensures Value() == WithObservations(db, old(Value()))
    {
      var found := set o | o in db.observations && InOpt(db.observations[o].execution, executionIds);
      if taskIds != {} {
        found := found + set o | o in db.observations && InOpt(db.observations[o].task, taskIds);
      }
      if signalIds != {} {
        found := found + set s | s in db.sources && s.signal in signalIds :: s.observation;
      }
      observationIds := observationIds + found;
    }

    method FollowObservations(db: Links)
      modifies this
      ensures Value() == FromObservations(db, old(Value()))
    {
      if observationIds != {} {
        signalIds := signalIds + set s | s in db.sources && s.observation in observationIds :: s.signal;
        executionIds := executionIds
          + set o | o in db.observations && o in observationIds && db.observations[o].execution.Some?
            :: db.observations[o].execution.value;
      }
    }

    /** One round of queries, each seeing what the ones before it added. */
    method Grow(db: Links)
      modifies this
      ensures Value() == Round(db, old(Value()))
    {
      FollowExecutions(db);
      FollowPlans(db);
      FollowSignals(db);
      FollowSchedules(db);
      AddTasks(db);
      AddObservations(db);
      FollowObservations(db);
    }
  }

  /** Grows a graph from its seeds until a round changes no counted size: the least closed graph around them. */
  method ExpandFromExecutions(db: Links, seeds: set<Id>) returns (graph: GraphIds)
    ensures fresh(graph) && LeastClosed(db, seeds, graph.Value())
  {
    graph := new GraphIds(seeds);
    var start := graph.Value();
    if seeds == {} {
      NothingGrows(db, start);
      return;
    }
    while true
      invariant fresh(graph)
      invariant Within(Seeded(seeds), graph.Value()) && Forced(db, Seeded(seeds), graph.Value())
      decreases Total(Everything(db, seeds)) - Total(graph.Value())
    {
      ghost var g := graph.Value();
      var before := Sizes(graph.Value());
      graph.Grow(db);
      RoundIsForced(db, Seeded(seeds), g);
      if Sizes(graph.Value()) == before {
        QuietRoundIsClosed(db, g);
        return;
      }
      WithinIsBelow(g, graph.Value());
      TotalGrows(g, graph.Value());
      BoundedByEverything(db, seeds, graph.Value());
    }
  }

  lemma NothingGrows(db: Links, g: Graph)
    requires forall n :: !Has(g, n)
    ensures Closed(db, g)
  {
  }

  function Values(graphs: seq<GraphIds>): seq<Graph>
    reads graphs
  {
    seq(|graphs|, i reads graphs requires 0 <= i < |graphs| => graphs[i].Value())
  }

  ghost predicate Distinct(graphs: seq<GraphIds>) {
    forall i, j :: 0 <= i < j < |graphs| ==> graphs[i] != graphs[j]
  }

  /** Merges a graph into the first one it overlaps, in place, or else keeps it. */
  method AttachTo(kept: seq<GraphIds>, g: GraphIds) returns (next: seq<GraphIds>, attached: bool)
    requires Distinct(kept) && g !in kept
    modifies kept
    ensures Values(next) == Attach(old(Values(kept)), g.Value())
    ensures next == if attached then kept else kept + [g]
  {
    ghost var list := Values(kept);
    for j := 0 to |kept|
      invariant Values(kept) == list
      invariant forall k :: 0 <= k < j ==> !Overlap(list[k], g.Value())
    {
      var overlaps := kept[j].Overlaps(g);
      assert Values(kept)[j] == kept[j].Value();
      if overlaps {
        FirstIs(list, g.Value(), j);
        kept[j].Merge(g);
        forall k | 0 <= k < |kept| ensures Values(kept)[k] == list[j := Union(list[j], g.Value())][k] {
          assert k != j ==> kept[k] != kept[j];
        }
        return kept, true;
      }
    }
    FirstIs(list, g.Value(), |list|);
    next, attached := kept + [g], false;
    assert Values(next) == list + [g.Value()];
  }

  lemma AttachAllNext(graphs: seq<Graph>, i: nat, list: seq<Graph>)
    requires i < |graphs| && list == AttachAll(graphs[..i])
    ensures AttachAll(graphs[..i + 1]) == Attach(list, graphs[i])
  {
    assert graphs[..i + 1][..i] == graphs[..i];
  }

  ghost predicate From(graphs: seq<GraphIds>, pool: set<GraphIds>) {
    forall k :: 0 <= k < |graphs| ==> graphs[k] in pool
  }

  /** The first `i` graphs have been attached; the others are as they were. */
  ghost predicate Attaching(graphs: seq<GraphIds>, before: seq<Graph>, i: nat, kept: seq<GraphIds>, used: set<GraphIds>)
    reads graphs, kept
  {
    && i <= |graphs| == |before| && Distinct(kept) && From(kept, used)
    && (forall l :: i <= l < |graphs| ==> graphs[l] !in used && graphs[l].Value() == before[l])
    && Values(kept) == AttachAll(before[..i])
  }

  method AttachNext(graphs: seq<GraphIds>, ghost before: seq<Graph>, i: nat, kept: seq<GraphIds>, ghost used: set<GraphIds>)
    returns (next: seq<GraphIds>, attached: bool)
    requires i < |graphs| && Attaching(graphs, before, i, kept, used) && Distinct(graphs)
    modifies kept
    ensures Attaching(graphs, before, i + 1, next, used + {graphs[i]})
    ensures |next| == if attached then |kept| else |kept| + 1
  {
    ghost var list := Values(kept);
    next, attached := AttachTo(kept, graphs[i]);
    AttachAllNext(before, i, list);
  }

  method AttachEach(graphs: seq<GraphIds>, ghost pool: set<GraphIds>) returns (kept: seq<GraphIds>, changed: bool)
    requires Distinct(graphs) && From(graphs, pool)
    modifies pool
    ensures Values(kept) == AttachAll(old(Values(graphs)))
    ensures Distinct(kept) && From(kept, pool)
    ensures |kept| <= |graphs| && (changed <==> |kept| < |graphs|)
  {
    kept, changed := [], false;
    ghost var before := Values(graphs);
    ghost var used: set<GraphIds> := {};
    for i := 0 to |graphs|
      invariant Attaching(graphs, before, i, kept, used) && used <= pool
      invariant |kept| <= i && (changed <==> |kept| < i)
    {
      var attached;
      kept, attached := AttachNext(graphs, before, i, kept, used);
      changed, used := changed || attached, used + {graphs[i]};
    }
    assert before[..|graphs|] == before;
  }

  lemma {:induction false} FirstIs(list: seq<Graph>, g: Graph, j: nat)
    requires j <= |list| && forall k :: 0 <= k < j ==> !Overlap(list[k], g)
    requires j < |list| ==> Overlap(list[j], g)
    ensures FirstOverlap(list, g) == j
  {
  }

  /** The list of graphs is rewritten in place until a pass attaches nothing. */
  method MergeGraphs(graphs: seq<GraphIds>, ghost pool: set<GraphIds>) returns (merged: seq<GraphIds>)
    requires Distinct(graphs) && From(graphs, pool)
    modifies pool
    ensures Values(merged) == Merged(old(Values(graphs))) && From(merged, pool)
  {
    ghost var before := Values(graphs);
    var changed;
    merged, changed := AttachEach(graphs, pool);
    changed := true;
    ghost var list := Values(merged);
    while changed
      invariant Distinct(merged) && From(merged, pool)
      invariant list == Values(merged)
      invariant Merged(before) == if changed then Settled(list) else list
      decreases |merged|, changed
    {
      merged, changed := AttachEach(merged, pool);
      list := AttachAll(list);
    }
  }
}
