/**
 Runs of services on the whole execution table.  Each service leaves every row as a run of
 lifecycle transactions would, so all that is proved of one execution's runs holds of every
 row of every table that is ever reached.
 */
module ExecutionRuns {
  import opened Core
  import opened Journal
  import opened Lifecycle
  import opened LifecycleTheorems
  import opened Schedules
  import opened ExecutionStore

  /** `Act` is a transition on one row: a person's, the clock's, an edit, or a reactivation by materialization. */
  datatype Service =
    | Creation(id: Id, draft: Draft, now: Time, createdAt: Time)
    | Act(id: Id, action: Action, now: Time)
    | ResolveSignal(linked: set<Id>, now: Time)
    | PromoteDue(s: Schedule, listedAt: Time, clock: Id -> Time)
    | Synchronise(z: Zone, s: Schedule, readings: SyncReadings)
    | Deactivation(s: Schedule, asOf: Time, listedAt: Time, promotedAt: Id -> Time, writtenAt: Id -> Time)

  /** The transactions a service makes on one row. */
  ghost function RowSteps(svc: Service, id: Id, e: Execution): seq<Step> {
    match svc
    case Creation(_, _, _, _) => []
    case Act(i, a, now) => if i == id then [Step(a, now)] else []
    case ResolveSignal(linked, now) => if id in linked then [Step(DoCancel(None), now)] else []
    case PromoteDue(s, listedAt, clock) => if LinkedTo(e, s) then PromoteSteps(e, listedAt, clock(id)) else []
    case Synchronise(z, s, readings) => if LinkedTo(e, s) then SyncSteps(z, s, e, readings.For(id)) else []
    case Deactivation(s, asOf, listedAt, promotedAt, writtenAt) =>
      if LinkedTo(e, s) then PromoteSteps(e, listedAt, promotedAt(id)) + [Step(DoSyncCancel(asOf), writtenAt(id))] else []
  }

  /** The instants the service reads, whatever row it is about, lie between two readings of the clock. */
  ghost predicate AllBetween(svc: Service, from: Time, until: Time) {
    forall id :: Between(svc, from, until, id)
  }

  /** The same for one row. */
  ghost predicate Between(svc: Service, from: Time, until: Time, id: Id) {
    match svc
    case Creation(_, _, _, createdAt) => from <= createdAt <= until
    case Act(_, a, now) => Sensible(a) && from <= now <= until
    case ResolveSignal(_, now) => from <= now <= until
    case PromoteDue(_, _, clock) => from <= clock(id) <= until
    case Synchronise(z, s, readings) =>
      Opens(z, s) && Ticking(readings.For(id)) && from <= readings.asOf && readings.promotedLast(id) <= until
    case Deactivation(_, _, _, promotedAt, writtenAt) => from <= promotedAt(id) <= writtenAt(id) <= until
  }

  /** What a service that is not refused makes of the table. */
  ghost predicate Outcome(svc: Service, before: Table, after: Table) {
    if svc.Creation? then
      svc.id !in before && Creatable(svc.draft) && after == before[svc.id := NewExecution(svc.draft, svc.now, svc.createdAt)]
    else
      && (forall id :: id in after <==> id in before)
      && (forall id :: id in before ==> after[id] == Run(before[id], RowSteps(svc, id, before[id])))
  }

  // ----- the store's services are these -----

  /** What the store's methods are asked besides: a permission, and the parts of a review. */
  datatype Answers = Answers(allowed: bool, stars: int, commentFits: bool, reviewed: bool, actor: Id)

  lemma ActOutcome(id: Id, a: Action, now: Time, before: Table, after: Table)
    requires id in before && after == before[id := Apply(before[id], a, now)]
    ensures Outcome(Act(id, a, now), before, after)
  {
    RunOfOne(before[id], Step(a, now));
  }

  lemma RowStepsOfSync(z: Zone, s: Schedule, readings: SyncReadings, id: Id, e: Execution)
    requires Ticking(readings.For(id)) && Opens(z, s)
    ensures Run(e, RowSteps(Synchronise(z, s, readings), id, e)) == if LinkedTo(e, s) then Synced(z, s, e, readings.For(id)) else e
  {
    SyncIsRun(z, s, e, readings.For(id));
  }

  lemma RowStepsOfDeactivation(s: Schedule, asOf: Time, listedAt: Time, promotedAt: Id -> Time, writtenAt: Id -> Time, id: Id, e: Execution)
    ensures Run(e, RowSteps(Deactivation(s, asOf, listedAt, promotedAt, writtenAt), id, e))
            == if LinkedTo(e, s) then Deactivated(e, asOf, listedAt, promotedAt(id), writtenAt(id)) else e
  {
    var cancel := Step(DoSyncCancel(asOf), writtenAt(id));
    PromoteStepsRun(e, listedAt, promotedAt(id));
    RunAppend(e, PromoteSteps(e, listedAt, promotedAt(id)), [cancel]);
    RunOfOne(PromoteListed(e, listedAt, promotedAt(id)), cancel);
  }

  method Perform(store: Store, svc: Service, answers: Answers)
    requires svc.Creation? ==> svc.id !in store.executions
    requires svc.PromoteDue? ==> forall id :: svc.listedAt <= svc.clock(id)
    requires svc.Synchronise? ==> Opens(svc.z, svc.s) && forall id :: Ticking(svc.readings.For(id))
    requires svc.Deactivation? ==> svc.asOf <= svc.listedAt && forall id :: svc.listedAt <= svc.promotedAt(id)
    modifies store
    ensures store.executions == old(store.executions) || Outcome(svc, old(store.executions), store.executions)
  {
    ghost var before := store.executions;
    match svc {
      case Creation(id, draft, now, createdAt) =>
        var _ := store.Create(id, draft, now, createdAt);
      case Act(id, a, now) =>
        PerformAct(store, id, a, now, answers);
      case ResolveSignal(linked, now) =>
        store.CancelForResolvedSignal(linked, now);
        forall id | id in before ensures store.executions[id] == Run(before[id], RowSteps(svc, id, before[id])) {
          RunOfOne(before[id], Step(DoCancel(None), now));
        }
      case PromoteDue(s, listedAt, clock) =>
        var _ := store.PromoteDueForSchedule(s, listedAt, clock);
        forall id | id in before ensures store.executions[id] == Run(before[id], RowSteps(svc, id, before[id])) {
          PromoteStepsRun(before[id], listedAt, clock(id));
        }
      case Synchronise(z, s, readings) =>
        store.SyncAfterUpdate(z, s, readings);
        forall id | id in before ensures store.executions[id] == Run(before[id], RowSteps(svc, id, before[id])) {
          RowStepsOfSync(z, s, readings, id, before[id]);
        }
      case Deactivation(s, asOf, listedAt, promotedAt, writtenAt) =>
        var _ := store.Deactivate(s, answers.allowed, asOf, listedAt, promotedAt, writtenAt);
        forall id | id in before && store.executions != before
          ensures store.executions[id] == Run(before[id], RowSteps(svc, id, before[id])) {
          RowStepsOfDeactivation(s, asOf, listedAt, promotedAt, writtenAt, id, before[id]);
        }
    }
  }

  method PerformAct(store: Store, id: Id, a: Action, now: Time, answers: Answers)
    modifies store
    ensures store.executions == old(store.executions) || Outcome(Act(id, a, now), old(store.executions), store.executions)
  {
    ghost var before := store.executions;
    match a {
      case DoPromote =>
        var _ := store.PromoteOne(id, now);
      case DoMarkDone =>
        var _ := store.MarkDone(id, answers.allowed, now);
      case DoValidate =>
        var _ := store.Validate(id, answers.allowed, answers.stars, answers.commentFits, answers.reviewed, now);
      case DoReopen =>
        var _ := store.Reopen(id, answers.allowed, now);
      case DoCancel(actor) =>
        if actor.Some? {
          var _ := store.Cancel(id, actor.value, answers.allowed, now);
        }
      case _ =>
    }
    if store.executions != before {
      ActOutcome(id, a, now, before, store.executions);
    }
  }

  // ----- every row is the row of a run -----

  ghost predicate TracedBy(e: Execution, until: Time, first: Execution, createdAt: Time, steps: seq<Step>) {
    Began(first, createdAt) && Clocked(createdAt, steps) && LastInstant(createdAt, steps) <= until && Run(first, steps) == e
  }

  ghost predicate Traced(e: Execution, until: Time) {
    exists first, createdAt, steps :: TracedBy(e, until, first, createdAt, steps)
  }

  ghost predicate AllTraced(t: Table, until: Time) {
    forall id :: id in t ==> Traced(t[id], until)
  }

  lemma RowStepsClocked(svc: Service, from: Time, until: Time, id: Id, e: Execution)
    requires Between(svc, from, until, id) && from <= until
    ensures Clocked(from, RowSteps(svc, id, e)) && LastInstant(from, RowSteps(svc, id, e)) <= until
  {
    if svc.Synchronise? {
      SyncIsRun(svc.z, svc.s, e, svc.readings.For(id));
    }
  }

  lemma ClockedLater(from: Time, later: Time, steps: seq<Step>)
    requires Clocked(later, steps) && from <= later
    ensures Clocked(from, steps) && LastInstant(from, steps) <= LastInstant(later, steps)
  {
  }

  lemma TraceGrows(e: Execution, from: Time, until: Time, more: seq<Step>)
    requires Traced(e, from) && Clocked(from, more) && LastInstant(from, more) <= until && from <= until
    ensures Traced(Run(e, more), until)
  {
    var first, createdAt, steps :| TracedBy(e, from, first, createdAt, steps);
    TraceGoesOn(e, from, until, first, createdAt, steps, more);
  }

  lemma TraceGoesOn(e: Execution, from: Time, until: Time, first: Execution, createdAt: Time, steps: seq<Step>, more: seq<Step>)
    requires TracedBy(e, from, first, createdAt, steps)
    requires Clocked(from, more) && LastInstant(from, more) <= until && from <= until
    ensures TracedBy(Run(e, more), until, first, createdAt, steps + more)
  {
    ClockedLater(LastInstant(createdAt, steps), from, more);
    ClockedAppend(createdAt, steps, more);
    RunAppend(first, steps, more);
    assert more == [] ==> steps + more == steps;
  }

  lemma NewIsTraced(svc: Service, until: Time)
    requires svc.Creation? && Creatable(svc.draft) && svc.createdAt <= until
    ensures Traced(NewExecution(svc.draft, svc.now, svc.createdAt), until)
  {
    var e := NewExecution(svc.draft, svc.now, svc.createdAt);
    NewExecutionInv(svc.draft, svc.now, svc.createdAt);
    assert TracedBy(e, until, e, svc.createdAt, []);
  }

  /** A service keeps every row of the table on a run. */
  lemma ServiceKeepsTraces(svc: Service, before: Table, after: Table, from: Time, until: Time)
    requires AllTraced(before, from) && from <= until && AllBetween(svc, from, until)
    requires after == before || Outcome(svc, before, after)
    ensures AllTraced(after, until)
  {
    forall id | id in after ensures Traced(after[id], until) {
      if svc.Creation? && id == svc.id && after != before {
        assert Between(svc, from, until, id);
        NewIsTraced(svc, until);
      } else if after == before || svc.Creation? {
        TraceGrows(before[id], from, until, []);
      } else {
        assert Between(svc, from, until, id);
        RowStepsClocked(svc, from, until, id, before[id]);
        TraceGrows(before[id], from, until, RowSteps(svc, id, before[id]));
      }
    }
  }

  /** Tables left one after the other by services, with the clock before and after each. */
  ghost predicate History(tables: seq<Table>, services: seq<Service>, clocks: seq<Time>) {
    && |tables| == |clocks| == |services| + 1 && tables[0] == map[]
    && forall k :: 0 <= k < |services| ==> Moved(tables, services, clocks, k)
  }

  ghost predicate Moved(tables: seq<Table>, services: seq<Service>, clocks: seq<Time>, k: nat)
    requires k < |services| && |tables| == |clocks| == |services| + 1
  {
    && clocks[k] <= clocks[k + 1] && AllBetween(services[k], clocks[k], clocks[k + 1])
    && (tables[k + 1] == tables[k] || Outcome(services[k], tables[k], tables[k + 1]))
  }

  lemma {:induction false} TablesTraced(tables: seq<Table>, services: seq<Service>, clocks: seq<Time>, k: nat)
    requires History(tables, services, clocks) && k < |tables|
    ensures AllTraced(tables[k], clocks[k])
  {
    if k > 0 {
      TablesTraced(tables, services, clocks, k - 1);
      assert Moved(tables, services, clocks, k - 1);
      ServiceKeepsTraces(services[k - 1], tables[k - 1], tables[k], clocks[k - 1], clocks[k]);
    }
  }

  lemma TracesKeepInv(t: Table, until: Time)
    requires AllTraced(t, until)
    ensures forall id :: id in t ==> Inv(t[id]) && NotAfter(t[id].journal, until)
  {
    forall id | id in t ensures Inv(t[id]) && NotAfter(t[id].journal, until) {
      TracedKeepsInv(t[id], until);
    }
  }

  /** In every run of services, every row of every table is the row of a run of its own, and keeps the lifecycle's invariant. */
  lemma TablesKeepInv(tables: seq<Table>, services: seq<Service>, clocks: seq<Time>, k: nat)
    requires History(tables, services, clocks) && k < |tables|
    ensures AllTraced(tables[k], clocks[k])
    ensures forall id :: id in tables[k] ==> Inv(tables[k][id]) && NotAfter(tables[k][id].journal, clocks[k])
  {
    TablesTraced(tables, services, clocks, k);
    TracesKeepInv(tables[k], clocks[k]);
  }

  lemma TracedKeepsInv(e: Execution, until: Time)
    requires Traced(e, until)
    ensures Inv(e) && NotAfter(e.journal, until)
  {
    var first, createdAt, steps :| TracedBy(e, until, first, createdAt, steps);
    RunKeepsInv(first, createdAt, steps);
  }
}
