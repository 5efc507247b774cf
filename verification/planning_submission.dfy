/**
 A planning submission creates its resources once.  The stored snapshot answers every
 later submission under the same key, and races meet at the unique row of the key.
 */
module PlanningSubmission {
  import opened Core

  datatype Kind = ExecutionKind | ScheduleKind

  datatype Item = Item(id: Id, kind: Kind, primary: Option<Id>)

  datatype Resource = Resource(item: Id, kind: Kind, resource: Id, primary: Option<Id>, status: string)

  datatype Outcome = Outcome(replayed: bool, plan: Option<Id>, executions: seq<Resource>, schedules: seq<Resource>)

  // ----- the snapshot -----

  /** How identifiers are written and read as text. */
  datatype Codec = Codec(show: Id -> string, parse: string -> Id)

  ghost predicate Faithful(c: Codec) {
    forall id: Id :: c.parse(c.show(id)) == id && c.show(id) != ""
  }

  datatype SavedResource = SavedResource(item: string, resource: string, primary: Option<string>, status: string)

  datatype Snapshot = Snapshot(plan: Option<string>, executions: seq<SavedResource>, schedules: seq<SavedResource>)

  function Saved(c: Codec, r: Resource): SavedResource {
    SavedResource(c.show(r.item), c.show(r.resource), if r.primary.Some? then Some(c.show(r.primary.value)) else None, r.status)
  }

  function Restored(c: Codec, s: SavedResource, kind: Kind): Resource {
    Resource(c.parse(s.item), kind, c.parse(s.resource),
             if s.primary.Some? && s.primary.value != "" then Some(c.parse(s.primary.value)) else None, s.status)
  }

  function SavedAll(c: Codec, rs: seq<Resource>): seq<SavedResource> {
    seq(|rs|, i requires 0 <= i < |rs| => Saved(c, rs[i]))
  }

  function RestoredAll(c: Codec, ss: seq<SavedResource>, kind: Kind): seq<Resource> {
    seq(|ss|, i requires 0 <= i < |ss| => Restored(c, ss[i], kind))
  }

  function SnapshotOf(c: Codec, o: Outcome): Snapshot {
    Snapshot(if o.plan.Some? then Some(c.show(o.plan.value)) else None, SavedAll(c, o.executions), SavedAll(c, o.schedules))
  }

  function FromSnapshot(c: Codec, s: Snapshot, replayed: bool): Outcome {
    Outcome(replayed, if s.plan.Some? && s.plan.value != "" then Some(c.parse(s.plan.value)) else None,
            RestoredAll(c, s.executions, ExecutionKind), RestoredAll(c, s.schedules, ScheduleKind))
  }

  ghost predicate OfKind(rs: seq<Resource>, kind: Kind) {
    forall i :: 0 <= i < |rs| ==> rs[i].kind == kind
  }

  /** Reading the snapshot back gives the outcome that was stored, marked as replayed. */
  lemma SnapshotRoundTrip(c: Codec, o: Outcome, replayed: bool)
    requires Faithful(c) && OfKind(o.executions, ExecutionKind) && OfKind(o.schedules, ScheduleKind)
    ensures FromSnapshot(c, SnapshotOf(c, o), replayed) == o.(replayed := replayed)
  {
    forall i | 0 <= i < |o.executions|
      ensures Restored(c, Saved(c, o.executions[i]), ExecutionKind) == o.executions[i]
    {
    }
    forall i | 0 <= i < |o.schedules|
      ensures Restored(c, Saved(c, o.schedules[i]), ScheduleKind) == o.schedules[i]
    {
    }
    assert RestoredAll(c, SavedAll(c, o.executions), ExecutionKind) == o.executions;
    assert RestoredAll(c, SavedAll(c, o.schedules), ScheduleKind) == o.schedules;
  }

  // ----- creating the resources -----

  /** What creating one item's resource gives, with the executions that come with it. */
  datatype Made = Made(resource: Id, status: string, executions: seq<Id>)

  datatype ItemError = ItemError(item: Id, index: nat)

  function ResultsOf(items: seq<Item>, made: seq<Option<Made>>, shared: bool, kind: Kind): seq<Resource>
    requires |items| == |made|
  {
    if items == [] then []
    else
      var n := |items| - 1;
      var prior := ResultsOf(items[..n], made[..n], shared, kind);
      if items[n].kind != kind || made[n].None? then prior
      else prior + [Resource(items[n].id, kind, made[n].value.resource, if shared then None else items[n].primary, made[n].value.status)]
  }

  function ExecutionsOf(made: seq<Option<Made>>): seq<Id> {
    if made == [] then []
    else
      var n := |made| - 1;
      ExecutionsOf(made[..n]) + if made[n].Some? then made[n].value.executions else []
  }

  /** Each execution once, where it first appeared. */
  function Once(ids: seq<Id>): seq<Id> {
    if ids == [] then []
    else
      var n := |ids| - 1;
      var prior := Once(ids[..n]);
      if ids[n] in prior then prior else prior + [ids[n]]
  }

  lemma {:induction false} OnceKeepsEach(ids: seq<Id>)
    ensures forall i, j :: 0 <= i < j < |Once(ids)| ==> Once(ids)[i] != Once(ids)[j]
    ensures forall x :: x in Once(ids) <==> x in ids
  {
    if ids != [] {
      var n := |ids| - 1;
      OnceKeepsEach(ids[..n]);
      assert ids == ids[..n] + [ids[n]];
    }
  }

  datatype Effect = RealtimeBatch(anchor: Id) | Notify(execution: Id, recipient: Id)

  function NotifyAll(execution: Id, recipients: seq<Id>): seq<Effect> {
    seq(|recipients|, i requires 0 <= i < |recipients| => Notify(execution, recipients[i]))
  }

  function Notifications(executions: seq<Id>, recipients: Id -> seq<Id>): seq<Effect> {
    if executions == [] then []
    else
      var n := |executions| - 1;
      Notifications(executions[..n], recipients) + NotifyAll(executions[n], recipients(executions[n]))
  }

  function Effects(executions: seq<Id>, recipients: Id -> seq<Id>): seq<Effect> {
    (if executions == [] then [] else [RealtimeBatch(executions[0])]) + Notifications(executions, recipients)
  }

  ghost predicate Distinct<T>(list: seq<T>) {
    forall i, j :: 0 <= i < j < |list| ==> list[i] != list[j]
  }

  lemma {:induction false} NotificationsDistinct(executions: seq<Id>, recipients: Id -> seq<Id>)
    requires Distinct(executions) && forall e :: e in executions ==> Distinct(recipients(e))
    ensures Distinct(Notifications(executions, recipients))
    ensures forall x :: x in Notifications(executions, recipients) <==>
              x.Notify? && x.execution in executions && x.recipient in recipients(x.execution)
  {
    if executions != [] {
      var n := |executions| - 1;
      var early, last := executions[..n], executions[n];
      assert executions == early + [last];
      NotificationsDistinct(early, recipients);
      var prior, more := Notifications(early, recipients), NotifyAll(last, recipients(last));
      forall i, j | 0 <= i < |prior| && 0 <= j < |more| ensures prior[i] != more[j] {
        assert prior[i] in prior;
      }
      forall x ensures x in more <==> x.Notify? && x.execution == last && x.recipient in recipients(last) {
        if x.Notify? && x.execution == last && x.recipient in recipients(last) {
          var i :| 0 <= i < |recipients(last)| && recipients(last)[i] == x.recipient;
          assert more[i] == x;
        }
      }
    }
  }

  /** Effect keys never collide: one batch entry, and one entry per execution and recipient. */
  lemma EffectsDistinct(made: seq<Option<Made>>, recipients: Id -> seq<Id>)
    requires forall e :: Distinct(recipients(e))
    ensures Distinct(Effects(Once(ExecutionsOf(made)), recipients))
    ensures forall e, p :: Notify(e, p) in Effects(Once(ExecutionsOf(made)), recipients)
                           <==> e in ExecutionsOf(made) && p in recipients(e)
  {
    var executions := Once(ExecutionsOf(made));
    OnceKeepsEach(ExecutionsOf(made));
    NotificationsDistinct(executions, recipients);
    var rest := Notifications(executions, recipients);
    forall i | 0 <= i < |rest| ensures rest[i].Notify? {
      assert rest[i] in rest;
    }
  }

  lemma OnceNext(ids: seq<Id>, i: nat)
    requires i < |ids|
    ensures Once(ids[..i + 1]) == Once(ids[..i]) + if ids[i] in Once(ids[..i]) then [] else [ids[i]]
  {
    assert ids[..i + 1][..i] == ids[..i];
  }

  lemma NotificationsNext(executions: seq<Id>, recipients: Id -> seq<Id>, i: nat)
    requires i < |executions|
    ensures Notifications(executions[..i + 1], recipients)
            == Notifications(executions[..i], recipients) + NotifyAll(executions[i], recipients(executions[i]))
  {
    assert executions[..i + 1][..i] == executions[..i];
  }

  /** What one more item adds to the results. */
  function ResultOf(item: Item, made: Option<Made>, shared: bool, kind: Kind): seq<Resource> {
    if item.kind != kind || made.None? then []
    else [Resource(item.id, kind, made.value.resource, if shared then None else item.primary, made.value.status)]
  }

  lemma ResultsNext(items: seq<Item>, made: seq<Option<Made>>, shared: bool, i: nat)
    requires i < |items| == |made|
    ensures forall kind :: ResultsOf(items[..i + 1], made[..i + 1], shared, kind)
                           == ResultsOf(items[..i], made[..i], shared, kind) + ResultOf(items[i], made[i], shared, kind)
    ensures ExecutionsOf(made[..i + 1]) == ExecutionsOf(made[..i]) + if made[i].Some? then made[i].value.executions else []
  {
    assert items[..i + 1][..i] == items[..i] && made[..i + 1][..i] == made[..i];
  }

  method Deduplicate(created: seq<Id>) returns (unique: seq<Id>)
    ensures unique == Once(created)
  {
    unique := [];
    for i := 0 to |created|
      invariant unique == Once(created[..i])
    {
      OnceNext(created, i);
      if created[i] !in unique {
        unique := unique + [created[i]];
      }
    }
    assert created[..|created|] == created;
  }

  method NotifyEach(executions: seq<Id>, recipients: Id -> seq<Id>) returns (effects: seq<Effect>)
    ensures effects == Notifications(executions, recipients)
  {
    effects := [];
    for i := 0 to |executions|
      invariant effects == Notifications(executions[..i], recipients)
    {
      NotificationsNext(executions, recipients, i);
      effects := effects + NotifyAll(executions[i], recipients(executions[i]));
    }
    assert executions[..|executions|] == executions;
  }

  /** Executions made twice over are announced once. */
  method BuildOutbox(created: seq<Id>, recipients: Id -> seq<Id>) returns (effects: seq<Effect>)
    ensures effects == Effects(Once(created), recipients)
  {
    var unique := Deduplicate(created);
    effects := NotifyEach(unique, recipients);
    if unique != [] {
      effects := [RealtimeBatch(unique[0])] + effects;
    } else {
      assert [] + effects == effects;
    }
  }

  ghost predicate FailsFirstAt(made: seq<Option<Made>>, k: nat) {
    k < |made| && made[k].None? && forall i :: 0 <= i < k ==> made[i].Some?
  }

  /** Item by item; the first that cannot be created undoes the submission. */
  method CreateResources(plan: Id, shared: bool, items: seq<Item>, made: seq<Option<Made>>, recipients: Id -> seq<Id>)
    returns (r: Result<(Outcome, seq<Effect>), ItemError>)
    requires |made| == |items|
    ensures r.Ok? <==> forall i :: 0 <= i < |made| ==> made[i].Some?
    ensures r.Ok? ==>
              && r.value.0 == Outcome(false, Some(plan), ResultsOf(items, made, shared, ExecutionKind),
                                      ResultsOf(items, made, shared, ScheduleKind))
              && r.value.1 == Effects(Once(ExecutionsOf(made)), recipients)
              && Committable(r.value.0)
    ensures r.Err? ==> FailsFirstAt(made, r.error.index) && r.error.item == items[r.error.index].id
  {
    var executions: seq<Resource>, schedules: seq<Resource>, created: seq<Id> := [], [], [];
    for i := 0 to |items|
      invariant forall k :: 0 <= k < i ==> made[k].Some?
      invariant executions == ResultsOf(items[..i], made[..i], shared, ExecutionKind)
      invariant schedules == ResultsOf(items[..i], made[..i], shared, ScheduleKind)
      invariant created == ExecutionsOf(made[..i])
    {
      ResultsNext(items, made, shared, i);
      if made[i].None? {
        return Err(ItemError(items[i].id, i));
      }
      var one := made[i].value;
      var primary := if shared then None else items[i].primary;
      var result := Resource(items[i].id, items[i].kind, one.resource, primary, one.status);
      if items[i].kind == ExecutionKind {
        executions := executions + [result];
      } else {
        schedules := schedules + [result];
      }
      created := created + one.executions;
    }
    assert items[..|items|] == items && made[..|made|] == made;
    ResultsAreCommittable(plan, items, made, shared);
    var effects := BuildOutbox(created, recipients);
    return Ok((Outcome(false, Some(plan), executions, schedules), effects));
  }

  /** What a submission may commit: a first result, its executions and schedules each of their kind. */
  ghost predicate Committable(o: Outcome) {
    !o.replayed && OfKind(o.executions, ExecutionKind) && OfKind(o.schedules, ScheduleKind)
  }

  lemma ResultsAreCommittable(plan: Id, items: seq<Item>, made: seq<Option<Made>>, shared: bool)
    requires |items| == |made|
    ensures Committable(Outcome(false, Some(plan), ResultsOf(items, made, shared, ExecutionKind),
                                ResultsOf(items, made, shared, ScheduleKind)))
  {
    ResultsAreOfKind(items, made, shared, ExecutionKind);
    ResultsAreOfKind(items, made, shared, ScheduleKind);
  }

  lemma {:induction false} ResultsAreOfKind(items: seq<Item>, made: seq<Option<Made>>, shared: bool, kind: Kind)
    requires |items| == |made|
    ensures OfKind(ResultsOf(items, made, shared, kind), kind)
  {
    if items != [] {
      ResultsAreOfKind(items[..|items| - 1], made[..|made| - 1], shared, kind);
    }
  }

  // ----- racing submissions -----

  /** Unique: an establishment, an actor and the submission id the client chose. */
  datatype Key = Key(establishment: Id, actor: Id, submission: Id)

  /** What one submission created: under which key, for which canonical request, with which plan. */
  datatype ResourceSet = ResourceSet(key: Key, digest: Id, snapshot: Snapshot, plan: Option<Id>)

  /** A submission that has been answered knows the resource set it was answered from. */
  datatype Process =
    | Looking(key: Key, digest: Id)
    | Inserting(key: Key, digest: Id)
    | Holding(key: Key, digest: Id)
    | Collided(key: Key, digest: Id)
    | Returned(key: Key, digest: Id, outcome: Outcome, origin: nat)
    | Conflict(key: Key, digest: Id, origin: nat)
    | Failed(key: Key)

  /**
   `sets` lists the resource sets in the order they were committed, and `stored` the row of each key, by
   the set it belongs to; a row inserted by an open transaction is `held` and nobody else sees it.  For a
   set whose plan has been deleted, `dropped` tells how many sets there were by then.
   */
  datatype World = World(stored: map<Key, nat>, held: map<Key, Id>, processes: map<Id, Process>, sets: seq<ResourceSet>,
                         dropped: map<nat, nat>)

  datatype Action =
    | Submit(p: Id, key: Key, digest: Id)
    | Look(p: Id)
    | Insert(p: Id)
    | GiveUp(p: Id)
    | Commit(p: Id, outcome: Outcome)
    | Abort(p: Id)
    | DeletePlan(plan: Id)

  /** A row names a set that exists. */
  ghost predicate RowsExist(w: World) {
    forall k :: k in w.stored ==> w.stored[k] < |w.sets|
  }

  /** An insert waits for an open transaction that holds the key. */
  ghost predicate Enabled(w: World, a: Action) {
    RowsExist(w) &&
    match a
    case Submit(p, _, _) => p !in w.processes
    case Look(p) => p in w.processes && (w.processes[p].Looking? || w.processes[p].Collided?)
    case Insert(p) => p in w.processes && w.processes[p].Inserting? && w.processes[p].key !in w.held
    case GiveUp(p) => p in w.processes && w.processes[p].Collided?
    case Commit(p, outcome) =>
      p in w.processes && w.processes[p].Holding? && Committable(outcome)
    case Abort(p) => p in w.processes && w.processes[p].Holding?
    case DeletePlan(_) => true
  }

  function Answer(c: Codec, s: ResourceSet, i: nat, digest: Id): Process {
    if s.digest != digest then Conflict(s.key, digest, i) else Returned(s.key, digest, FromSnapshot(c, s.snapshot, true), i)
  }

  /** Deleting a plan takes the rows of its submissions with it. */
  function WithoutPlan(w: World, plan: Id): World
    requires RowsExist(w)
  {
    w.(stored := map k | k in w.stored && w.sets[w.stored[k]].plan != Some(plan) :: w.stored[k],
       dropped := map i | 0 <= i < |w.sets| && (i in w.dropped || w.sets[i].plan == Some(plan)) ::
                    if i in w.dropped then w.dropped[i] else |w.sets|)
  }

  function Step(c: Codec, w: World, a: Action): World
    requires Enabled(w, a)
  {
    match a
    case Submit(p, key, digest) => w.(processes := w.processes[p := Looking(key, digest)])
    case Look(p) =>
      var s := w.processes[p];
      if s.key in w.stored then w.(processes := w.processes[p := Answer(c, w.sets[w.stored[s.key]], w.stored[s.key], s.digest)])
      else if s.Looking? then w.(processes := w.processes[p := Inserting(s.key, s.digest)])
      else w
    case Insert(p) =>
      var s := w.processes[p];
      if s.key in w.stored then w.(processes := w.processes[p := Collided(s.key, s.digest)])
      else w.(held := w.held[s.key := p], processes := w.processes[p := Holding(s.key, s.digest)])
    case GiveUp(p) => w.(processes := w.processes[p := Failed(w.processes[p].key)])
    case Commit(p, outcome) =>
      var s, i := w.processes[p], |w.sets|;
      w.(stored := w.stored[s.key := i], held := w.held - {s.key},
         processes := w.processes[p := Returned(s.key, s.digest, outcome, i)],
         sets := w.sets + [ResourceSet(s.key, s.digest, SnapshotOf(c, outcome), outcome.plan)])
    case Abort(p) =>
      var s := w.processes[p];
      w.(held := w.held - {s.key}, processes := w.processes[p := Failed(s.key)])
    case DeletePlan(plan) => WithoutPlan(w, plan)
  }

  ghost predicate ProcessInv(c: Codec, w: World, p: Id) {
    p in w.processes ==>
      match w.processes[p]
      case Holding(key, _) => key in w.held && w.held[key] == p && key !in w.stored
      case Returned(key, digest, outcome, i) =>
        && i < |w.sets| && w.sets[i].key == key && w.sets[i].digest == digest
        && FromSnapshot(c, w.sets[i].snapshot, outcome.replayed) == outcome
      case Conflict(key, digest, i) => i < |w.sets| && w.sets[i].key == key && w.sets[i].digest != digest
      case _ => true
  }

  ghost predicate FirstInv(w: World, p: Id, q: Id) {
    p in w.processes && q in w.processes && w.processes[p].Returned? && w.processes[q].Returned?
    && w.processes[p].origin == w.processes[q].origin && !w.processes[p].outcome.replayed && !w.processes[q].outcome.replayed
    ==> p == q
  }

  /** The row of a key is that of its one set whose plan is still there. */
  ghost predicate RowInv(w: World, k: Key) {
    && (k in w.stored ==> w.stored[k] < |w.sets| && w.sets[w.stored[k]].key == k && w.stored[k] !in w.dropped)
    && (k in w.held ==> k !in w.stored)
  }

  ghost predicate SetInv(w: World, i: nat) {
    && (i < |w.sets| && i !in w.dropped ==> w.sets[i].key in w.stored && w.stored[w.sets[i].key] == i)
    && (i in w.dropped ==> i < w.dropped[i] <= |w.sets| && w.sets[i].plan.Some?)
  }

  ghost predicate ApartInv(w: World, i: nat, j: nat) {
    i < j < |w.sets| && w.sets[i].key == w.sets[j].key ==> i in w.dropped && w.dropped[i] <= j
  }

  ghost predicate TableInv(w: World) {
    (forall k :: RowInv(w, k)) && (forall i: nat :: SetInv(w, i)) && (forall i: nat, j: nat :: ApartInv(w, i, j))
  }

  ghost predicate Inv(c: Codec, w: World) {
    (forall p :: ProcessInv(c, w, p)) && (forall p, q :: FirstInv(w, p, q)) && TableInv(w)
  }

  lemma CommitKeepsTable(c: Codec, w: World, a: Action)
    requires Inv(c, w) && Enabled(w, a) && a.Commit?
    ensures TableInv(Step(c, w, a))
  {
    var v := Step(c, w, a);
    assert ProcessInv(c, w, a.p);
    forall k ensures RowInv(v, k) {
      assert RowInv(w, k);
      assert SetInv(w, |w.sets|);
    }
    forall i: nat ensures SetInv(v, i) {
      assert SetInv(w, i);
    }
    forall i: nat, j: nat ensures ApartInv(v, i, j) {
      assert ApartInv(w, i, j) && SetInv(w, i);
    }
  }

  lemma CommitKeepsInv(c: Codec, w: World, a: Action)
    requires Faithful(c) && Inv(c, w) && Enabled(w, a) && a.Commit?
    ensures Inv(c, Step(c, w, a))
  {
    var v := Step(c, w, a);
    SnapshotRoundTrip(c, a.outcome, a.outcome.replayed);
    CommitKeepsTable(c, w, a);
    assert ProcessInv(c, w, a.p);
    forall p ensures ProcessInv(c, v, p) {
      assert ProcessInv(c, w, p);
    }
    forall p, q ensures FirstInv(v, p, q) {
      assert FirstInv(w, p, q) && ProcessInv(c, w, p) && ProcessInv(c, w, q);
    }
  }

  lemma DeletionKeepsInv(c: Codec, w: World, a: Action)
    requires Inv(c, w) && Enabled(w, a) && a.DeletePlan?
    ensures Inv(c, Step(c, w, a))
  {
    var v := Step(c, w, a);
    forall p ensures ProcessInv(c, v, p) {
      assert ProcessInv(c, w, p);
    }
    forall p, q ensures FirstInv(v, p, q) {
      assert FirstInv(w, p, q);
    }
    forall k ensures RowInv(v, k) {
      assert RowInv(w, k);
    }
    forall i: nat ensures SetInv(v, i) {
      assert SetInv(w, i);
    }
    forall i: nat, j: nat ensures ApartInv(v, i, j) {
      assert ApartInv(w, i, j);
    }
  }

  lemma OtherKeepsInv(c: Codec, w: World, a: Action)
    requires Inv(c, w) && Enabled(w, a) && !a.Commit? && !a.DeletePlan?
    ensures Inv(c, Step(c, w, a))
  {
    var v := Step(c, w, a);
    OtherKeepsTable(c, w, a);
    assert !a.Submit? ==> ProcessInv(c, w, a.p) && RowInv(w, w.processes[a.p].key);
    forall p ensures ProcessInv(c, v, p) {
      assert ProcessInv(c, w, p);
    }
    forall p, q ensures FirstInv(v, p, q) {
      assert FirstInv(w, p, q);
    }
  }

  lemma OtherKeepsTable(c: Codec, w: World, a: Action)
    requires Inv(c, w) && Enabled(w, a) && !a.Commit? && !a.DeletePlan?
    ensures TableInv(Step(c, w, a))
  {
    var v := Step(c, w, a);
    assert v.stored == w.stored && v.sets == w.sets && v.dropped == w.dropped;
    forall k ensures RowInv(v, k) {
      assert RowInv(w, k);
    }
    forall i: nat ensures SetInv(v, i) {
      assert SetInv(w, i);
    }
    forall i: nat, j: nat ensures ApartInv(v, i, j) {
      assert ApartInv(w, i, j);
    }
  }

  ghost function After(c: Codec, actions: seq<Action>): Option<World> {
    if actions == [] then Some(World(map[], map[], map[], [], map[]))
    else
      var prior, last := After(c, actions[..|actions| - 1]), actions[|actions| - 1];
      if prior.Some? && Enabled(prior.value, last) then Some(Step(c, prior.value, last)) else None
  }

  lemma {:induction false} RunKeepsInv(c: Codec, actions: seq<Action>, w: World)
    requires Faithful(c) && After(c, actions) == Some(w)
    ensures Inv(c, w)
  {
    if actions != [] {
      var last := actions[|actions| - 1];
      var prior := After(c, actions[..|actions| - 1]).value;
      RunKeepsInv(c, actions[..|actions| - 1], prior);
      if last.Commit? {
        CommitKeepsInv(c, prior, last);
      } else if last.DeletePlan? {
        DeletionKeepsInv(c, prior, last);
      } else {
        OtherKeepsInv(c, prior, last);
      }
    }
  }

  /** Every row has its set in every run, so that condition of `Enabled` refuses no step. */
  lemma RowsAlwaysExist(c: Codec, actions: seq<Action>, w: World)
    requires Faithful(c) && After(c, actions) == Some(w)
    ensures RowsExist(w)
  {
    RunKeepsInv(c, actions, w);
    forall k | k in w.stored ensures w.stored[k] < |w.sets| {
      assert RowInv(w, k);
    }
  }

  /** Event `t`: the plan of set `i` is deleted, and `n` sets have been committed by then. */
  ghost predicate DeletedAt(c: Codec, actions: seq<Action>, t: nat, plan: Id, n: nat) {
    t < |actions| && actions[t] == DeletePlan(plan) && After(c, actions[..t]).Some? && |After(c, actions[..t]).value.sets| == n
  }

  lemma DroppedStays(c: Codec, w: World, a: Action, i: nat)
    requires Enabled(w, a) && i in w.dropped && i < |w.sets|
    ensures i in Step(c, w, a).dropped && Step(c, w, a).dropped[i] == w.dropped[i]
    ensures w.sets <= Step(c, w, a).sets
  {
  }

  lemma DroppedNow(c: Codec, w: World, a: Action, i: nat)
    requires Enabled(w, a) && i in Step(c, w, a).dropped && i !in w.dropped
    ensures Step(c, w, a).sets == w.sets && i < |w.sets| && Step(c, w, a).dropped[i] == |w.sets|
    ensures w.sets[i].plan.Some? && a == DeletePlan(w.sets[i].plan.value)
  {
    assert a.DeletePlan?;
  }

  lemma {:induction false} DroppedByDeletion(c: Codec, actions: seq<Action>, w: World, i: nat)
    requires Faithful(c) && After(c, actions) == Some(w) && i in w.dropped
    ensures i < |w.sets| && w.sets[i].plan.Some? && exists t: nat :: DeletedAt(c, actions, t, w.sets[i].plan.value, w.dropped[i])
  {
    var n := |actions| - 1;
    var front, prior := actions[..n], After(c, actions[..n]).value;
    if i in prior.dropped {
      DroppedByDeletion(c, front, prior, i);
      DroppedStays(c, prior, actions[n], i);
      var t: nat :| DeletedAt(c, front, t, prior.sets[i].plan.value, prior.dropped[i]);
      assert front[..t] == actions[..t];
      assert DeletedAt(c, actions, t, w.sets[i].plan.value, w.dropped[i]);
    } else {
      DroppedNow(c, prior, actions[n], i);
      assert DeletedAt(c, actions, n, w.sets[i].plan.value, w.dropped[i]);
    }
  }

  /**
   However submissions race, a key creates resources once for as long as its plan is there: between two
   resource sets of one key, the plan of the first has been deleted.
   */
  lemma OneResourceSetPerKey(c: Codec, actions: seq<Action>, w: World, i: nat, j: nat)
    requires Faithful(c) && After(c, actions) == Some(w) && i < j < |w.sets| && w.sets[i].key == w.sets[j].key
    ensures w.sets[i].plan.Some?
    ensures exists t: nat, n: nat :: i < n <= j && DeletedAt(c, actions, t, w.sets[i].plan.value, n)
  {
    RunKeepsInv(c, actions, w);
    assert ApartInv(w, i, j) && SetInv(w, i);
    DroppedByDeletion(c, actions, w, i);
  }

  lemma NewSnapshotTellsPlan(c: Codec, w: World, a: Action)
    requires Faithful(c) && Enabled(w, a)
    ensures var sets := Step(c, w, a).sets;
            sets == w.sets || (|sets| == |w.sets| + 1 && w.sets <= sets
                               && FromSnapshot(c, sets[|w.sets|].snapshot, true).plan == sets[|w.sets|].plan)
  {
    if a.Commit? {
      SnapshotRoundTrip(c, a.outcome, true);
    }
  }

  lemma {:induction false} SnapshotsTellPlans(c: Codec, actions: seq<Action>, w: World, i: nat)
    requires Faithful(c) && After(c, actions) == Some(w) && i < |w.sets|
    ensures FromSnapshot(c, w.sets[i].snapshot, true).plan == w.sets[i].plan
  {
    var last := actions[|actions| - 1];
    var prior := After(c, actions[..|actions| - 1]).value;
    NewSnapshotTellsPlan(c, prior, last);
    if i < |prior.sets| {
      SnapshotsTellPlans(c, actions[..|actions| - 1], prior, i);
    }
  }

  /**
   Submissions answered from one resource set carried the same request and return the same resources; those
   of one key are answered from one set unless its plan has been deleted in between.
   */
  lemma ReturnsAgree(c: Codec, actions: seq<Action>, w: World, p: Id, q: Id)
    requires Faithful(c) && After(c, actions) == Some(w)
    requires p in w.processes && q in w.processes && w.processes[p].Returned? && w.processes[q].Returned?
    requires w.processes[p].key == w.processes[q].key
    ensures var a, b := w.processes[p], w.processes[q];
            a.origin == b.origin ==>
              && a.digest == b.digest
              && a.outcome.plan == b.outcome.plan
              && a.outcome.executions == b.outcome.executions && a.outcome.schedules == b.outcome.schedules
              && (!a.outcome.replayed && !b.outcome.replayed ==> p == q)
    ensures w.processes[p].origin < w.processes[q].origin ==>
              exists t: nat, n: nat, plan: Id ::
                w.processes[p].origin < n <= w.processes[q].origin && DeletedAt(c, actions, t, plan, n)
                && w.processes[p].outcome.plan == Some(plan)
  {
    RunKeepsInv(c, actions, w);
    assert ProcessInv(c, w, p) && ProcessInv(c, w, q) && FirstInv(w, p, q);
    if w.processes[p].origin < w.processes[q].origin {
      OneResourceSetPerKey(c, actions, w, w.processes[p].origin, w.processes[q].origin);
      SnapshotsTellPlans(c, actions, w, w.processes[p].origin);
    }
  }

  /**
   Once a key has created its resources, and while their plan is there, a look answers with them exactly when
   the request is the same.  After the plan is gone a look never answers with them again.
   */
  lemma LaterSubmissions(c: Codec, actions: seq<Action>, w: World, p: Id, q: Id)
    requires Faithful(c) && After(c, actions) == Some(w)
    requires p in w.processes && w.processes[p].Returned? && q in w.processes && Enabled(w, Look(q))
    requires w.processes[q].key == w.processes[p].key
    ensures var a, b := w.processes[p], Step(c, w, Look(q)).processes[q];
            if a.origin in w.dropped then b.Returned? || b.Conflict? ==> a.origin < b.origin
            else if w.processes[q].digest == a.digest then b.Returned? && b.origin == a.origin && b.outcome == a.outcome.(replayed := true)
            else b.Conflict? && b.origin == a.origin
  {
    RunKeepsInv(c, actions, w);
    var key, i := w.processes[p].key, w.processes[p].origin;
    assert ProcessInv(c, w, p) && SetInv(w, i) && RowInv(w, key);
    assert key in w.stored ==> ApartInv(w, w.stored[key], i);
  }
}
