/** What a submission creates, announces and answers, field by field. */
module SubmissionLaws {
  import opened Core
  import opened PlanningSubmission

  // ----- results -----

  predicate IsResult(r: Resource, item: Item, made: Made, shared: bool) {
    && r.item == item.id && r.kind == item.kind && r.resource == made.resource && r.status == made.status
    && r.primary == (if shared then None else item.primary)
  }

  /** One item has a result of its kind when it was created, and none of another kind. */
  lemma ResultExactly(item: Item, made: Option<Made>, shared: bool, kind: Kind)
    ensures var results := ResultsOf([item], [made], shared, kind);
            if item.kind == kind && made.Some? then |results| == 1 && IsResult(results[0], item, made.value, shared)
            else results == []
  {
    assert [item][..0] == [] && [made][..0] == [];
  }

  /** The results of several items are those of each, in item order. */
  lemma {:induction false} ResultsExactly(items: seq<Item>, made: seq<Option<Made>>, more: seq<Item>, moreMade: seq<Option<Made>>,
                                          shared: bool, kind: Kind)
    requires |items| == |made| && |more| == |moreMade|
    ensures ResultsOf(items + more, made + moreMade, shared, kind)
            == ResultsOf(items, made, shared, kind) + ResultsOf(more, moreMade, shared, kind)
  {
    if more == [] {
      assert items + more == items && made + moreMade == made;
    } else {
      var n := |more| - 1;
      ResultsExactly(items, made, more[..n], moreMade[..n], shared, kind);
      assert (items + more)[..|items| + n] == items + more[..n];
      assert (made + moreMade)[..|made| + n] == made + moreMade[..n];
    }
  }

  // ----- executions and effects -----

  /** The created executions are those of the items one after the other. */
  lemma {:induction false} ExecutionsExactly(first: seq<Option<Made>>, second: seq<Option<Made>>)
    ensures ExecutionsOf(first + second) == ExecutionsOf(first) + ExecutionsOf(second)
    ensures forall m: Made :: ExecutionsOf([Some(m)]) == m.executions
  {
    forall m: Made ensures ExecutionsOf([Some(m)]) == m.executions {
      assert [Some(m)][..0] == [] && ExecutionsOf([]) == [];
    }
    if second == [] {
      assert first + second == first;
    } else {
      var n := |second| - 1;
      ExecutionsExactly(first, second[..n]);
      assert (first + second)[..|first| + n] == first + second[..n];
    }
  }

  /** Repeated executions are left out, the others stay in the order they first appear in. */
  lemma {:induction false} OnceInOrder(ids: seq<Id>, i: nat, j: nat)
    requires i < j < |Once(ids)|
    ensures exists p :: 0 <= p < |ids| && ids[p] == Once(ids)[i] && Once(ids)[j] !in ids[..p]
    decreases |ids|
  {
    var n := |ids| - 1;
    var front := ids[..n];
    OnceKeepsEach(front);
    OnceKeepsEach(ids);
    if j < |Once(front)| {
      OnceInOrder(front, i, j);
      var p :| 0 <= p < |front| && front[p] == Once(front)[i] && Once(front)[j] !in front[..p];
      assert front[..p] == ids[..p] && ids[p] == Once(ids)[i];
    } else {
      assert Once(ids)[i] in front;
      var p :| 0 <= p < |front| && front[p] == Once(ids)[i];
      assert Once(ids)[j] == ids[n] && ids[n] !in front;
      assert forall x :: x in ids[..p] ==> x in front;
    }
  }

  /** Each execution announces its recipients one after the other, execution by execution. */
  lemma {:induction false} NotificationsExactly(first: seq<Id>, second: seq<Id>, recipients: Id -> seq<Id>)
    ensures Notifications(first + second, recipients) == Notifications(first, recipients) + Notifications(second, recipients)
    ensures forall e: Id :: Announces(Notifications([e], recipients), e, recipients(e))
  {
    forall e: Id ensures Announces(Notifications([e], recipients), e, recipients(e)) {
      assert [e][..0] == [] && Notifications([], recipients) == [];
    }
    if second == [] {
      assert first + second == first;
    } else {
      var n := |second| - 1;
      NotificationsExactly(first, second[..n], recipients);
      assert (first + second)[..|first| + n] == first + second[..n];
    }
  }

  predicate Announces(effects: seq<Effect>, execution: Id, recipients: seq<Id>) {
    |effects| == |recipients| && forall i :: 0 <= i < |effects| ==> effects[i] == Notify(execution, recipients[i])
  }

  /** The batch entry comes first, exactly when something was created, anchored at the first execution. */
  lemma BatchExactly(made: seq<Option<Made>>, recipients: Id -> seq<Id>, anchor: Id)
    ensures var executions, effects := ExecutionsOf(made), Effects(Once(ExecutionsOf(made)), recipients);
            && (RealtimeBatch(anchor) in effects <==> executions != [] && anchor == executions[0])
            && (executions != [] ==> effects != [] && effects[0] == RealtimeBatch(executions[0]))
            && (executions == [] ==> effects == [])
  {
    var executions := ExecutionsOf(made);
    OnceKeepsEach(executions);
    NoBatchAmongNotifications(Once(executions), recipients, anchor);
    if executions != [] {
      assert executions[0] in Once(executions);
      OnceStartsFirst(executions);
    }
  }

  lemma {:induction false} OnceStartsFirst(ids: seq<Id>)
    requires ids != []
    ensures Once(ids) != [] && Once(ids)[0] == ids[0]
  {
    if |ids| > 1 {
      OnceStartsFirst(ids[..|ids| - 1]);
    } else {
      assert ids[..0] == [] && Once([]) == [];
    }
  }

  lemma {:induction false} NoBatchAmongNotifications(executions: seq<Id>, recipients: Id -> seq<Id>, anchor: Id)
    ensures RealtimeBatch(anchor) !in Notifications(executions, recipients)
  {
    if executions != [] {
      NoBatchAmongNotifications(executions[..|executions| - 1], recipients, anchor);
    }
  }

  // ----- the steps of a submission -----

  ghost predicate OthersStay(w: World, v: World, p: Id) {
    forall q: Id :: q != p ==> (q in v.processes <==> q in w.processes) && (q in w.processes ==> v.processes[q] == w.processes[q])
  }

  /** A submission starts by looking. */
  lemma SubmitTable(c: Codec, w: World, p: Id, key: Key, digest: Id)
    requires Enabled(w, Submit(p, key, digest))
    ensures var v := Step(c, w, Submit(p, key, digest));
            v == w.(processes := v.processes) && OthersStay(w, v, p) && p in v.processes && v.processes[p] == Looking(key, digest)
  {
  }

  /** A row answers with what its set stored, or conflicts when the request is another one. */
  lemma LookTable(c: Codec, w: World, p: Id)
    requires Enabled(w, Look(p))
    ensures var s, v := w.processes[p], Step(c, w, Look(p));
            && v == w.(processes := v.processes) && OthersStay(w, v, p) && p in v.processes
            && if s.key in w.stored then
                 var i := w.stored[s.key];
                 if w.sets[i].digest == s.digest
                 then v.processes[p] == Returned(w.sets[i].key, s.digest, FromSnapshot(c, w.sets[i].snapshot, true), i)
                 else v.processes[p] == Conflict(w.sets[i].key, s.digest, i)
               else v.processes[p] == if s.Looking? then Inserting(s.key, s.digest) else s
  {
  }

  /** An insert meets the unique row of its key, or holds the key until its transaction ends. */
  lemma InsertTable(c: Codec, w: World, p: Id)
    requires Enabled(w, Insert(p))
    ensures var s, v := w.processes[p], Step(c, w, Insert(p));
            && OthersStay(w, v, p) && p in v.processes
            && v == w.(processes := v.processes, held := v.held)
            && (if s.key in w.stored then v.processes[p] == Collided(s.key, s.digest) && v.held == w.held
                else v.processes[p] == Holding(s.key, s.digest) && v.held == w.held[s.key := p])
  {
  }

  /** A commit adds its set, with its snapshot, as the row of its key; an abort leaves nothing. */
  lemma EndTable(c: Codec, w: World, a: Action)
    requires Enabled(w, a) && (a.Commit? || a.Abort? || a.GiveUp?)
    ensures var s, v := w.processes[a.p], Step(c, w, a);
            && OthersStay(w, v, a.p) && a.p in v.processes && v.dropped == w.dropped
            && (a.Commit? ==>
                  && v.processes[a.p] == Returned(s.key, s.digest, a.outcome, |w.sets|)
                  && v.sets == w.sets + [ResourceSet(s.key, s.digest, SnapshotOf(c, a.outcome), a.outcome.plan)]
                  && v.stored == w.stored[s.key := |w.sets|] && v.held == w.held - {s.key})
            && (a.Abort? ==> v.processes[a.p] == Failed(s.key) && v.sets == w.sets && v.stored == w.stored && v.held == w.held - {s.key})
            && (a.GiveUp? ==> v.processes[a.p] == Failed(s.key) && v.sets == w.sets && v.stored == w.stored && v.held == w.held)
  {
  }

  /** Deleting a plan takes exactly the rows of the sets that carry it, and notes how many sets there are. */
  lemma DeletePlanTable(c: Codec, w: World, plan: Id)
    requires Enabled(w, DeletePlan(plan))
    ensures var v := Step(c, w, DeletePlan(plan));
            && v.processes == w.processes && v.held == w.held && v.sets == w.sets
            && (forall k :: k in v.stored <==> k in w.stored && w.sets[w.stored[k]].plan != Some(plan))
            && (forall k :: k in v.stored ==> v.stored[k] == w.stored[k])
            && (forall i: nat :: i in v.dropped <==> i < |w.sets| && (i in w.dropped || w.sets[i].plan == Some(plan)))
            && (forall i: nat :: i in v.dropped ==> v.dropped[i] == if i in w.dropped then w.dropped[i] else |w.sets|)
  {
  }
}
