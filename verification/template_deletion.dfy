/**
 Deleting a reusable plan: its scheduled executions go with their comments, every other
 execution of it stays, cut loose from the plan, its schedules and its tasks.
 */
module TemplateDeletion {
  import opened Core
  import opened Lifecycle
  import LeafDeletion

  /** An execution with its links to the template; one task link per task. */
  datatype Row = Row(execution: Execution, plan: Option<Id>, taskLinks: seq<Option<Id>>)

  datatype Failure = Invalid | NotAllowed | Observed | Undeletable | Protected

  datatype Fate = ToDelete | ToDetach

  function FateOf(s: Status): Fate { if s == Scheduled then ToDelete else ToDetach }

  type Rows = map<Id, Row>

  type Comments = LeafDeletion.Rows

  predicate Of(r: Row, plan: Id) { r.plan == Some(plan) }

  predicate HardDeleted(r: Row, plan: Id) { Of(r, plan) && FateOf(r.execution.status) == ToDelete }

  function Detached(r: Row): Row {
    r.(execution := r.execution.(scheduleId := None), plan := None,
       taskLinks := seq(|r.taskLinks|, i requires 0 <= i < |r.taskLinks| => None))
  }

  /** The comments of one execution. */
  function HostedBy(host: map<Id, Id>, e: Id): set<Id> {
    set c | c in host && host[c] == e
  }

  function HostedIn(host: map<Id, Id>, es: set<Id>): set<Id> {
    set c | c in host && host[c] in es
  }

  /** A reply is on the execution of the comment it answers, and every comment is on one. */
  ghost predicate SameHost(comments: Comments, host: map<Id, Id>) {
    && (forall c :: c in comments <==> c in host)
    && (forall r, x :: LeafDeletion.RefersTo(comments, r, x) ==> r in host && x in host && host[r] == host[x])
  }

  /** Schedules and plan tasks are only linked to from executions of their own plan. */
  ghost predicate Consistent(rows: Rows, schedulePlan: map<Id, Id>, taskPlan: map<Id, Id>) {
    && (forall e :: e in rows && rows[e].execution.scheduleId.Some? ==>
          rows[e].execution.scheduleId.value in schedulePlan
          && rows[e].plan == Some(schedulePlan[rows[e].execution.scheduleId.value]))
    && (forall e, i :: e in rows && 0 <= i < |rows[e].taskLinks| && rows[e].taskLinks[i].Some? ==>
          rows[e].taskLinks[i].value in taskPlan && rows[e].plan == Some(taskPlan[rows[e].taskLinks[i].value]))
  }

  /** After `done` of the plan's executions have been dealt with. */
  function Partly(rows: Rows, plan: Id, done: set<Id>): Rows {
    map e | e in rows && !(e in done && HardDeleted(rows[e], plan)) :: if e in done then Detached(rows[e]) else rows[e]
  }

  function ExecutionsOf(rows: Rows, plan: Id): set<Id> {
    set e | e in rows && Of(rows[e], plan)
  }

  function DeletedOf(rows: Rows, plan: Id): set<Id> {
    set e | e in rows && HardDeleted(rows[e], plan)
  }

  ghost predicate Blocked(rows: Rows, comments: Comments, host: map<Id, Id>, observed: set<Id>, plan: Id, e: Id) {
    && e in rows && HardDeleted(rows[e], plan)
    && (e in observed || !LeafDeletion.Deletable(comments, HostedBy(host, e)))
  }

  ghost predicate NoneBlocked(rows: Rows, comments: Comments, host: map<Id, Id>, observed: set<Id>, plan: Id) {
    forall e :: !Blocked(rows, comments, host, observed, plan, e)
  }

  // ----- in the rows' own terms -----

  /** The plan's own, and not begun. */
  ghost predicate Goes(rows: Rows, plan: Id, e: Id) {
    e in rows && rows[e].plan == Some(plan) && rows[e].execution.status == Scheduled
  }

  /** No link to the plan, its schedules or its tasks is left; everything else of the row is as it was. */
  ghost predicate CutLoose(r: Row, after: Row) {
    && after.plan.None? && after.execution == r.execution.(scheduleId := None)
    && |after.taskLinks| == |r.taskLinks| && forall i :: 0 <= i < |r.taskLinks| ==> after.taskLinks[i].None?
  }

  /** What goes and what is left of the executions and of their comments. */
  ghost predicate LeavesOthers(rows: Rows, comments: Comments, host: map<Id, Id>, plan: Id, after: Rows, left: Comments) {
    && (forall e :: e in after <==> e in rows && !Goes(rows, plan, e))
    && (forall e :: e in after ==> if rows[e].plan == Some(plan) then CutLoose(rows[e], after[e]) else after[e] == rows[e])
    && (forall c :: c in left <==> c in comments && !(c in host && Goes(rows, plan, host[c])))
    && (forall c :: c in left ==> left[c] == comments[c])
  }

  /** An observation names it, or the comments written on it cannot all be deleted. */
  ghost predicate CannotGo(comments: Comments, host: map<Id, Id>, observed: set<Id>, e: Id) {
    e in observed || !LeafDeletion.Deletable(comments, set c | c in host && host[c] == e)
  }

  ghost predicate NothingInTheWay(rows: Rows, comments: Comments, host: map<Id, Id>, observed: set<Id>, plan: Id) {
    forall e :: Goes(rows, plan, e) ==> !CannotGo(comments, host, observed, e)
  }

  lemma RowsLeft(rows: Rows, comments: Comments, host: map<Id, Id>, plan: Id)
    ensures LeavesOthers(rows, comments, host, plan, Partly(rows, plan, ExecutionsOf(rows, plan)),
                         LeafDeletion.Without(comments, HostedIn(host, DeletedOf(rows, plan))))
  {
  }

  lemma BlockedExactly(rows: Rows, comments: Comments, host: map<Id, Id>, observed: set<Id>, plan: Id)
    ensures NoneBlocked(rows, comments, host, observed, plan)
            <==> NothingInTheWay(rows, comments, host, observed, plan)
  {
    forall e ensures Blocked(rows, comments, host, observed, plan, e)
                     <==> Goes(rows, plan, e) && CannotGo(comments, host, observed, e) {
      assert HostedBy(host, e) == set c | c in host && host[c] == e;
    }
  }

  // ----- comment trees of different executions do not meddle -----

  lemma OtherTreesApart(comments: Comments, host: map<Id, Id>, gone: set<Id>, e: Id)
    requires SameHost(comments, host) && LeafDeletion.Integral(comments) && e !in gone
    ensures LeafDeletion.Integral(LeafDeletion.Without(comments, HostedIn(host, gone)))
    ensures LeafDeletion.Deletable(LeafDeletion.Without(comments, HostedIn(host, gone)), HostedBy(host, e))
            <==> LeafDeletion.Deletable(comments, HostedBy(host, e))
  {
    var left, ids := LeafDeletion.Without(comments, HostedIn(host, gone)), HostedBy(host, e);
    forall r, x | LeafDeletion.RefersTo(left, r, x) ensures x in left {
      assert LeafDeletion.RefersTo(comments, r, x);
    }
    forall r, x ensures x in ids ==> (LeafDeletion.RefersTo(left, r, x) <==> LeafDeletion.RefersTo(comments, r, x)) {
    }
    forall path: seq<Id> ensures LeafDeletion.Cycle(left, ids, path) <==> LeafDeletion.Cycle(comments, ids, path) {
    }
  }

  lemma TreeJoins(comments: Comments, host: map<Id, Id>, gone: set<Id>, e: Id)
    ensures LeafDeletion.Without(LeafDeletion.Without(comments, HostedIn(host, gone)), HostedBy(host, e))
            == LeafDeletion.Without(comments, HostedIn(host, gone + {e}))
  {
  }

  // ----- the service -----

  /** What settling one execution does. */
  ghost predicate Settles(rows: Rows, comments: Comments, host: map<Id, Id>, observed: set<Id>, e: Id,
                          ok: bool, rows': Rows, comments': Comments)
    requires e in rows
  {
    if FateOf(rows[e].execution.status) == ToDetach then
      ok && rows' == rows[e := Detached(rows[e])] && comments' == comments
    else
      && (ok <==> e !in observed && LeafDeletion.Deletable(comments, HostedBy(host, e)))
      && (ok ==> rows' == rows - {e} && comments' == LeafDeletion.Without(comments, HostedBy(host, e)))
  }

  /** The tables once the executions in `done` have been settled, none of which was blocked. */
  ghost predicate Settled(before: Rows, tree: Comments, host: map<Id, Id>, observed: set<Id>, plan: Id, done: set<Id>,
                          rows: Rows, comments: Comments) {
    && rows == Partly(before, plan, done)
    && comments == LeafDeletion.Without(tree, HostedIn(host, done * DeletedOf(before, plan)))
    && forall e :: e in done ==> !Blocked(before, tree, host, observed, plan, e)
  }

  lemma ReadyToSettle(before: Rows, tree: Comments, host: map<Id, Id>, observed: set<Id>, plan: Id, done: set<Id>, e: Id,
                      rows: Rows, comments: Comments)
    requires SameHost(tree, host) && LeafDeletion.Integral(tree)
    requires Settled(before, tree, host, observed, plan, done, rows, comments)
    requires e in before && Of(before[e], plan) && e !in done
    ensures e in rows && LeafDeletion.Integral(comments) && forall c :: c in HostedBy(host, e) ==> c in comments
  {
    StepOf(before, tree, host, plan, done, e);
  }

  lemma SettledGrows(before: Rows, tree: Comments, host: map<Id, Id>, observed: set<Id>, plan: Id, done: set<Id>, e: Id,
                     rows: Rows, comments: Comments, ok: bool, rows': Rows, comments': Comments)
    requires SameHost(tree, host) && LeafDeletion.Integral(tree)
    requires Settled(before, tree, host, observed, plan, done, rows, comments)
    requires e in before && Of(before[e], plan) && e !in done && e in rows
    requires Settles(rows, comments, host, observed, e, ok, rows', comments')
    ensures if ok then Settled(before, tree, host, observed, plan, done + {e}, rows', comments')
            else Blocked(before, tree, host, observed, plan, e)
  {
    StepOf(before, tree, host, plan, done, e);
  }

  class Catalog {
    var rows: Rows
    var reusable: map<Id, bool>
    var schedulePlan: map<Id, Id>
    var scheduleActive: map<Id, bool>
    var taskPlan: map<Id, Id>
    var host: map<Id, Id>
    var observed: set<Id>
    const comments: LeafDeletion.Table

    constructor (comments: LeafDeletion.Table)
      ensures this.comments == comments && rows == map[] && reusable == map[] && schedulePlan == map[]
      ensures scheduleActive == map[] && taskPlan == map[] && host == map[] && observed == {}
    {
      this.comments := comments;
      rows, reusable, schedulePlan, scheduleActive, taskPlan, host, observed := map[], map[], map[], map[], map[], map[], {};
    }

    /** A scheduled execution goes with its comments, unless an observation names it. */
    method HardDelete(e: Id) returns (r: Result<(), Failure>)
      requires LeafDeletion.Integral(comments.rows) && forall c :: c in HostedBy(host, e) ==> c in comments.rows
      modifies this`rows, comments
      ensures r == if e !in old(rows) then Err(Invalid)
                   else if FateOf(old(rows[e]).execution.status) != ToDelete then Err(Invalid)
                   else if e in observed then Err(Observed)
                   else if !LeafDeletion.Deletable(old(comments.rows), HostedBy(host, e)) then Err(Undeletable) else Ok(())
      ensures rows == if r.Ok? then old(rows) - {e} else old(rows)
      ensures comments.rows == if r.Ok? then LeafDeletion.Without(old(comments.rows), HostedBy(host, e)) else old(comments.rows)
    {
      if e !in rows || FateOf(rows[e].execution.status) != ToDelete {
        return Err(Invalid);
      }
      if e in observed {
        return Err(Observed);
      }
      var deleted := comments.DeleteCommentTree(HostedBy(host, e));
      if deleted.Err? {
        return Err(Undeletable);
      }
      rows := rows - {e};
      return Ok(());
    }

    method Detach(e: Id) returns (r: Result<(), Failure>)
      modifies this`rows
      ensures r == if e !in old(rows) || FateOf(old(rows[e]).execution.status) != ToDetach then Err(Invalid) else Ok(())
      ensures rows == if r.Ok? then old(rows)[e := Detached(old(rows[e]))] else old(rows)
    {
      if e !in rows || FateOf(rows[e].execution.status) != ToDetach {
        return Err(Invalid);
      }
      var row := rows[e];
      var links: seq<Option<Id>> := [];
      for i := 0 to |row.taskLinks|
        invariant links == seq(i, k => None)
      {
        links := links + [None];
      }
      assert links == Detached(row).taskLinks;
      rows := rows[e := row.(taskLinks := links, plan := None, execution := row.execution.(scheduleId := None))];
      return Ok(());
    }

    /** Only switches the schedules off; no execution is touched. */
    method StopMaterialization(plan: Id)
      modifies this`scheduleActive
      ensures scheduleActive == Stopped(old(scheduleActive), schedulePlan, plan)
    {
      scheduleActive := map s | s in scheduleActive :: scheduleActive[s] && !(s in schedulePlan && schedulePlan[s] == plan);
    }

    /** The plan's keys are protected by executions, and carry its schedules and tasks with it. */
    method DeletePlan(plan: Id) returns (ok: bool)
      modifies this`reusable, this`schedulePlan, this`scheduleActive, this`taskPlan, this`rows
      ensures ok <==> !StillLinked(old(rows), old(schedulePlan), plan)
      ensures if ok then
                && reusable == old(reusable) - {plan}
                && schedulePlan == (map s | s in old(schedulePlan) && old(schedulePlan)[s] != plan :: old(schedulePlan)[s])
                && scheduleActive == (map s | s in old(scheduleActive) && s in schedulePlan :: old(scheduleActive)[s])
                && taskPlan == (map t | t in old(taskPlan) && old(taskPlan)[t] != plan :: old(taskPlan)[t])
                && rows == Unlinked(old(rows), old(taskPlan), plan)
              else
                && reusable == old(reusable) && schedulePlan == old(schedulePlan) && scheduleActive == old(scheduleActive)
                && taskPlan == old(taskPlan) && rows == old(rows)
    {
      if StillLinked(rows, schedulePlan, plan) {
        return false;
      }
      rows := Unlinked(rows, taskPlan, plan);
      reusable := reusable - {plan};
      schedulePlan := map s | s in schedulePlan && schedulePlan[s] != plan :: schedulePlan[s];
      scheduleActive := map s | s in scheduleActive && s in schedulePlan :: scheduleActive[s];
      taskPlan := map t | t in taskPlan && taskPlan[t] != plan :: taskPlan[t];
      return true;
    }

    /** Its executions settled and then the plan deleted, or all of it undone. */
    method SettleAndDelete(plan: Id) returns (r: Result<(), Failure>)
      requires LeafDeletion.Integral(comments.rows) && SameHost(comments.rows, host)
      requires Consistent(rows, schedulePlan, taskPlan)
      modifies this`reusable, this`schedulePlan, this`scheduleActive, this`taskPlan, this`rows, comments
      ensures r.Ok? <==> NoneBlocked(old(rows), old(comments.rows), host, observed, plan)
      ensures r.Err? ==>
                && rows == old(rows) && reusable == old(reusable) && schedulePlan == old(schedulePlan)
                && scheduleActive == old(scheduleActive) && taskPlan == old(taskPlan) && comments.rows == old(comments.rows)
      ensures r.Ok? ==>
                && rows == Partly(old(rows), plan, ExecutionsOf(old(rows), plan))
                && comments.rows == LeafDeletion.Without(old(comments.rows), HostedIn(host, DeletedOf(old(rows), plan)))
                && reusable == old(reusable) - {plan}
                && schedulePlan == (map s | s in old(schedulePlan) && old(schedulePlan)[s] != plan :: old(schedulePlan)[s])
                && taskPlan == (map t | t in old(taskPlan) && old(taskPlan)[t] != plan :: old(taskPlan)[t])
                && scheduleActive == (map s | s in old(scheduleActive) && s in schedulePlan :: old(scheduleActive)[s])
    {
      var savedRows, savedComments, savedActive := rows, comments.rows, scheduleActive;
      StopMaterialization(plan);
      r := SettleExecutions(plan);
      if r.Err? {
        rows, comments.rows, scheduleActive := savedRows, savedComments, savedActive;
        return;
      }
      AllDone(savedRows, plan, schedulePlan, taskPlan);
      OthersStayActive(savedActive, schedulePlan, plan);
      var ok := DeletePlan(plan);
    }

    /**
     Every execution of the plan is deleted or detached, and then the plan goes; anything that stands in
     the way of one of them undoes all of it.
     */
    method DeleteReusablePlan(plan: Id, allowed: bool) returns (r: Result<(), Failure>)
      requires LeafDeletion.Integral(comments.rows) && SameHost(comments.rows, host)
      requires Consistent(rows, schedulePlan, taskPlan)
      modifies this`reusable, this`schedulePlan, this`scheduleActive, this`taskPlan, this`rows, comments
      ensures plan !in old(reusable) || !old(reusable)[plan] ==> r == Err(Invalid)
      ensures plan in old(reusable) && old(reusable)[plan] && !allowed ==> r == Err(NotAllowed)
      ensures plan in old(reusable) && old(reusable)[plan] && allowed ==>
                (r.Ok? <==> NothingInTheWay(old(rows), old(comments.rows), host, observed, plan))
      ensures r.Err? ==>
                && rows == old(rows) && reusable == old(reusable) && schedulePlan == old(schedulePlan)
                && scheduleActive == old(scheduleActive) && taskPlan == old(taskPlan) && comments.rows == old(comments.rows)
      ensures r.Ok? ==>
                && LeavesOthers(old(rows), old(comments.rows), host, plan, rows, comments.rows)
                && rows == Partly(old(rows), plan, ExecutionsOf(old(rows), plan))
                && reusable == old(reusable) - {plan}
                && schedulePlan == (map s | s in old(schedulePlan) && old(schedulePlan)[s] != plan :: old(schedulePlan)[s])
                && taskPlan == (map t | t in old(taskPlan) && old(taskPlan)[t] != plan :: old(taskPlan)[t])
                && scheduleActive == (map s | s in old(scheduleActive) && s in schedulePlan :: old(scheduleActive)[s])
    {
      if plan !in reusable || !reusable[plan] {
        return Err(Invalid);
      }
      if !allowed {
        return Err(NotAllowed);
      }
      BlockedExactly(rows, comments.rows, host, observed, plan);
      RowsLeft(rows, comments.rows, host, plan);
      r := SettleAndDelete(plan);
    }

    method Settle(e: Id) returns (r: Result<(), Failure>)
      requires e in rows
      requires LeafDeletion.Integral(comments.rows) && forall c :: c in HostedBy(host, e) ==> c in comments.rows
      modifies this`rows, comments
      ensures Settles(old(rows), old(comments.rows), host, observed, e, r.Ok?, rows, comments.rows)
    {
      if FateOf(rows[e].execution.status) == ToDelete {
        r := HardDelete(e);
      } else {
        r := Detach(e);
      }
    }

    /** One execution after the other, up to the first that cannot go. */
    method SettleExecutions(plan: Id) returns (r: Result<(), Failure>)
      requires LeafDeletion.Integral(comments.rows) && SameHost(comments.rows, host)
      modifies this`rows, comments
      ensures r.Ok? <==> NoneBlocked(old(rows), old(comments.rows), host, observed, plan)
      ensures r.Ok? ==>
                && rows == Partly(old(rows), plan, ExecutionsOf(old(rows), plan))
                && comments.rows == LeafDeletion.Without(old(comments.rows), HostedIn(host, DeletedOf(old(rows), plan)))
    {
      ghost var before, tree := rows, comments.rows;
      var all := set e | e in rows && Of(rows[e], plan);
      var todo := all;
      NothingDone(before, tree, host, plan);
      Bounds(all);
      while todo != {}
        invariant todo <= all && Settled(before, tree, host, observed, plan, all - todo, rows, comments.rows)
        decreases |todo|
      {
        var e :| e in todo;
        ReadyToSettle(before, tree, host, observed, plan, all - todo, e, rows, comments.rows);
        ghost var r0, c0 := rows, comments.rows;
        var step := Settle(e);
        SettledGrows(before, tree, host, observed, plan, all - todo, e, r0, c0, step.Ok?, rows, comments.rows);
        if step.Err? {
          return Err(step.error);
        }
        OneFewer(all, todo, e);
        todo := todo - {e};
      }
      Bounds(all);
      AllSettled(before, tree, host, observed, plan, all, rows, comments.rows);
      return Ok(());
    }
  }

  lemma OneFewer(all: set<Id>, todo: set<Id>, e: Id)
    requires todo <= all && e in todo
    ensures all - (todo - {e}) == (all - todo) + {e}
  {
  }

  lemma Bounds(all: set<Id>)
    ensures all - all == {} && all - {} == all
  {
  }

  lemma AllSettled(before: Rows, tree: Comments, host: map<Id, Id>, observed: set<Id>, plan: Id, all: set<Id>,
                   rows: Rows, comments: Comments)
    requires all == ExecutionsOf(before, plan) && Settled(before, tree, host, observed, plan, all, rows, comments)
    ensures NoneBlocked(before, tree, host, observed, plan)
    ensures rows == Partly(before, plan, ExecutionsOf(before, plan))
    ensures comments == LeafDeletion.Without(tree, HostedIn(host, DeletedOf(before, plan)))
  {
    forall e ensures !Blocked(before, tree, host, observed, plan, e) {
      assert e !in all ==> !Blocked(before, tree, host, observed, plan, e);
    }
    assert all * DeletedOf(before, plan) == DeletedOf(before, plan);
  }

  lemma NothingDone(rows: Rows, comments: Comments, host: map<Id, Id>, plan: Id)
    ensures Partly(rows, plan, {}) == rows
    ensures LeafDeletion.Without(comments, HostedIn(host, {})) == comments
  {
  }

  /** Dealing with one more execution. */
  lemma StepOf(rows: Rows, comments: Comments, host: map<Id, Id>, plan: Id, done: set<Id>, e: Id)
    requires SameHost(comments, host) && LeafDeletion.Integral(comments)
    requires e in rows && Of(rows[e], plan) && e !in done
    ensures var now, gone := Partly(rows, plan, done), done * DeletedOf(rows, plan);
            var tree := LeafDeletion.Without(comments, HostedIn(host, gone));
            && e in now && now[e] == rows[e] && LeafDeletion.Integral(tree)
            && (forall c :: c in HostedBy(host, e) ==> c in tree)
            && (LeafDeletion.Deletable(tree, HostedBy(host, e)) <==> LeafDeletion.Deletable(comments, HostedBy(host, e)))
            && (if FateOf(rows[e].execution.status) == ToDelete
                then now - {e} == Partly(rows, plan, done + {e})
                     && LeafDeletion.Without(tree, HostedBy(host, e))
                        == LeafDeletion.Without(comments, HostedIn(host, (done + {e}) * DeletedOf(rows, plan)))
                else now[e := Detached(rows[e])] == Partly(rows, plan, done + {e})
                     && gone == (done + {e}) * DeletedOf(rows, plan))
  {
    var gone := done * DeletedOf(rows, plan);
    OtherTreesApart(comments, host, gone, e);
    if FateOf(rows[e].execution.status) == ToDelete {
      TreeJoins(comments, host, gone, e);
      assert gone + {e} == (done + {e}) * DeletedOf(rows, plan);
    } else {
      assert gone == (done + {e}) * DeletedOf(rows, plan);
    }
  }

  /** Once all are dealt with, nothing links to the plan, its schedules or its tasks. */
  lemma AllDone(rows: Rows, plan: Id, schedulePlan: map<Id, Id>, taskPlan: map<Id, Id>)
    requires Consistent(rows, schedulePlan, taskPlan)
    ensures var after := Partly(rows, plan, ExecutionsOf(rows, plan));
            !StillLinked(after, schedulePlan, plan) && Unlinked(after, taskPlan, plan) == after
  {
    var after := Partly(rows, plan, ExecutionsOf(rows, plan));
    forall e | e in after
      ensures !LinkedTo(after[e], schedulePlan, plan) && WithoutTaskLinks(after[e], taskPlan, plan) == after[e]
    {
      assert WithoutTaskLinks(after[e], taskPlan, plan).taskLinks == after[e].taskLinks;
    }
  }

  /**
   Exactly the scheduled executions of the plan are removed; each other one keeps its status and journal
   and, if it was the plan's, links to no plan, schedule or task any more.
   */
  lemma DeletionIsExact(rows: Rows, plan: Id, e: Id)
    requires e in rows
    ensures var after := Partly(rows, plan, ExecutionsOf(rows, plan));
            && (e in after <==> !(Of(rows[e], plan) && rows[e].execution.status == Scheduled))
            && (e in after ==>
                  && after[e].execution.status == rows[e].execution.status
                  && after[e].execution.journal == rows[e].execution.journal
                  && (Inv(rows[e].execution) ==> Inv(after[e].execution))
                  && (!Of(rows[e], plan) ==> after[e] == rows[e])
                  && (Of(rows[e], plan) ==>
                        after[e].plan.None? && after[e].execution.scheduleId.None?
                        && forall i :: 0 <= i < |after[e].taskLinks| ==> after[e].taskLinks[i].None?))
  {
  }

  function Stopped(active: map<Id, bool>, schedulePlan: map<Id, Id>, plan: Id): map<Id, bool> {
    map s | s in active :: active[s] && !(s in schedulePlan && schedulePlan[s] == plan)
  }

  /** Switching the plan's schedules off changes none that outlives them. */
  lemma OthersStayActive(active: map<Id, bool>, schedulePlan: map<Id, Id>, plan: Id)
    ensures var left := map s | s in schedulePlan && schedulePlan[s] != plan :: schedulePlan[s];
            (map s | s in Stopped(active, schedulePlan, plan) && s in left :: Stopped(active, schedulePlan, plan)[s])
            == map s | s in active && s in left :: active[s]
  {
  }

  predicate StillLinked(rows: Rows, schedulePlan: map<Id, Id>, plan: Id) {
    exists e :: e in rows && LinkedTo(rows[e], schedulePlan, plan)
  }

  predicate LinkedTo(r: Row, schedulePlan: map<Id, Id>, plan: Id) {
    || Of(r, plan)
    || (r.execution.scheduleId.Some? && r.execution.scheduleId.value in schedulePlan
        && schedulePlan[r.execution.scheduleId.value] == plan)
  }

  predicate LinksTask(link: Option<Id>, taskPlan: map<Id, Id>, plan: Id) {
    link.Some? && link.value in taskPlan && taskPlan[link.value] == plan
  }

  /** Deleting a plan task clears the links to it. */
  function WithoutTaskLinks(r: Row, taskPlan: map<Id, Id>, plan: Id): Row {
    r.(taskLinks := seq(|r.taskLinks|, i requires 0 <= i < |r.taskLinks| =>
                                         if LinksTask(r.taskLinks[i], taskPlan, plan) then None else r.taskLinks[i]))
  }

  function Unlinked(rows: Rows, taskPlan: map<Id, Id>, plan: Id): Rows {
    map e | e in rows :: WithoutTaskLinks(rows[e], taskPlan, plan)
  }

  /** The plan's keys are held by the executions of it, and by those of its schedules. */
  lemma LinkedExactly(rows: Rows, schedulePlan: map<Id, Id>, plan: Id)
    ensures StillLinked(rows, schedulePlan, plan) <==>
            || (exists e :: e in rows && rows[e].plan == Some(plan))
            || (exists e, s: Id :: e in rows && rows[e].execution.scheduleId == Some(s) && s in schedulePlan && schedulePlan[s] == plan)
  {
    if e, s: Id :| e in rows && rows[e].execution.scheduleId == Some(s) && s in schedulePlan && schedulePlan[s] == plan {
      assert LinkedTo(rows[e], schedulePlan, plan);
    }
    if e :| e in rows && LinkedTo(rows[e], schedulePlan, plan) {
      assert rows[e].plan == Some(plan) || rows[e].execution.scheduleId == Some(rows[e].execution.scheduleId.value);
    }
  }

  /** With the plan's tasks go the links to them, and nothing else of a row. */
  lemma UnlinkedExactly(r: Row, taskPlan: map<Id, Id>, plan: Id)
    ensures var after := WithoutTaskLinks(r, taskPlan, plan);
            && after.execution == r.execution && after.plan == r.plan && |after.taskLinks| == |r.taskLinks|
            && forall i :: 0 <= i < |r.taskLinks| ==>
                 after.taskLinks[i] == if r.taskLinks[i].Some? && r.taskLinks[i].value in taskPlan
                                          && taskPlan[r.taskLinks[i].value] == plan then None else r.taskLinks[i]
  {
  }
}
