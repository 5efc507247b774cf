/**
 The execution table with its unique constraints, and materialization as it runs: rows
 are looked up, inserted and repaired in place, and an insert into an occupied slot fails.
 */
module MaterializationStore {
  import opened Core
  import opened Lifecycle
  import opened Schedules
  import opened Materialization
  import opened MaterializationLaws
  import opened MaterializationPasses

  type Rows = map<Id, Row>

  predicate InSlot(r: Row, slot: Slot) { SlotOf(r.execution) == Some(slot) }

  /** The two partial unique constraints of the table. */
  ghost predicate Unique(rows: Rows) {
    forall i, j :: i in rows && j in rows && Clash(rows[i], rows[j]) ==> i == j
  }

  predicate Clash(a: Row, b: Row) {
    SlotOf(a.execution).Some? && SlotOf(a.execution) == SlotOf(b.execution)
  }

  ghost predicate Occupied(rows: Rows, slot: Slot) {
    exists i :: i in rows && InSlot(rows[i], slot)
  }

  ghost function Holder(rows: Rows, slot: Slot): (id: Id)
    requires Occupied(rows, slot)
    ensures id in rows && InSlot(rows[id], slot)
  {
    var id :| id in rows && InSlot(rows[id], slot);
    id
  }

  ghost function SlotsOf(rows: Rows): set<Slot> {
    set i | i in rows && SlotOf(rows[i].execution).Some? :: SlotOf(rows[i].execution).value
  }

  lemma SlotsAreOccupied(rows: Rows, slot: Slot)
    ensures slot in SlotsOf(rows) <==> Occupied(rows, slot)
  {
    if Occupied(rows, slot) {
      var i :| i in rows && InSlot(rows[i], slot);
      assert SlotOf(rows[i].execution).value == slot;
    }
  }

  /** The table through its slots. */
  ghost function ViewOf(rows: Rows): View {
    map slot | slot in SlotsOf(rows) :: (SlotsAreOccupied(rows, slot); rows[Holder(rows, slot)])
  }

  lemma ViewGet(rows: Rows, slot: Slot)
    ensures slot in ViewOf(rows) <==> Occupied(rows, slot)
    ensures Occupied(rows, slot) ==> ViewOf(rows)[slot] == rows[Holder(rows, slot)]
  {
    SlotsAreOccupied(rows, slot);
  }

  /** Only one row holds a slot, so any row found in it is the one the view shows. */
  lemma ViewHolds(rows: Rows, i: Id, slot: Slot)
    requires Unique(rows) && i in rows && InSlot(rows[i], slot)
    ensures Get(ViewOf(rows), slot) == Some(rows[i])
  {
    assert Occupied(rows, slot);
    ViewGet(rows, slot);
    assert Clash(rows[i], rows[Holder(rows, slot)]);
  }

  lemma ViewLacks(rows: Rows, slot: Slot)
    requires !Occupied(rows, slot)
    ensures Get(ViewOf(rows), slot) == None
  {
    ViewGet(rows, slot);
  }

  /** A row may be written under its own key, or under a new one when the slot is free. */
  ghost predicate Writable(rows: Rows, id: Id, slot: Slot) {
    forall i :: i in rows && InSlot(rows[i], slot) ==> i == id
  }

  lemma UniquePut(rows: Rows, id: Id, slot: Slot, r: Row)
    requires Unique(rows) && InSlot(r, slot) && Writable(rows, id, slot)
    ensures Unique(rows[id := r])
  {
    var next := rows[id := r];
    forall i | i in rows && i != id ensures !Clash(rows[i], r) && !Clash(r, rows[i]) {
      assert !InSlot(rows[i], slot);
    }
    forall i, j | i in next && j in next && Clash(next[i], next[j]) ensures i == j {
      assert (i == id || next[i] == rows[i]) && (j == id || next[j] == rows[j]);
    }
  }

  lemma ViewPut(rows: Rows, id: Id, slot: Slot, r: Row)
    requires Unique(rows) && InSlot(r, slot) && Writable(rows, id, slot)
    requires id in rows ==> InSlot(rows[id], slot)
    ensures Unique(rows[id := r]) && ViewOf(rows[id := r]) == ViewOf(rows)[slot := r]
  {
    UniquePut(rows, id, slot, r);
    var a, b := ViewOf(rows[id := r]), ViewOf(rows)[slot := r];
    forall s: Slot ensures Get(a, s) == Get(b, s) {
      ViewPutAt(rows, id, slot, r, s);
    }
    GetExtensional(a, b);
  }

  lemma ViewPutAt(rows: Rows, id: Id, slot: Slot, r: Row, s: Slot)
    requires Unique(rows) && InSlot(r, slot) && Writable(rows, id, slot) && Unique(rows[id := r])
    requires id in rows ==> InSlot(rows[id], slot)
    ensures Get(ViewOf(rows[id := r]), s) == Get(ViewOf(rows)[slot := r], s)
  {
    var next := rows[id := r];
    if s == slot {
      ViewHolds(next, id, slot);
    } else if Occupied(rows, s) {
      var i := Holder(rows, s);
      assert i != id && rows[i] == next[i];
      ViewHolds(rows, i, s);
      ViewHolds(next, i, s);
    } else {
      forall i | i in next ensures !InSlot(next[i], s) {
        assert i == id || next[i] == rows[i];
      }
      ViewLacks(rows, s);
      ViewLacks(next, s);
    }
  }

  lemma GetExtensional(a: View, b: View)
    requires forall s: Slot :: Get(a, s) == Get(b, s)
    ensures a == b
  {
    forall s: Slot ensures s in a <==> s in b ensures s in a && s in b ==> a[s] == b[s] {
      assert Get(a, s) == Get(b, s);
    }
  }

  lemma CreatedInSlot(z: Zone, v: Visit, assignees: seq<Assignee>, c: Clock)
    requires v.who.None? == v.src.schedule.useSharedChronology
    ensures InSlot(Created(z, v.src, v.date, v.who, assignees, c), SlotFor(v))
  {
  }

  lemma OnlyWriter(rows: Rows, id: Id, slot: Slot)
    requires Unique(rows)
    requires if id in rows then InSlot(rows[id], slot) else !Occupied(rows, slot)
    ensures Writable(rows, id, slot)
  {
    forall i | i in rows && InSlot(rows[i], slot) ensures i == id {
      assert id in rows;
      assert Clash(rows[i], rows[id]);
    }
  }

  lemma WroteAt(rows: Rows, id: Id, slot: Slot, r: Row)
    requires Unique(rows) && InSlot(r, slot)
    requires if id in rows then InSlot(rows[id], slot) else !Occupied(rows, slot)
    ensures Unique(rows[id := r]) && Wrote(Ok(r), Ok(id), slot, rows, rows[id := r])
  {
    OnlyWriter(rows, id, slot);
    ViewPut(rows, id, slot, r);
    PutKeeps(rows, id, r);
    WroteRow(r, id, slot, rows, rows[id := r]);
  }

  lemma WroteRow(r: Row, id: Id, slot: Slot, before: Rows, after: Rows)
    requires id in after && after[id] == r && ViewOf(after) == ViewOf(before)[slot := r]
    requires forall i :: i in after <==> i in before || i == id
    requires forall i :: i in before && i != id ==> after[i] == before[i]
    requires Occupied(before, slot) ==> id in before
    ensures Wrote(Ok(r), Ok(id), slot, before, after)
  {
  }

  lemma PutKeeps(rows: Rows, id: Id, r: Row)
    ensures forall i :: i in rows[id := r] <==> i in rows || i == id
    ensures forall i :: i in rows && i != id ==> rows[id := r][i] == rows[i]
  {
  }

  lemma Seen(rows: Rows, found: Option<Id>, slot: Slot)
    requires Unique(rows)
    requires if found.Some? then found.value in rows && InSlot(rows[found.value], slot) else !Occupied(rows, slot)
    ensures Get(ViewOf(rows), slot) == if found.Some? then Some(rows[found.value]) else None
  {
    if found.Some? {
      ViewHolds(rows, found.value, slot);
    } else {
      ViewLacks(rows, slot);
    }
  }

  class Table {
    var rows: Rows
    var nextId: Id

    ghost predicate Valid()
      reads this
    {
      Unique(rows) && forall i :: i in rows ==> i < nextId
    }

    constructor ()
      ensures Valid() && rows == map[]
    {
      rows := map[];
      nextId := 0;
    }

    method Find(slot: Slot) returns (found: Option<Id>)
      ensures found.Some? ==> found.value in rows && InSlot(rows[found.value], slot)
      ensures found.None? ==> !Occupied(rows, slot)
    {
      if i :| i in rows && InSlot(rows[i], slot) {
        return Some(i);
      }
      return None;
    }

    /** Child rows are added to a stored execution; a missing team raises and undoes what was added. */
    method EnsureStructure(id: Id, src: Source, assignees: seq<Assignee>) returns (r: Result<(), Failure>)
      requires id in rows
      modifies this`rows
      ensures r == match Ensured(src, old(rows[id]), assignees) { case Ok(_) => Ok(()) case Err(f) => Err(f) }
      ensures rows == if r.Ok? then old(rows)[id := Ensured(src, old(rows[id]), assignees).value] else old(rows)
    {
      var row := rows[id];
      if row.tasks != [] && row.assignees != [] {
        assert rows[id := row] == rows;
        return Ok(());
      }
      if row.teams == {} {
        row := row.(teams := {src.pilot} + TaskUnits(src.tasks) + AssigneeUnits(assignees));
        row := row.(assignees := row.assignees + assignees);
        row := row.(tasks := row.tasks + src.tasks);
        rows := rows[id := row];
        return Ok(());
      }
      if row.assignees == [] {
        if !(AssigneeUnits(assignees) <= row.teams) {
          return Err(NoTeam);
        }
        row := row.(assignees := assignees);
      }
      if row.tasks == [] {
        if !(TaskUnits(src.tasks) <= row.teams) {
          return Err(NoTeam);
        }
        row := row.(tasks := src.tasks);
      }
      rows := rows[id := row];
      return Ok(());
    }

    /** The assignees of one execution, or the error validation raises. */
    method ResolveAssignees(src: Source, who: Option<Assignee>) returns (r: Result<seq<Assignee>, Failure>)
      ensures r == AssigneesFor(src, who)
    {
      var s := src.schedule;
      if who.None? != s.useSharedChronology {
        return Err(Invalid);
      }
      if !s.active || s.weekdays == {} || !src.offered {
        return Err(Invalid);
      }
      var base := if who.Some? then [who.value] else s.assignees;
      if base == [] {
        return Err(Invalid);
      }
      var merged := MergeTaskAssignees(src.tasks, base);
      if exists i :: 0 <= i < |merged| && merged[i] !in src.covers {
        return Err(Invalid);
      }
      return Ok(merged);
    }

    /** Repairs the row found in a slot, after bringing it back when its schedule may; an error undoes both. */
    method Repair(z: Zone, id: Id, v: Visit, assignees: seq<Assignee>, checkedAt: Time, now: Time)
      returns (r: Result<Id, Failure>)
      requires Valid() && id in rows && InSlot(rows[id], SlotFor(v))
      modifies this`rows
      ensures Valid()
      ensures Wrote(Ensured(v.src, Revived(z, v.src.schedule, old(rows[id]), checkedAt, now), assignees),
                    r, SlotFor(v), old(rows), rows)
    {
      var before := rows;
      var row := rows[id];
      if CanReactivate(v.src.schedule, row.execution, checkedAt) {
        var w := Occurrence(z, v.src.schedule, row.execution.occurrenceDate.value);
        row := row.(execution := Reactivate(row.execution, w, now));
      }
      rows := rows[id := row];
      var ensured := EnsureStructure(id, v.src, assignees);
      if ensured.Err? {
        rows := before;
        return Err(ensured.error);
      }
      assert rows == before[id := rows[id]];
      WroteAt(before, id, SlotFor(v), rows[id]);
      return Ok(id);
    }

    method Materialize(z: Zone, v: Visit, knownMissing: bool, c: Clock) returns (r: Result<Id, Failure>)
      requires Valid()
      modifies this
      ensures Valid() && Wrote(Wanted(z, v, knownMissing, old(rows), c), r, SlotFor(v), old(rows), rows)
    {
      var resolved := ResolveAssignees(v.src, v.who);
      if resolved.Err? {
        return Err(resolved.error);
      }
      var assignees := resolved.value;
      if knownMissing {
        r := InsertOrRepair(z, v, assignees, c.checkedAt, c.writtenAt, c);
        return;
      }
      var found := Find(SlotFor(v));
      Seen(rows, found, SlotFor(v));
      if found.Some? && (Active(rows[found.value]) || CanReactivate(v.src.schedule, rows[found.value].execution, c.checkedAt)) {
        r := Repair(z, found.value, v, assignees, c.checkedAt, c.writtenAt);
      } else {
        r := InsertOrRepair(z, v, assignees, c.recheckedAt, c.rewrittenAt, c);
      }
    }

    /** A collision with the unique constraint is answered by repairing the row that holds the slot. */
    method InsertOrRepair(z: Zone, v: Visit, assignees: seq<Assignee>, checkedAt: Time, now: Time, c: Clock)
      returns (r: Result<Id, Failure>)
      requires Valid() && (v.who.None? <==> v.src.schedule.useSharedChronology)
      modifies this
      ensures Valid()
      ensures Wrote(Inserted(z, v.src, v.date, v.who, assignees, Get(ViewOf(old(rows)), SlotFor(v)), checkedAt, now, c),
                    r, SlotFor(v), old(rows), rows)
    {
      if !Creatable(DraftOf(z, v.src, v.date, v.who)) {
        return Err(Invalid);
      }
      var holder := Find(SlotFor(v));
      Seen(rows, holder, SlotFor(v));
      if holder.Some? {
        r := Repair(z, holder.value, v, assignees, checkedAt, now);
      } else {
        var id := Insert(z, v, assignees, c);
        r := Ok(id);
      }
    }

    method Insert(z: Zone, v: Visit, assignees: seq<Assignee>, c: Clock) returns (id: Id)
      requires Valid() && (v.who.None? <==> v.src.schedule.useSharedChronology)
      requires !Occupied(rows, SlotFor(v))
      modifies this
      ensures Valid()
      ensures Wrote(Ok(Created(z, v.src, v.date, v.who, assignees, c)), Ok(id), SlotFor(v), old(rows), rows)
    {
      id := nextId;
      ghost var before := rows;
      var execution := NewExecution(DraftOf(z, v.src, v.date, v.who), c.insertedAt, c.createdAt);
      rows := rows[id := Row(execution, {}, [], [])];
      nextId := nextId + 1;
      var ensured := EnsureStructure(id, v.src, assignees);
      assert rows == before[id := rows[id]];
      CreatedInSlot(z, v, assignees, c);
      WroteAt(before, id, SlotFor(v), rows[id]);
    }

    /** Reads the table once, grouped by slot. */
    method ReadSlots() returns (view: View)
      requires Valid()
      ensures view == ViewOf(rows)
    {
      view := map[];
      var todo := set i | i in rows;
      ghost var seen: Rows := map[];
      assert view == ViewOf(seen);
      while todo != {}
        invariant Split(seen, todo, rows) && view == ViewOf(seen)
        decreases |todo|
      {
        var i :| i in todo;
        ViewGrows(seen, todo, rows, i);
        view := WithRow(view, rows[i]);
        todo, seen := todo - {i}, seen[i := rows[i]];
      }
      assert seen == rows;
    }

    method MaterializeVisit(z: Zone, v: Visit, mode: Mode, clock: Slot -> Clock,
                            ghost run: Runner, ghost start: View, ghost done: seq<Visit>)
      returns (failure: Option<Failure>)
      requires Valid() && Runs(run, z, mode, clock) && Stands(run, start, done, rows, v.src.schedule.id, None)
      requires mode.Fast? ==> !DateSettled(v.src, v.date, mode.snapshot)
      modifies this
      ensures Valid() && Stands(run, start, done + [v], rows, v.src.schedule.id, failure)
    {
      ghost var before := rows;
      var r := Materialize(z, v, mode.Fast? && SlotFor(v) !in mode.snapshot, clock(SlotFor(v)));
      WroteIsVisited(z, mode, clock, run, start, done, v, before, r, rows);
      failure := if r.Ok? then None else Some(r.error);
    }

    /** The executions one date requires, one after the other; the first error ends the date. */
    method MaterializeDate(z: Zone, src: Source, d: Date, mode: Mode, clock: Slot -> Clock,
                           ghost run: Runner, ghost start: View, ghost done: seq<Visit>)
      returns (failure: Option<Failure>, count: nat)
      requires Valid() && Runs(run, z, mode, clock) && Stands(run, start, done, rows, src.schedule.id, None)
      requires mode.Fast? ==> !DateSettled(src, d, mode.snapshot)
      modifies this
      ensures Valid() && Stands(run, start, done + DateVisits(src, d), rows, src.schedule.id, failure)
      ensures failure.None? ==> count == |Whos(src)|
    {
      failure, count := MaterializeEach(z, src, d, Whos(src), mode, clock, run, start, done, DateVisits(src, d));
    }

    method MaterializeEach(z: Zone, src: Source, d: Date, whos: seq<Option<Assignee>>, mode: Mode, clock: Slot -> Clock,
                           ghost run: Runner, ghost start: View, ghost done: seq<Visit>, ghost visits: seq<Visit>)
      returns (failure: Option<Failure>, count: nat)
      requires Valid() && Runs(run, z, mode, clock) && Stands(run, start, done, rows, src.schedule.id, None)
      requires mode.Fast? ==> !DateSettled(src, d, mode.snapshot)
      requires |visits| == |whos| && forall i :: 0 <= i < |visits| ==> visits[i] == Visit(src, d, whos[i])
      modifies this
      ensures Valid() && Stands(run, start, done + visits, rows, src.schedule.id, failure)
      ensures failure.None? ==> count == |whos|
    {
      failure, count := None, 0;
      assert done + visits[..0] == done;
      while count < |whos| && failure.None?
        invariant count <= |whos| && Valid()
        invariant Stands(run, start, done + visits[..count], rows, src.schedule.id, failure)
      {
        VisitsUpto(done, visits, count);
        failure := MaterializeVisit(z, Visit(src, d, whos[count]), mode, clock, run, start, done + visits[..count]);
        count := count + 1;
      }
      VisitsSkipped(run, start, done, visits, count, rows, src.schedule.id, failure);
    }

    /** The calendar passes over a date its reading calls settled. */
    method MaterializeUnlessSettled(z: Zone, src: Source, d: Date, mode: Mode, clock: Slot -> Clock,
                                    ghost run: Runner, ghost start: View, ghost done: seq<Visit>)
      returns (failure: Option<Failure>, count: nat)
      requires Valid() && Runs(run, z, mode, clock) && Stands(run, start, done, rows, src.schedule.id, None)
      modifies this
      ensures Valid() && Stands(run, start, done + DateVisits(src, d), rows, src.schedule.id, failure)
      ensures failure.None? ==> count == DateCount(mode, src, d)
    {
      if mode.Fast? && DateSettled(src, d, mode.snapshot) {
        SettledSkips(run, z, mode.snapshot, clock, start, done, DateVisits(src, d), src, d);
        return None, 0;
      }
      failure, count := MaterializeDate(z, src, d, mode, clock, run, start, done);
    }

    /** Every date of one schedule, up to the first error; the date of the error is not counted. */
    method MaterializeDates(z: Zone, src: Source, dates: seq<Date>, mode: Mode, clock: Slot -> Clock,
                            ghost run: Runner, ghost start: View, ghost done: seq<Visit>)
      returns (failure: Option<Failure>, count: nat)
      requires Valid() && Runs(run, z, mode, clock) && Stands(run, start, done, rows, src.schedule.id, None)
      modifies this
      ensures Valid() && Stands(run, start, done + SourceVisits(src, dates), rows, src.schedule.id, failure)
      ensures count == CountDates(run, start, done, src, dates, mode)
    {
      failure, count := None, 0;
      var k := 0;
      ghost var reached := done;
      SourceVisitsUpto(src, dates, done, 0);
      while k < |dates| && failure.None?
        invariant k <= |dates| && Valid()
        invariant reached == done + SourceVisits(src, dates[..k])
        invariant Stands(run, start, reached, rows, src.schedule.id, failure)
        invariant count == CountDates(run, start, done, src, dates[..k], mode)
      {
        var made;
        failure, made := MaterializeUnlessSettled(z, src, dates[k], mode, clock, run, start, reached);
        SourceVisitsUpto(src, dates, done, k);
        CountNext(run, start, done, src, dates, mode, k, rows, failure);
        reached := reached + DateVisits(src, dates[k]);
        if failure.None? {
          count := count + made;
        }
        k := k + 1;
      }
      CountEnds(run, start, done, src, dates, mode, k, rows, failure);
      RestSkipped(run, start, done, src, dates, k, rows, failure);
    }

    /**
     The calendar's read: dates before today are not filled in, a schedule stops at its first validation
     error, and any other error ends the pass.
     */
    method MaterializeWindow(z: Zone, sources: seq<Source>, today: Date, from: Date, until: Date, clock: Slot -> Clock)
      returns (r: Result<nat, Failure>)
      requires Valid() && DistinctSources(sources)
      modifies this
      ensures Valid()
      ensures var visits := WindowVisits(sources, Max(from, today), until);
              var pass := FastPass(z, ViewOf(old(rows)), visits, clock);
              ViewOf(rows) == pass.view && (r.Err? <==> pass.crashed)
      ensures r.Ok? ==>
                r.value == CountWindow(Running(z, Fast(ViewOf(old(rows))), clock), ViewOf(old(rows)), sources,
                                       Max(from, today), until, Fast(ViewOf(old(rows))))
    {
      var begin := Max(from, today);
      if until < begin {
        EmptyWindow(sources, begin, until);
        EmptyCounts(Running(z, Fast(ViewOf(rows)), clock), ViewOf(rows), sources, begin, until, Fast(ViewOf(rows)));
        return Ok(0);
      }
      var snapshot := ReadSlots();
      ghost var start, run := ViewOf(rows), Running(z, Fast(snapshot), clock);
      RunningRuns(z, Fast(snapshot), clock);
      var count, k, crashed := 0, 0, false;
      while k < |sources| && !crashed
        invariant k <= |sources| && Valid()
        invariant Reached(run, start, sources[..k], begin, until, rows, crashed)
        invariant count == CountWindow(run, start, sources[..k], begin, until, Fast(snapshot))
      {
        var made;
        crashed, made := MaterializeSource(z, sources, k, begin, until, snapshot, clock, run, start);
        CountWindowNext(run, start, sources, begin, until, Fast(snapshot), k);
        count := count + made;
        k := k + 1;
      }
      if crashed {
        CrashedSkips(run, start, sources, begin, until, k);
        return Err(NoTeam);
      }
      assert sources[..|sources|] == sources;
      return Ok(count);
    }

    /** One schedule of the window; only an error other than the service's own goes on. */
    method MaterializeSource(z: Zone, sources: seq<Source>, k: nat, from: Date, until: Date, snapshot: View,
                             clock: Slot -> Clock, ghost run: Runner, ghost start: View)
      returns (crashed: bool, count: nat)
      requires Valid() && DistinctSources(sources) && k < |sources| && Runs(run, z, Fast(snapshot), clock)
      requires Reached(run, start, sources[..k], from, until, rows, false)
      modifies this
      ensures Valid() && Reached(run, start, sources[..k + 1], from, until, rows, crashed)
      ensures count == CountDates(run, start, WindowVisits(sources[..k], from, until), sources[k],
                                  OccurrenceDates(sources[k].schedule, from, until), Fast(snapshot))
    {
      var src := sources[k];
      ghost var done := WindowVisits(sources[..k], from, until);
      var dates := IterOccurrenceDates(src.schedule, from, until);
      WindowVisitsUpto(sources, from, until, k);
      if dates.Err? {
        NoWeekdaysNoDates(src.schedule, from, until);
        assert done + SourceVisits(src, []) == done;
        return false, 0;
      }
      ReachedStands(run, start, sources, k, from, until, rows);
      var failed;
      failed, count := MaterializeDates(z, src, dates.value, Fast(snapshot), clock, run, start, done);
      StandsReached(run, start, sources, k, from, until, rows, failed);
      crashed := failed == Some(NoTeam);
    }

    /** The horizon pass of one schedule; the first error ends it. */
    method MaterializeHorizon(z: Zone, src: Source, today: Date, days: nat, visibleOnly: bool, now: Time, clock: Slot -> Clock)
      returns (r: Result<nat, Failure>)
      requires Valid() && DistinctMembers(src.schedule.assignees)
      modifies this
      ensures Valid()
      ensures !src.schedule.active ==> r == Ok(0) && rows == old(rows)
      ensures src.schedule.active && src.schedule.weekdays == {} ==> r == Err(Invalid) && rows == old(rows)
      ensures src.schedule.active && src.schedule.weekdays != {} ==>
                var pass := SlowPass(z, ViewOf(old(rows)), HorizonVisits(z, src, today, days, visibleOnly, now), clock);
                ViewOf(rows) == pass.view && (r.Ok? <==> pass.Clean())
      ensures r.Ok? && src.schedule.active ==> r.value == |HorizonVisits(z, src, today, days, visibleOnly, now)|
      ensures r.Ok? && src.schedule.active ==>
                forall d, who :: InHorizon(z, src, d, today, days, visibleOnly, now) && who in Whos(src) ==>
                  ExactlyOne(rows, Slot(src.schedule.id, d, MemberOf(who)))
    {
      if !src.schedule.active {
        return Ok(0);
      }
      var dates := IterOccurrenceDates(src.schedule, today, today + days);
      if dates.Err? {
        return Err(Invalid);
      }
      var kept: seq<Date> := [];
      for k := 0 to |dates.value|
        invariant kept == Kept(z, src, dates.value[..k], visibleOnly, now)
      {
        assert dates.value[..k + 1][..k] == dates.value[..k];
        if visibleOnly && !IsVisible(z, src, dates.value[k], now) {
          continue;
        }
        kept := kept + [dates.value[k]];
      }
      assert dates.value[..|dates.value|] == dates.value;
      ghost var start, run := ViewOf(rows), Running(z, Slow, clock);
      RunningRuns(z, Slow, clock);
      var failed, count := MaterializeDates(z, src, kept, Slow, clock, run, start, []);
      ghost var visits := HorizonVisits(z, src, today, days, visibleOnly, now);
      assert [] + SourceVisits(src, kept) == visits;
      SourceVisitsAre(src, kept);
      if failed.Some? {
        return Err(failed.value);
      }
      OnlyItsScheduleBlocks(run, start, visits, src);
      UnstoppedCounts(run, start, [], src, kept, Slow);
      AllUnsettled(visits);
      forall d, who | InHorizon(z, src, d, today, days, visibleOnly, now) && who in Whos(src)
        ensures ExactlyOne(rows, Slot(src.schedule.id, d, MemberOf(who)))
      {
        HorizonCovers(z, start, src, today, days, visibleOnly, now, clock, d, who);
        ShownIsOne(rows, Slot(src.schedule.id, d, MemberOf(who)));
      }
      return Ok(count);
    }
  }

  /** The table shows what the pass has computed so far, and how one schedule stands in it. */
  ghost predicate Stands(run: Runner, start: View, done: seq<Visit>, rows: Rows, schedule: Id, failure: Option<Failure>) {
    var pass := Sweep(run, start, done);
    ViewOf(rows) == pass.view && Ended(pass, schedule, failure)
  }

  ghost predicate Reached(run: Runner, start: View, sources: seq<Source>, from: Date, until: Date, rows: Rows, crashed: bool) {
    var pass := Sweep(run, start, WindowVisits(sources, from, until));
    ViewOf(rows) == pass.view && pass.crashed == crashed
  }

  /** What handling one date adds to the count: nothing when the reading calls it settled. */
  function DateCount(mode: Mode, src: Source, d: Date): nat {
    if mode.Fast? && DateSettled(src, d, mode.snapshot) then 0 else |Whos(src)|
  }

  /** A date counts unless its schedule has stopped by its end. */
  function CountDates(run: Runner, start: View, done: seq<Visit>, src: Source, dates: seq<Date>, mode: Mode): nat {
    if dates == [] then 0
    else
      var n := |dates| - 1;
      CountDates(run, start, done, src, dates[..n], mode)
      + if Stopped(Sweep(run, start, done + SourceVisits(src, dates)), src.schedule.id) then 0 else DateCount(mode, src, dates[n])
  }

  function CountWindow(run: Runner, start: View, sources: seq<Source>, from: Date, until: Date, mode: Mode): nat {
    if sources == [] then 0
    else
      var n := |sources| - 1;
      CountWindow(run, start, sources[..n], from, until, mode)
      + CountDates(run, start, WindowVisits(sources[..n], from, until), sources[n],
                   OccurrenceDates(sources[n].schedule, from, until), mode)
  }

  lemma CountNext(run: Runner, start: View, done: seq<Visit>, src: Source, dates: seq<Date>, mode: Mode, k: nat,
                  rows: Rows, failure: Option<Failure>)
    requires k < |dates|
    requires Stands(run, start, done + SourceVisits(src, dates[..k]) + DateVisits(src, dates[k]), rows, src.schedule.id, failure)
    ensures CountDates(run, start, done, src, dates[..k + 1], mode)
            == CountDates(run, start, done, src, dates[..k], mode) + if failure.None? then DateCount(mode, src, dates[k]) else 0
  {
    assert dates[..k + 1][..k] == dates[..k];
    SourceVisitsUpto(src, dates, done, k);
  }

  lemma StaysStopped(run: Runner, start: View, done: seq<Visit>, src: Source, dates: seq<Date>, k: nat)
    requires k <= |dates| && Stopped(Sweep(run, start, done + SourceVisits(src, dates[..k])), src.schedule.id)
    ensures Stopped(Sweep(run, start, done + SourceVisits(src, dates)), src.schedule.id)
  {
    var rest := SourceVisitsRest(src, dates, k, done);
    StoppedSkips(run, start, done + SourceVisits(src, dates[..k]), rest, src.schedule.id);
  }

  lemma {:induction false} StoppedCounts(run: Runner, start: View, done: seq<Visit>, src: Source, dates: seq<Date>, mode: Mode, k: nat)
    requires k <= |dates| && Stopped(Sweep(run, start, done + SourceVisits(src, dates[..k])), src.schedule.id)
    ensures CountDates(run, start, done, src, dates, mode) == CountDates(run, start, done, src, dates[..k], mode)
    decreases |dates|
  {
    if k == |dates| {
      assert dates[..k] == dates;
    } else {
      assert dates[..|dates| - 1][..k] == dates[..k];
      StoppedCounts(run, start, done, src, dates[..|dates| - 1], mode, k);
      StaysStopped(run, start, done, src, dates, k);
    }
  }

  lemma CountEnds(run: Runner, start: View, done: seq<Visit>, src: Source, dates: seq<Date>, mode: Mode, k: nat,
                  rows: Rows, failure: Option<Failure>)
    requires k <= |dates| && (failure.None? ==> k == |dates|)
    requires Stands(run, start, done + SourceVisits(src, dates[..k]), rows, src.schedule.id, failure)
    ensures CountDates(run, start, done, src, dates, mode) == CountDates(run, start, done, src, dates[..k], mode)
  {
    if failure.None? {
      assert dates[..k] == dates;
    } else {
      StoppedCounts(run, start, done, src, dates, mode, k);
    }
  }

  lemma CountWindowNext(run: Runner, start: View, sources: seq<Source>, from: Date, until: Date, mode: Mode, k: nat)
    requires k < |sources|
    ensures CountWindow(run, start, sources[..k + 1], from, until, mode)
            == CountWindow(run, start, sources[..k], from, until, mode)
               + CountDates(run, start, WindowVisits(sources[..k], from, until), sources[k],
                            OccurrenceDates(sources[k].schedule, from, until), mode)
  {
    assert sources[..k + 1][..k] == sources[..k];
  }

  /** The slots among some visits that the reading did not call settled. */
  function Unsettled(visits: seq<Visit>, mode: Mode): nat {
    if visits == [] then 0
    else
      var last := visits[|visits| - 1];
      Unsettled(visits[..|visits| - 1], mode) + if mode.Fast? && DateSettled(last.src, last.date, mode.snapshot) then 0 else 1
  }

  lemma {:induction false} UnsettledAppend(a: seq<Visit>, b: seq<Visit>, mode: Mode)
    ensures Unsettled(a + b, mode) == Unsettled(a, mode) + Unsettled(b, mode)
  {
    if b == [] {
      assert a + b == a;
    } else {
      var front := b[..|b| - 1];
      assert (a + b)[..|a + b| - 1] == a + front;
      UnsettledAppend(a, front, mode);
    }
  }

  lemma {:induction false} UnsettledOfDate(visits: seq<Visit>, src: Source, d: Date, mode: Mode)
    requires forall i :: 0 <= i < |visits| ==> visits[i].src == src && visits[i].date == d
    ensures Unsettled(visits, mode) == if mode.Fast? && DateSettled(src, d, mode.snapshot) then 0 else |visits|
  {
    if visits != [] {
      UnsettledOfDate(visits[..|visits| - 1], src, d, mode);
    }
  }

  lemma {:induction false} AllUnsettled(visits: seq<Visit>)
    ensures Unsettled(visits, Slow) == |visits|
  {
    if visits != [] {
      AllUnsettled(visits[..|visits| - 1]);
    }
  }

  /** A schedule that is not stopped counts every slot the reading did not call settled. */
  lemma {:induction false} UnstoppedCounts(run: Runner, start: View, done: seq<Visit>, src: Source, dates: seq<Date>, mode: Mode)
    requires !Stopped(Sweep(run, start, done + SourceVisits(src, dates)), src.schedule.id)
    ensures CountDates(run, start, done, src, dates, mode) == Unsettled(SourceVisits(src, dates), mode)
  {
    if dates != [] {
      var front, d := dates[..|dates| - 1], dates[|dates| - 1];
      if Stopped(Sweep(run, start, done + SourceVisits(src, front)), src.schedule.id) {
        StaysStopped(run, start, done, src, dates, |front|);
      } else {
        UnstoppedCounts(run, start, done, src, front, mode);
        UnsettledAppend(SourceVisits(src, front), DateVisits(src, d), mode);
        UnsettledOfDate(DateVisits(src, d), src, d, mode);
      }
    }
  }

  lemma {:induction false} CleanBefore(run: Runner, start: View, done: seq<Visit>, rest: seq<Visit>)
    requires Sweep(run, start, done + rest).Clean()
    ensures Sweep(run, start, done).Clean()
  {
    if rest == [] {
      assert done + rest == done;
    } else {
      var n := |rest| - 1;
      assert (done + rest)[..|done| + n] == done + rest[..n];
      assert Sweep(run, start, done + rest[..n]).Clean();
      CleanBefore(run, start, done, rest[..n]);
    }
  }

  /** A window pass without errors returns the number of slots its reading did not call settled. */
  lemma {:induction false} CleanCounts(run: Runner, start: View, sources: seq<Source>, from: Date, until: Date, mode: Mode)
    requires Sweep(run, start, WindowVisits(sources, from, until)).Clean()
    ensures CountWindow(run, start, sources, from, until, mode) == Unsettled(WindowVisits(sources, from, until), mode)
  {
    if sources != [] {
      var n := |sources| - 1;
      var done, dates := WindowVisits(sources[..n], from, until), OccurrenceDates(sources[n].schedule, from, until);
      CleanBefore(run, start, done, SourceVisits(sources[n], dates));
      CleanCounts(run, start, sources[..n], from, until, mode);
      UnstoppedCounts(run, start, done, sources[n], dates, mode);
      UnsettledAppend(done, SourceVisits(sources[n], dates), mode);
    }
  }

  lemma StandsSkip(run: Runner, start: View, done: seq<Visit>, rest: seq<Visit>, rows: Rows, schedule: Id, failure: Option<Failure>)
    requires Stands(run, start, done, rows, schedule, failure) && failure.Some?
    requires forall i :: 0 <= i < |rest| ==> rest[i].src.schedule.id == schedule
    ensures Stands(run, start, done + rest, rows, schedule, failure)
  {
    StoppedSkips(run, start, done, rest, schedule);
  }

  lemma SourceVisitsRest(src: Source, dates: seq<Date>, k: nat, done: seq<Visit>) returns (rest: seq<Visit>)
    requires k <= |dates|
    ensures done + SourceVisits(src, dates[..k]) + rest == done + SourceVisits(src, dates)
    ensures forall i :: 0 <= i < |rest| ==> rest[i].src == src
  {
    SourceVisitsSplit(src, dates, k);
    SourceVisitsAre(src, dates);
    var early, all := SourceVisits(src, dates[..k]), SourceVisits(src, dates);
    rest := all[|early|..];
    assert early + rest == all;
  }

  lemma RestSkipped(run: Runner, start: View, done: seq<Visit>, src: Source, dates: seq<Date>, k: nat,
                    rows: Rows, failure: Option<Failure>)
    requires k <= |dates| && (failure.None? ==> k == |dates|)
    requires Stands(run, start, done + SourceVisits(src, dates[..k]), rows, src.schedule.id, failure)
    ensures Stands(run, start, done + SourceVisits(src, dates), rows, src.schedule.id, failure)
  {
    if failure.None? {
      assert dates[..k] == dates;
    } else {
      var rest := SourceVisitsRest(src, dates, k, done);
      StandsSkip(run, start, done + SourceVisits(src, dates[..k]), rest, rows, src.schedule.id, failure);
    }
  }

  lemma VisitsSkipped(run: Runner, start: View, done: seq<Visit>, visits: seq<Visit>, k: nat,
                      rows: Rows, schedule: Id, failure: Option<Failure>)
    requires k <= |visits| && (failure.None? ==> k == |visits|)
    requires forall i :: 0 <= i < |visits| ==> visits[i].src.schedule.id == schedule
    requires Stands(run, start, done + visits[..k], rows, schedule, failure)
    ensures Stands(run, start, done + visits, rows, schedule, failure)
  {
    if failure.None? {
      assert visits[..k] == visits;
    } else {
      StandsSkip(run, start, done + visits[..k], visits[k..], rows, schedule, failure);
      assert done + visits[..k] + visits[k..] == done + visits;
    }
  }

  lemma VisitsUpto(done: seq<Visit>, visits: seq<Visit>, k: nat)
    requires k < |visits|
    ensures done + visits[..k + 1] == done + visits[..k] + [visits[k]]
  {
    assert visits[..k + 1] == visits[..k] + [visits[k]];
  }

  lemma SourceVisitsUpto(src: Source, dates: seq<Date>, done: seq<Visit>, k: nat)
    requires k <= |dates|
    ensures done + SourceVisits(src, dates[..0]) == done
    ensures k < |dates| ==>
              done + SourceVisits(src, dates[..k + 1]) == done + SourceVisits(src, dates[..k]) + DateVisits(src, dates[k])
  {
    if k < |dates| {
      assert dates[..k + 1][..k] == dates[..k];
    }
  }

  lemma WindowVisitsUpto(sources: seq<Source>, from: Date, until: Date, k: nat)
    requires k < |sources|
    ensures WindowVisits(sources[..k + 1], from, until) ==
            WindowVisits(sources[..k], from, until)
            + SourceVisits(sources[k], OccurrenceDates(sources[k].schedule, from, until))
  {
    assert sources[..k + 1][..k] == sources[..k];
  }

  lemma ReachedStands(run: Runner, start: View, sources: seq<Source>, k: nat, from: Date, until: Date, rows: Rows)
    requires DistinctSources(sources) && k < |sources|
    requires Reached(run, start, sources[..k], from, until, rows, false)
    ensures Stands(run, start, WindowVisits(sources[..k], from, until), rows, sources[k].schedule.id, None)
  {
    FreshIsUnblocked(run, start, sources, from, until, k);
  }

  lemma StandsReached(run: Runner, start: View, sources: seq<Source>, k: nat, from: Date, until: Date,
                      rows: Rows, failure: Option<Failure>)
    requires k < |sources|
    requires Stands(run, start,
                    WindowVisits(sources[..k], from, until)
                    + SourceVisits(sources[k], OccurrenceDates(sources[k].schedule, from, until)),
                    rows, sources[k].schedule.id, failure)
    ensures Reached(run, start, sources[..k + 1], from, until, rows, failure == Some(NoTeam))
  {
    WindowVisitsUpto(sources, from, until, k);
    StandsCrashed(run, start, WindowVisits(sources[..k + 1], from, until), rows, sources[k].schedule.id, failure);
  }

  lemma StandsCrashed(run: Runner, start: View, done: seq<Visit>, rows: Rows, schedule: Id, failure: Option<Failure>)
    requires Stands(run, start, done, rows, schedule, failure)
    ensures ViewOf(rows) == Sweep(run, start, done).view
    ensures Sweep(run, start, done).crashed == (failure == Some(NoTeam))
  {
  }

  /** The rows read so far, and those still to read. */
  ghost predicate Split(seen: Rows, todo: set<Id>, rows: Rows) {
    && (forall i :: i in rows <==> i in seen || i in todo)
    && (forall i :: i in todo ==> i !in seen)
    && (forall i :: i in seen ==> i in rows && seen[i] == rows[i])
  }

  lemma PartIsUnique(seen: Rows, todo: set<Id>, rows: Rows)
    requires Unique(rows) && Split(seen, todo, rows)
    ensures Unique(seen)
  {
    forall a, b | a in seen && b in seen && Clash(seen[a], seen[b]) ensures a == b {
      assert Clash(rows[a], rows[b]);
    }
  }

  function WithRow(view: View, r: Row): View {
    var slot := SlotOf(r.execution);
    if slot.Some? then view[slot.value := r] else view
  }

  lemma ViewGrows(seen: Rows, todo: set<Id>, rows: Rows, i: Id)
    requires Unique(rows) && Split(seen, todo, rows) && i in todo
    ensures Split(seen[i := rows[i]], todo - {i}, rows)
    ensures ViewOf(seen[i := rows[i]]) == WithRow(ViewOf(seen), rows[i])
  {
    SplitGrows(seen, todo, rows, i);
    PartIsUnique(seen, todo, rows);
    ViewAdd(seen, i, rows[i], rows);
  }

  lemma SplitGrows(seen: Rows, todo: set<Id>, rows: Rows, i: Id)
    requires Split(seen, todo, rows) && i in todo
    ensures Split(seen[i := rows[i]], todo - {i}, rows)
  {
  }

  lemma ViewAdd(seen: Rows, i: Id, r: Row, rows: Rows)
    requires Unique(rows) && Unique(seen) && i !in seen && i in rows && r == rows[i]
    requires forall a :: a in seen ==> a in rows && seen[a] == rows[a]
    ensures ViewOf(seen[i := r]) == WithRow(ViewOf(seen), r)
  {
    var slot := SlotOf(r.execution);
    if slot.Some? {
      forall a | a in seen && InSlot(seen[a], slot.value) ensures a == i {
        assert Clash(rows[a], rows[i]);
      }
      ViewPut(seen, i, slot.value, r);
    } else {
      SlotlessIsUnseen(seen, i, r);
    }
  }

  ghost predicate Ended(pass: Pass, schedule: Id, failure: Option<Failure>) {
    match failure
    case None => !Stopped(pass, schedule)
    case Some(Invalid) => !pass.crashed && schedule in pass.blocked
    case Some(NoTeam) => pass.crashed
  }

  ghost predicate ExactlyOne(rows: Rows, slot: Slot) {
    exists i :: i in rows && InSlot(rows[i], slot) && forall j :: j in rows && InSlot(rows[j], slot) ==> j == i
  }

  lemma ShownIsOne(rows: Rows, slot: Slot)
    requires Unique(rows) && slot in ViewOf(rows)
    ensures ExactlyOne(rows, slot)
  {
    ViewGet(rows, slot);
    var i := Holder(rows, slot);
    forall j | j in rows && InSlot(rows[j], slot) ensures j == i {
      assert Clash(rows[i], rows[j]);
    }
  }

  lemma SlotlessIsUnseen(rows: Rows, id: Id, r: Row)
    requires Unique(rows) && SlotOf(r.execution).None? && id !in rows
    ensures Unique(rows[id := r]) && ViewOf(rows[id := r]) == ViewOf(rows)
  {
    var next := rows[id := r];
    forall i, j | i in next && j in next && Clash(next[i], next[j]) ensures i == j {
      assert i != id && j != id;
      assert Clash(rows[i], rows[j]);
    }
    var a, b := ViewOf(next), ViewOf(rows);
    forall s: Slot ensures Get(a, s) == Get(b, s) {
      if Occupied(rows, s) {
        var i := Holder(rows, s);
        assert next[i] == rows[i];
        ViewHolds(rows, i, s);
        ViewHolds(next, i, s);
      } else {
        forall i | i in next ensures !InSlot(next[i], s) {
          assert i == id || next[i] == rows[i];
        }
        ViewLacks(rows, s);
        ViewLacks(next, s);
      }
    }
    GetExtensional(a, b);
  }

  /** One materialization of the table is one visit of the pass. */
  lemma WroteIsVisited(z: Zone, mode: Mode, clock: Slot -> Clock, run: Runner, start: View, done: seq<Visit>, v: Visit,
                       before: Rows, r: Result<Id, Failure>, after: Rows)
    requires Runs(run, z, mode, clock) && Stands(run, start, done, before, v.src.schedule.id, None)
    requires mode.Fast? ==> !DateSettled(v.src, v.date, mode.snapshot)
    requires Wrote(Wanted(z, v, mode.Fast? && SlotFor(v) !in mode.snapshot, before, clock(SlotFor(v))), r, SlotFor(v), before, after)
    ensures Stands(run, start, done + [v], after, v.src.schedule.id, if r.Ok? then None else Some(r.error))
  {
    assert (done + [v])[..|done|] == done;
    var prior := Sweep(run, start, done);
    var current := Get(prior.view, SlotFor(v));
    assert run(v, current) == Outcome(z, mode, v, current, clock(SlotFor(v)));
  }

  lemma {:induction false} SourceVisitsSplit(src: Source, dates: seq<Date>, k: nat)
    requires k <= |dates|
    ensures SourceVisits(src, dates[..k]) <= SourceVisits(src, dates)
  {
    if k == |dates| {
      assert dates[..k] == dates;
    } else {
      SourceVisitsSplit(src, dates[..|dates| - 1], k);
      assert dates[..|dates| - 1][..k] == dates[..k];
    }
  }

  lemma NoWeekdaysNoDates(s: Schedule, from: Date, until: Date)
    requires s.weekdays == {}
    ensures OccurrenceDates(s, from, until) == []
  {
    var dates := OccurrenceDates(s, from, until);
    assert dates == [] || dates[0] in dates;
    OccurrenceDatesExact(s, from, until);
  }

  lemma {:induction false} EmptyWindow(sources: seq<Source>, from: Date, until: Date)
    requires until < from
    ensures WindowVisits(sources, from, until) == []
  {
    if sources != [] {
      EmptyWindow(sources[..|sources| - 1], from, until);
      NoDates(sources[|sources| - 1].schedule, from, until);
    }
  }

  lemma NoDates(s: Schedule, from: Date, until: Date)
    requires until < from
    ensures OccurrenceDates(s, from, until) == []
  {
    var dates := OccurrenceDates(s, from, until);
    assert dates == [] || dates[0] in dates;
    OccurrenceDatesExact(s, from, until);
  }

  lemma {:induction false} EmptyCounts(run: Runner, start: View, sources: seq<Source>, from: Date, until: Date, mode: Mode)
    requires until < from
    ensures CountWindow(run, start, sources, from, until, mode) == 0
  {
    if sources != [] {
      EmptyCounts(run, start, sources[..|sources| - 1], from, until, mode);
      NoDates(sources[|sources| - 1].schedule, from, until);
    }
  }

  lemma {:induction false} CrashedSkips(run: Runner, view: View, sources: seq<Source>, from: Date, until: Date, k: nat)
    requires k <= |sources|
    requires Sweep(run, view, WindowVisits(sources[..k], from, until)).crashed
    ensures Sweep(run, view, WindowVisits(sources, from, until)) == Sweep(run, view, WindowVisits(sources[..k], from, until))
  {
    if k == |sources| {
      assert sources[..k] == sources;
    } else {
      var n := |sources| - 1;
      assert sources[..n][..k] == sources[..k] && sources[..n + 1] == sources;
      CrashedSkips(run, view, sources[..n], from, until, k);
      WindowVisitsUpto(sources, from, until, n);
      CrashStep(run, view, WindowVisits(sources[..n], from, until), sources[n],
                OccurrenceDates(sources[n].schedule, from, until));
    }
  }

  lemma CrashStep(run: Runner, view: View, done: seq<Visit>, src: Source, dates: seq<Date>)
    requires Sweep(run, view, done).crashed
    ensures Sweep(run, view, done + SourceVisits(src, dates)) == Sweep(run, view, done)
  {
    SourceVisitsAre(src, dates);
    StoppedSkips(run, view, done, SourceVisits(src, dates), src.schedule.id);
  }

  lemma OnlyItsScheduleBlocks(run: Runner, view: View, visits: seq<Visit>, src: Source)
    requires forall i :: 0 <= i < |visits| ==> visits[i].src == src
    ensures Sweep(run, view, visits).blocked <= {src.schedule.id}
  {
    forall id | id in Sweep(run, view, visits).blocked ensures id == src.schedule.id {
      BlockedWereVisited(run, view, visits, id);
    }
  }

  /** The table after a materialization: unchanged by an error, otherwise one slot written and no key lost. */
  ghost predicate Wrote(spec: Result<Row, Failure>, r: Result<Id, Failure>, slot: Slot, before: Rows, after: Rows)
  {
    match spec
    case Err(f) => r == Err(f) && after == before
    case Ok(row) =>
      && r.Ok? && r.value in after && after[r.value] == row
      && ViewOf(after) == ViewOf(before)[slot := row]
      && (forall i :: i in after <==> i in before || i == r.value)
      && (forall i :: i in before && i != r.value ==> after[i] == before[i])
      && (Occupied(before, slot) ==> r.value in before)
  }

  ghost function Wanted(z: Zone, v: Visit, knownMissing: bool, rows: Rows, c: Clock): Result<Row, Failure>
  {
    var current := Get(ViewOf(rows), SlotFor(v));
    if knownMissing then Shortcut(z, v.src, v.date, v.who, current, c) else Full(z, v.src, v.date, v.who, current, c)
  }

  /** What materializing a free slot leaves in the table. */
  lemma FreeSlotGets(z: Zone, v: Visit, base: seq<Assignee>, knownMissing: bool, before: Rows, after: Rows,
                     r: Result<Id, Failure>, c: Clock)
    requires Wrote(Wanted(z, v, knownMissing, before, c), r, SlotFor(v), before, after)
    requires !Occupied(before, SlotFor(v)) && IsFor(v.src, v.who, base)
    ensures r.Ok? <==> MayMaterialize(v.src, base)
                       && z.instant(v.date, v.src.schedule.startTime) < z.instant(v.date, v.src.schedule.endTime)
    ensures if r.Err? then after == before
            else r.value in after && IsOccurrence(z, v.src, v.date, v.who, c, after[r.value].execution)
                 && IsStructured(v.src, base, after[r.value])
  {
    ViewLacks(before, SlotFor(v));
    CreationLaw(z, v.src, v.date, v.who, base, c);
  }
}
