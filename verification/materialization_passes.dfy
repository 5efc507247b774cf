/**
 Passes of materialization over many slots: the horizon pass, and the calendar window
 with its fast path, which reads the table once and skips what that reading calls settled.
 */
module MaterializationPasses {
  import opened Core
  import opened Lifecycle
  import opened Schedules
  import opened Materialization

  datatype Visit = Visit(src: Source, date: Date, who: Option<Assignee>)

  /** A fast pass carries the one reading of the table it started from. */
  datatype Mode = Slow | Fast(snapshot: View)

  /** Blocked schedules raised a validation error; any other error ends the pass. */
  datatype Pass = Pass(view: View, blocked: set<Id>, crashed: bool) {
    predicate Clean() { blocked == {} && !crashed }
  }

  function Get(view: View, slot: Slot): Option<Row> {
    if slot in view then Some(view[slot]) else None
  }

  function SlotFor(v: Visit): Slot { Slot(v.src.schedule.id, v.date, MemberOf(v.who)) }

  // ----- the visits of a pass -----

  function Whos(src: Source): seq<Option<Assignee>> {
    if src.schedule.useSharedChronology then [None]
    else seq(|src.schedule.assignees|, i requires 0 <= i < |src.schedule.assignees| => Some(src.schedule.assignees[i]))
  }

  function DateVisits(src: Source, d: Date): seq<Visit> {
    seq(|Whos(src)|, i requires 0 <= i < |Whos(src)| => Visit(src, d, Whos(src)[i]))
  }

  function SourceVisits(src: Source, dates: seq<Date>): seq<Visit> {
    if dates == [] then []
    else SourceVisits(src, dates[..|dates| - 1]) + DateVisits(src, dates[|dates| - 1])
  }

  function WindowVisits(sources: seq<Source>, from: Date, until: Date): seq<Visit> {
    if sources == [] then []
    else
      var last := sources[|sources| - 1];
      WindowVisits(sources[..|sources| - 1], from, until) + SourceVisits(last, OccurrenceDates(last.schedule, from, until))
  }

  ghost predicate DistinctSlots(visits: seq<Visit>) {
    forall i, j :: 0 <= i < j < |visits| ==> SlotFor(visits[i]) != SlotFor(visits[j])
  }

  ghost predicate Visits(visits: seq<Visit>, slot: Slot) {
    exists i :: 0 <= i < |visits| && SlotFor(visits[i]) == slot
  }

  ghost predicate Proper(z: Zone, v: Visit) {
    Opens(z, v.src.schedule) && v.who in Whos(v.src)
  }

  ghost predicate AllProper(z: Zone, visits: seq<Visit>) {
    forall i :: 0 <= i < |visits| ==> Proper(z, visits[i])
  }

  ghost predicate AllStructured(view: View) {
    forall slot :: slot in view ==> Structured(view[slot])
  }

  // ----- one visit -----

  /** Every required execution of the date is there, not canceled, and as complete as it can be made. */
  predicate DateSettled(src: Source, d: Date, view: View) {
    forall i :: 0 <= i < |Whos(src)| ==>
      SlotSettled(src, Whos(src)[i], Get(view, SlotFor(Visit(src, d, Whos(src)[i]))))
  }

  function Outcome(z: Zone, mode: Mode, v: Visit, current: Option<Row>, c: Clock): Result<Option<Row>, Failure> {
    if mode.Fast? && DateSettled(v.src, v.date, mode.snapshot) then Ok(current)
    else
      var r := if mode.Fast? && SlotFor(v) !in mode.snapshot
               then Shortcut(z, v.src, v.date, v.who, current, c) else Full(z, v.src, v.date, v.who, current, c);
      match r
      case Ok(row) => Ok(Some(row))
      case Err(f) => Err(f)
  }

  /** What a pass does at a visit whose slot holds `current`. */
  type Runner = (Visit, Option<Row>) -> Result<Option<Row>, Failure>

  function Running(z: Zone, mode: Mode, clock: Slot -> Clock): Runner {
    (v, current) => Outcome(z, mode, v, current, clock(SlotFor(v)))
  }

  function Visited(run: Runner, prior: Pass, v: Visit): Pass {
    if prior.crashed || v.src.schedule.id in prior.blocked then prior
    else
      match run(v, Get(prior.view, SlotFor(v)))
      case Err(Invalid) => prior.(blocked := prior.blocked + {v.src.schedule.id})
      case Err(NoTeam) => prior.(crashed := true)
      case Ok(None) => prior
      case Ok(Some(row)) => prior.(view := prior.view[SlotFor(v) := row])
  }

  function Sweep(run: Runner, view: View, visits: seq<Visit>): Pass {
    if visits == [] then Pass(view, {}, false)
    else var n := |visits| - 1; Visited(run, Sweep(run, view, visits[..n]), visits[n])
  }

  function SlowPass(z: Zone, view: View, visits: seq<Visit>, clock: Slot -> Clock): Pass {
    Sweep(Running(z, Slow, clock), view, visits)
  }

  /** The fast pass decides from the table it starts with. */
  function FastPass(z: Zone, view: View, visits: seq<Visit>, clock: Slot -> Clock): Pass {
    Sweep(Running(z, Fast(view), clock), view, visits)
  }

  ghost predicate Ordered(clock: Slot -> Clock) {
    forall slot: Slot :: clock(slot).checkedAt <= clock(slot).recheckedAt
  }

  ghost predicate Before(early: Slot -> Clock, late: Slot -> Clock) {
    forall i: Slot, j: Slot {:trigger early(i), late(j)} :: early(i).recheckedAt <= late(j).checkedAt
  }

  // ----- what a pass does to a slot -----

  lemma PrefixVisits(visits: seq<Visit>, n: nat, slot: Slot)
    requires n <= |visits|
    ensures Visits(visits[..n], slot) ==> Visits(visits, slot)
  {
    if Visits(visits[..n], slot) {
      var i :| 0 <= i < n && SlotFor(visits[..n][i]) == slot;
      assert SlotFor(visits[i]) == slot;
    }
  }

  /** A pass writes the slots it visits and no other, and only forward: nothing is removed. */
  lemma {:induction false} SweepFrame(run: Runner, view: View, visits: seq<Visit>, slot: Slot)
    requires !Visits(visits, slot)
    ensures Get(Sweep(run, view, visits).view, slot) == Get(view, slot)
  {
    if visits != [] {
      var n := |visits| - 1;
      PrefixVisits(visits, n, slot);
      assert SlotFor(visits[n]) != slot;
      SweepFrame(run, view, visits[..n], slot);
    }
  }

  lemma NextSlotUnvisited(visits: seq<Visit>, n: nat)
    requires DistinctSlots(visits) && n < |visits|
    ensures !Visits(visits[..n], SlotFor(visits[n])) && DistinctSlots(visits[..n])
  {
  }

  /** In a pass that raised nothing, every visited slot ends with what its first contents were turned into. */
  lemma {:induction false} SweepAt(run: Runner, view: View, visits: seq<Visit>, i: nat)
    requires DistinctSlots(visits) && i < |visits|
    requires Sweep(run, view, visits).Clean()
    ensures var v := visits[i];
            var out := run(v, Get(view, SlotFor(v)));
            out.Ok? && Get(Sweep(run, view, visits).view, SlotFor(v)) == if out.value.Some? then out.value else Get(view, SlotFor(v))
  {
    var n := |visits| - 1;
    NextSlotUnvisited(visits, n);
    if i == n {
      SweepFrame(run, view, visits[..n], SlotFor(visits[n]));
    } else {
      assert Sweep(run, view, visits[..n]).Clean();
      SweepAt(run, view, visits[..n], i);
      assert SlotFor(visits[i]) != SlotFor(visits[n]);
    }
  }

  /** Everything visited by a pass that raised nothing holds what materialization of its first contents gives. */
  lemma SlowSweepAt(z: Zone, view: View, visits: seq<Visit>, clock: Slot -> Clock, i: nat)
    requires DistinctSlots(visits) && i < |visits|
    requires SlowPass(z, view, visits, clock).Clean()
    ensures var v, after := visits[i], SlowPass(z, view, visits, clock).view;
            SlotFor(v) in after &&
            Full(z, v.src, v.date, v.who, Get(view, SlotFor(v)), clock(SlotFor(visits[i]))) == Ok(after[SlotFor(v)])
  {
    SweepAt(Running(z, Slow, clock), view, visits, i);
  }

  // ----- the fast path refines the slow one -----

  /** Skipping what a single early reading calls settled, and the lookup of what it did not find, changes no state. */
  lemma {:induction false} FastRefinesSlow(z: Zone, view: View, visits: seq<Visit>, clock: Slot -> Clock)
    requires DistinctSlots(visits) && AllProper(z, visits) && AllStructured(view) && Ordered(clock)
    requires SlowPass(z, view, visits, clock).Clean()
    ensures FastPass(z, view, visits, clock) == SlowPass(z, view, visits, clock)
  {
    if visits != [] {
      var n := |visits| - 1;
      var v, prior := visits[n], SlowPass(z, view, visits[..n], clock);
      NextSlotUnvisited(visits, n);
      assert prior.Clean();
      FastRefinesSlow(z, view, visits[..n], clock);
      SweepFrame(Running(z, Slow, clock), view, visits[..n], SlotFor(v));
      assert Proper(z, v);
      FastVisitAgrees(z, view, v, clock(SlotFor(visits[n])));
      var current := Get(view, SlotFor(v));
      assert Outcome(z, Slow, v, current, clock(SlotFor(visits[n]))).Ok?;
      assert Outcome(z, Fast(view), v, current, clock(SlotFor(visits[n]))) == Outcome(z, Slow, v, current, clock(SlotFor(visits[n])));
    }
  }

  lemma FastVisitAgrees(z: Zone, view: View, v: Visit, c: Clock)
    requires Proper(z, v) && AllStructured(view) && c.checkedAt <= c.recheckedAt
    requires Outcome(z, Slow, v, Get(view, SlotFor(v)), c).Ok?
    ensures Outcome(z, Fast(view), v, Get(view, SlotFor(v)), c) == Outcome(z, Slow, v, Get(view, SlotFor(v)), c)
  {
    var current := Get(view, SlotFor(v));
    if DateSettled(v.src, v.date, view) {
      var i :| 0 <= i < |Whos(v.src)| && Whos(v.src)[i] == v.who;
      assert SlotSettled(v.src, v.who, current);
      SettledNeverChanges(z, v.src, v.date, v.who, current.value, c);
    } else {
      ShortcutAgrees(z, v.src, v.date, v.who, current, c);
    }
  }

  // ----- running a pass again -----

  /** The table already holds, at every visited slot, what materialization would put there. */
  ghost predicate Stable(z: Zone, view: View, v: Visit, c: Clock) {
    SlotFor(v) in view && Full(z, v.src, v.date, v.who, Some(view[SlotFor(v)]), c) == Ok(view[SlotFor(v)])
  }

  lemma {:induction false} StableSweep(z: Zone, view: View, visits: seq<Visit>, clock: Slot -> Clock)
    requires forall i :: 0 <= i < |visits| ==> Stable(z, view, visits[i], clock(SlotFor(visits[i])))
    ensures SlowPass(z, view, visits, clock) == Pass(view, {}, false)
  {
    if visits != [] {
      var n := |visits| - 1;
      StableSweep(z, view, visits[..n], clock);
      assert Stable(z, view, visits[n], clock(SlotFor(visits[n])));
      assert view[SlotFor(visits[n]) := view[SlotFor(visits[n])]] == view;
    }
  }

  lemma VisitedIsStable(z: Zone, view: View, visits: seq<Visit>, c1: Slot -> Clock, c2: Slot -> Clock, i: nat)
    requires DistinctSlots(visits) && i < |visits| && AllProper(z, visits) && AllStructured(view)
    requires Ordered(c1) && Ordered(c2) && Before(c1, c2)
    requires SlowPass(z, view, visits, c1).Clean()
    ensures var after := SlowPass(z, view, visits, c1).view;
            Stable(z, after, visits[i], c2(SlotFor(visits[i]))) && Structured(after[SlotFor(visits[i])])
  {
    var v := visits[i];
    SlowSweepAt(z, view, visits, c1, i);
    assert Proper(z, v);
    assert c1(SlotFor(visits[i])).recheckedAt <= c2(SlotFor(visits[i])).checkedAt;
    FullIsIdempotent(z, v.src, v.date, v.who, Get(view, SlotFor(v)), c1(SlotFor(visits[i])), c2(SlotFor(visits[i])));
  }

  /** A second pass, later, leaves the table of the first one. */
  lemma SecondPassChangesNothing(z: Zone, view: View, visits: seq<Visit>, c1: Slot -> Clock, c2: Slot -> Clock)
    requires DistinctSlots(visits) && AllProper(z, visits) && AllStructured(view)
    requires Ordered(c1) && Ordered(c2) && Before(c1, c2)
    requires SlowPass(z, view, visits, c1).Clean()
    ensures var after := SlowPass(z, view, visits, c1).view;
            SlowPass(z, after, visits, c2) == Pass(after, {}, false)
  {
    forall i | 0 <= i < |visits|
      ensures Stable(z, SlowPass(z, view, visits, c1).view, visits[i], c2(SlotFor(visits[i])))
    {
      VisitedIsStable(z, view, visits, c1, c2, i);
    }
    StableSweep(z, SlowPass(z, view, visits, c1).view, visits, c2);
  }

  /** The same for the calendar: two fast passes, each from its own reading, end where one slow pass does. */
  lemma SecondWindowChangesNothing(z: Zone, view: View, visits: seq<Visit>, c1: Slot -> Clock, c2: Slot -> Clock)
    requires DistinctSlots(visits) && AllProper(z, visits) && AllStructured(view)
    requires Ordered(c1) && Ordered(c2) && Before(c1, c2)
    requires SlowPass(z, view, visits, c1).Clean()
    ensures var after := FastPass(z, view, visits, c1).view;
            FastPass(z, after, visits, c2) == Pass(after, {}, false)
  {
    FastRefinesSlow(z, view, visits, c1);
    SecondPassChangesNothing(z, view, visits, c1, c2);
    var after := SlowPass(z, view, visits, c1).view;
    forall slot | slot in after ensures Structured(after[slot]) {
      if Visits(visits, slot) {
        var i :| 0 <= i < |visits| && SlotFor(visits[i]) == slot;
        VisitedIsStable(z, view, visits, c1, c2, i);
      } else {
        SweepFrame(Running(z, Slow, c1), view, visits, slot);
        assert Get(after, slot) == Get(view, slot);
      }
    }
    FastRefinesSlow(z, after, visits, c2);
  }

  // ----- nothing is revived, in any run -----


  lemma {:induction false} NothingRevived(z: Zone, mode: Mode, view: View, visits: seq<Visit>, clock: Slot -> Clock, slot: Slot)
    requires slot in view && Ordered(clock)
    requires forall i :: 0 <= i < |visits| ==> Opens(z, visits[i].src.schedule)
    ensures var after := Sweep(Running(z, mode, clock), view, visits).view;
            slot in after && (!SyncCanceled(view[slot].execution) ==> after[slot].execution == view[slot].execution)
  {
    if visits != [] {
      var n := |visits| - 1;
      NothingRevived(z, mode, view, visits[..n], clock, slot);
      var prior, v := Sweep(Running(z, mode, clock), view, visits[..n]), visits[n];
      if SlotFor(v) == slot {
        var r := prior.view[slot];
        ShortcutAgrees(z, v.src, v.date, v.who, Some(r), clock(SlotFor(visits[n])));
        if Full(z, v.src, v.date, v.who, Some(r), clock(SlotFor(visits[n]))).Ok? {
          MaterializationIsLifecycle(z, v.src, v.date, v.who, r, clock(SlotFor(visits[n])));
        }
      }
    }
  }

  // ----- the visits are distinct and complete -----

  lemma DateVisitsDistinct(src: Source, d: Date)
    requires DistinctMembers(src.schedule.assignees)
    ensures DistinctSlots(DateVisits(src, d))
  {
    var visits := DateVisits(src, d);
    forall i, j | 0 <= i < j < |visits| ensures SlotFor(visits[i]) != SlotFor(visits[j]) {
      assert visits[i].who == Whos(src)[i] && visits[j].who == Whos(src)[j];
    }
  }

  lemma ConcatDistinct(a: seq<Visit>, b: seq<Visit>)
    requires DistinctSlots(a) && DistinctSlots(b)
    requires forall i, j :: 0 <= i < |a| && 0 <= j < |b| ==> SlotFor(a[i]) != SlotFor(b[j])
    ensures DistinctSlots(a + b)
  {
  }

  ghost predicate InDates(src: Source, dates: seq<Date>, v: Visit) {
    v.src == src && v.date in dates && v.who in Whos(src)
  }

  lemma {:induction false} SourceVisitsExact(src: Source, dates: seq<Date>)
    requires DistinctMembers(src.schedule.assignees)
    requires forall i, j :: 0 <= i < j < |dates| ==> dates[i] < dates[j]
    ensures DistinctSlots(SourceVisits(src, dates))
    ensures forall v :: v in SourceVisits(src, dates) <==> InDates(src, dates, v)
  {
    if dates != [] {
      var n := |dates| - 1;
      var early, d := dates[..n], dates[n];
      SourceVisitsExact(src, early);
      DateVisitsDistinct(src, d);
      var a, b := SourceVisits(src, early), DateVisits(src, d);
      forall i, j | 0 <= i < |a| && 0 <= j < |b| ensures SlotFor(a[i]) != SlotFor(b[j]) {
        assert a[i] in a;
        assert InDates(src, early, a[i]);
      }
      ConcatDistinct(a, b);
      forall v ensures v in a + b <==> InDates(src, dates, v) {
        assert v in a <==> InDates(src, early, v);
        assert v in b <==> v.src == src && v.date == d && v.who in Whos(src) by {
          if v.src == src && v.date == d && v.who in Whos(src) {
            var i :| 0 <= i < |Whos(src)| && Whos(src)[i] == v.who;
            assert b[i] == v;
          }
        }
        assert v.date in dates <==> v.date in early || v.date == d by {
          assert dates == early + [d];
        }
      }
    }
  }

  ghost predicate DistinctSources(sources: seq<Source>) {
    && (forall i, j :: 0 <= i < j < |sources| ==> sources[i].schedule.id != sources[j].schedule.id)
    && (forall i :: 0 <= i < |sources| ==> DistinctMembers(sources[i].schedule.assignees))
  }

  /** A visit a window pass owes: a matching date of one of its schedules, for one of its owners. */
  ghost predicate Due(sources: seq<Source>, from: Date, until: Date, v: Visit) {
    v.src in sources && OccursOn(v.src.schedule, v.date) && from <= v.date <= until && v.who in Whos(v.src)
  }

  lemma DueOfLast(sources: seq<Source>, from: Date, until: Date, v: Visit)
    requires sources != []
    ensures var n := |sources| - 1;
            Due(sources, from, until, v) <==>
            Due(sources[..n], from, until, v) || InDates(sources[n], OccurrenceDates(sources[n].schedule, from, until), v)
  {
    var n := |sources| - 1;
    OccurrenceDatesExact(sources[n].schedule, from, until);
    assert sources == sources[..n] + [sources[n]];
  }

  lemma OtherSource(sources: seq<Source>, from: Date, until: Date, v: Visit)
    requires DistinctSources(sources) && sources != [] && Due(sources[..|sources| - 1], from, until, v)
    ensures v.src.schedule.id != sources[|sources| - 1].schedule.id
  {
    var n := |sources| - 1;
    var k :| 0 <= k < n && sources[..n][k] == v.src;
    assert sources[k].schedule.id != sources[n].schedule.id;
  }

  /** A window pass visits each slot of each of its schedules' matching dates, once. */
  lemma {:induction false} WindowVisitsExact(sources: seq<Source>, from: Date, until: Date)
    requires DistinctSources(sources)
    ensures DistinctSlots(WindowVisits(sources, from, until))
    ensures forall v :: v in WindowVisits(sources, from, until) <==> Due(sources, from, until, v)
  {
    if sources != [] {
      var n := |sources| - 1;
      var early, last := sources[..n], sources[n];
      var dates := OccurrenceDates(last.schedule, from, until);
      WindowVisitsExact(early, from, until);
      OccurrenceDatesExact(last.schedule, from, until);
      SourceVisitsExact(last, dates);
      var a, b := WindowVisits(early, from, until), SourceVisits(last, dates);
      forall i, j | 0 <= i < |a| && 0 <= j < |b| ensures SlotFor(a[i]) != SlotFor(b[j]) {
        var x, y := a[i], b[j];
        assert x in a && y in b;
        assert Due(early, from, until, x) && InDates(last, dates, y);
        OtherSource(sources, from, until, x);
      }
      ConcatDistinct(a, b);
      forall v ensures v in a + b <==> Due(sources, from, until, v) {
        DueOfLast(sources, from, until, v);
        assert v in a <==> Due(early, from, until, v);
        assert v in b <==> InDates(last, dates, v);
      }
    }
  }

  // ----- passes as loops run them -----

  predicate Stopped(pass: Pass, schedule: Id) {
    pass.crashed || schedule in pass.blocked
  }

  /** After an error the rest of the schedule is passed over. */
  lemma {:induction false} StoppedSkips(run: Runner, view: View, done: seq<Visit>, rest: seq<Visit>, schedule: Id)
    requires Stopped(Sweep(run, view, done), schedule)
    requires forall i :: 0 <= i < |rest| ==> rest[i].src.schedule.id == schedule
    ensures Sweep(run, view, done + rest) == Sweep(run, view, done)
  {
    if rest == [] {
      assert done + rest == done;
    } else {
      var n := |rest| - 1;
      StoppedSkips(run, view, done, rest[..n], schedule);
      assert (done + rest)[..|done| + n] == done + rest[..n];
    }
  }

  /** `run` is what a mode does, said so that it is only looked into where it is needed. */
  ghost predicate Runs(run: Runner, z: Zone, mode: Mode, clock: Slot -> Clock) {
    forall v: Visit, current: Option<Row> {:trigger Outcome(z, mode, v, current, clock(SlotFor(v)))} ::
      run(v, current) == Outcome(z, mode, v, current, clock(SlotFor(v)))
  }

  lemma RunningRuns(z: Zone, mode: Mode, clock: Slot -> Clock)
    ensures Runs(Running(z, mode, clock), z, mode, clock)
  {
  }

  /** A settled date is passed over. */
  lemma {:induction false} SettledSkips(run: Runner, z: Zone, snapshot: View, clock: Slot -> Clock, view: View,
                                        done: seq<Visit>, rest: seq<Visit>, src: Source, d: Date)
    requires Runs(run, z, Fast(snapshot), clock) && DateSettled(src, d, snapshot)
    requires forall i :: 0 <= i < |rest| ==> rest[i].src == src && rest[i].date == d
    ensures Sweep(run, view, done + rest) == Sweep(run, view, done)
  {
    if rest == [] {
      assert done + rest == done;
    } else {
      var n := |rest| - 1;
      SettledSkips(run, z, snapshot, clock, view, done, rest[..n], src, d);
      assert (done + rest)[..|done| + n] == done + rest[..n];
      var prior, v := Sweep(run, view, done), rest[n];
      assert Outcome(z, Fast(snapshot), v, Get(prior.view, SlotFor(v)), clock(SlotFor(v))) == Ok(Get(prior.view, SlotFor(v)));
      assert SlotFor(v) in prior.view ==> prior.view[SlotFor(v) := prior.view[SlotFor(v)]] == prior.view;
    }
  }

  lemma {:induction false} BlockedWereVisited(run: Runner, view: View, visits: seq<Visit>, schedule: Id)
    requires schedule in Sweep(run, view, visits).blocked
    ensures exists i :: 0 <= i < |visits| && visits[i].src.schedule.id == schedule
  {
    var n := |visits| - 1;
    if schedule in Sweep(run, view, visits[..n]).blocked {
      BlockedWereVisited(run, view, visits[..n], schedule);
      var i :| 0 <= i < n && visits[..n][i].src.schedule.id == schedule;
      assert visits[i].src.schedule.id == schedule;
    } else {
      assert visits[n].src.schedule.id == schedule;
    }
  }

  /** A schedule that is not among the visited ones is not blocked. */
  lemma FreshIsUnblocked(run: Runner, view: View, sources: seq<Source>, from: Date, until: Date, n: nat)
    requires DistinctSources(sources) && n < |sources|
    ensures sources[n].schedule.id !in Sweep(run, view, WindowVisits(sources[..n], from, until)).blocked
  {
    assert forall k :: 0 <= k < n ==> sources[..n][k].schedule.id != sources[n].schedule.id;
    var visits := WindowVisits(sources[..n], from, until);
    if sources[n].schedule.id in Sweep(run, view, visits).blocked {
      BlockedAreSources(run, view, sources[..n], from, until, visits, sources[n].schedule.id);
    }
  }

  lemma BlockedAreSources(run: Runner, view: View, sources: seq<Source>, from: Date, until: Date, visits: seq<Visit>, schedule: Id)
    requires DistinctSources(sources) && visits == WindowVisits(sources, from, until) && schedule in Sweep(run, view, visits).blocked
    ensures exists k :: 0 <= k < |sources| && sources[k].schedule.id == schedule
  {
    BlockedWereVisited(run, view, visits, schedule);
    var i :| 0 <= i < |visits| && visits[i].src.schedule.id == schedule;
    WindowVisitsExact(sources, from, until);
    assert visits[i] in visits && Due(sources, from, until, visits[i]);
    var k :| 0 <= k < |sources| && sources[k] == visits[i].src;
  }

  lemma {:induction false} SourceVisitsAre(src: Source, dates: seq<Date>)
    ensures forall i :: 0 <= i < |SourceVisits(src, dates)| ==> SourceVisits(src, dates)[i].src == src
  {
    if dates != [] {
      SourceVisitsAre(src, dates[..|dates| - 1]);
    }
  }

  // ----- the horizon pass -----

  predicate IsVisible(z: Zone, src: Source, d: Date, now: Time) {
    Occurrence(z, src.schedule, d).visibleFrom <= now && (src.schedule.useSharedChronology || src.schedule.assignees != [])
  }

  function Kept(z: Zone, src: Source, dates: seq<Date>, visibleOnly: bool, now: Time): seq<Date> {
    if dates == [] then []
    else
      var prior, last := Kept(z, src, dates[..|dates| - 1], visibleOnly, now), dates[|dates| - 1];
      if visibleOnly && !IsVisible(z, src, last, now) then prior else prior + [last]
  }

  lemma {:induction false} KeptExact(z: Zone, src: Source, dates: seq<Date>, visibleOnly: bool, now: Time)
    requires forall i, j :: 0 <= i < j < |dates| ==> dates[i] < dates[j]
    ensures var kept := Kept(z, src, dates, visibleOnly, now);
            && (forall d :: d in kept <==> d in dates && (visibleOnly ==> IsVisible(z, src, d, now)))
            && (forall i, j :: 0 <= i < j < |kept| ==> kept[i] < kept[j])
  {
    if dates != [] {
      var n := |dates| - 1;
      KeptExact(z, src, dates[..n], visibleOnly, now);
      var prior := Kept(z, src, dates[..n], visibleOnly, now);
      assert dates == dates[..n] + [dates[n]];
      forall i | 0 <= i < |prior| ensures prior[i] < dates[n] {
        var d := prior[i];
        assert d in prior && d in dates[..n];
        assert exists k :: 0 <= k < n && dates[k] == d;
      }
    }
  }

  function HorizonVisits(z: Zone, src: Source, today: Date, days: nat, visibleOnly: bool, now: Time): seq<Visit> {
    SourceVisits(src, Kept(z, src, OccurrenceDates(src.schedule, today, today + days), visibleOnly, now))
  }

  /** The dates a horizon pass has to cover. */
  ghost predicate InHorizon(z: Zone, src: Source, d: Date, today: Date, days: nat, visibleOnly: bool, now: Time) {
    OccursOn(src.schedule, d) && today <= d <= today + days && (visibleOnly ==> IsVisible(z, src, d, now))
  }

  lemma HorizonVisitsDate(z: Zone, src: Source, today: Date, days: nat, visibleOnly: bool, now: Time, d: Date, who: Option<Assignee>)
    returns (i: nat)
    requires DistinctMembers(src.schedule.assignees) && who in Whos(src)
    requires InHorizon(z, src, d, today, days, visibleOnly, now)
    ensures var visits := HorizonVisits(z, src, today, days, visibleOnly, now);
            DistinctSlots(visits) && i < |visits| && visits[i] == Visit(src, d, who)
  {
    var dates := OccurrenceDates(src.schedule, today, today + days);
    OccurrenceDatesExact(src.schedule, today, today + days);
    KeptExact(z, src, dates, visibleOnly, now);
    var kept := Kept(z, src, dates, visibleOnly, now);
    SourceVisitsExact(src, kept);
    var visits, v := SourceVisits(src, kept), Visit(src, d, who);
    assert InDates(src, kept, v);
    i :| 0 <= i < |visits| && visits[i] == v;
  }

  /** A completed horizon pass covers every matching date, for every owner. */
  lemma HorizonCovers(z: Zone, view: View, src: Source, today: Date, days: nat, visibleOnly: bool, now: Time,
                      clock: Slot -> Clock, d: Date, who: Option<Assignee>)
    requires DistinctMembers(src.schedule.assignees) && who in Whos(src)
    requires InHorizon(z, src, d, today, days, visibleOnly, now)
    requires SlowPass(z, view, HorizonVisits(z, src, today, days, visibleOnly, now), clock).Clean()
    ensures Slot(src.schedule.id, d, MemberOf(who)) in
            SlowPass(z, view, HorizonVisits(z, src, today, days, visibleOnly, now), clock).view
  {
    var visits := HorizonVisits(z, src, today, days, visibleOnly, now);
    var i := HorizonVisitsDate(z, src, today, days, visibleOnly, now, d, who);
    SlowSweepAt(z, view, visits, clock, i);
  }

  // ----- in the schedule's own terms -----

  /** One execution for everyone, or one for each assignee in order. */
  lemma WhosExactly(src: Source, i: nat)
    ensures src.schedule.useSharedChronology ==> Whos(src) == [None]
    ensures !src.schedule.useSharedChronology ==>
              && |Whos(src)| == |src.schedule.assignees|
              && (i < |Whos(src)| ==> Whos(src)[i] == Some(src.schedule.assignees[i]))
  {
  }

  /** A date shows an hour before its start, when it has anybody to show. */
  lemma VisibleExactly(z: Zone, src: Source, d: Date, now: Time)
    ensures IsVisible(z, src, d, now) <==>
            && z.instant(d, src.schedule.startTime) <= now + 60 * 60 * 1_000_000
            && exists who :: who in Whos(src)
  {
    if Whos(src) != [] {
      assert Whos(src)[0] in Whos(src);
    }
  }

  /** A visit fills its own slot; a validation error takes its schedule out of the pass, any other ends the pass. */
  lemma VisitedExactly(run: Runner, prior: Pass, v: Visit)
    ensures var r, next := run(v, Get(prior.view, SlotFor(v))), Visited(run, prior, v);
            if prior.crashed || v.src.schedule.id in prior.blocked then next == prior
            else
              && (next.crashed <==> r == Err(NoTeam))
              && (forall id :: id in next.blocked <==> id in prior.blocked || (r == Err(Invalid) && id == v.src.schedule.id))
              && (forall slot :: slot != SlotFor(v) ==> Get(next.view, slot) == Get(prior.view, slot))
              && Get(next.view, SlotFor(v)) == (if r.Ok? && r.value.Some? then r.value else Get(prior.view, SlotFor(v)))
  {
  }
}
