/** What the two readers return for an execution that has been cut over. */
module CutoverReaders {
  import opened Core
  import opened Journal
  import opened Lifecycle
  import opened JournalCutover
  import opened JournalParts
  import opened JournalTies
  import opened LifecycleTheorems

  // ----- the deadline, with and without the older events -----

  lemma {:induction false} ThoseKeepOrder(s: seq<Event>, keep: Event -> bool)
    requires Chronological(s)
    ensures Chronological(Those(s, keep))
  {
    if s != [] {
      var front, last := s[..|s| - 1], s[|s| - 1];
      ThoseKeepOrder(front, keep);
      ThoseMembers(front, keep);
      forall i | 0 <= i < |Those(front, keep)| ensures Those(front, keep)[i].at <= last.at {
        assert Those(front, keep)[i] in front;
      }
    }
  }

  lemma LastSince(s: seq<Event>, cut: Time, kinds: Kinds)
    requires Chronological(s)
    ensures var l := Last(s, kinds);
            Last(Those(s, From(cut)), kinds) == if l.Some? && cut <= l.value.at then l else None
  {
    LastIsLatest(s, kinds);
    var l := Last(s, kinds);
    if l.Some? && l.value.at < cut {
      ThoseKeepOrder(s, From(cut));
      LastIsLatest(Those(s, From(cut)), kinds);
      ThoseMembers(s, From(cut));
    } else {
      LastThose(s, From(cut), kinds);
    }
  }

  /** The last event of some kinds is from before an instant. */
  predicate EndsBefore(s: seq<Event>, kinds: Kinds, cut: Time) {
    Last(s, kinds).Some? && Last(s, kinds).value.at < cut
  }

  lemma PlannedSince(s: seq<Event>, cut: Time, endAt: Option<Time>)
    requires Chronological(s) && Last(Those(s, From(cut)), OpeningKinds).Some?
    requires EndsBefore(s, DeadlineKinds, cut) ==>
               LastEnd(s, DeadlineKinds) == endAt && LastEnd(Those(s, From(cut)), OpeningKinds) == endAt
    ensures PlannedEnd(s) == PlannedEnd(Those(s, From(cut)))
    ensures EndsBefore(s, DeadlineKinds, cut) ==> PlannedEnd(s) == endAt
  {
    LastSince(s, cut, DeadlineKinds);
    LastSince(s, cut, OpeningKinds);
  }

  lemma EndSince(s: seq<Event>, cut: Time, endAt: Option<Time>, status: Option<Status>)
    requires Chronological(s) && Last(Those(s, From(cut)), OpeningKinds).Some?
    requires EndsBefore(s, DeadlineKinds, cut) ==>
               LastEnd(s, DeadlineKinds) == endAt && LastEnd(Those(s, From(cut)), OpeningKinds) == endAt
    requires (status == Some(Done) || status == Some(Canceled)) && EndsBefore(s, TerminalKinds, cut) ==>
               LastEnd(s, TerminalKinds) == endAt && PlannedEnd(Those(s, From(cut))) == endAt
    ensures EndIn(s, status) == EndIn(Those(s, From(cut)), status)
  {
    PlannedSince(s, cut, endAt);
    LastSince(s, cut, TerminalKinds);
  }

  /** The latest events of some kinds that tell a deadline tell this one. */
  ghost predicate LatestTell(j: seq<Event>, kinds: Kinds, endAt: Option<Time>) {
    forall x :: Latest(j, kinds, x) ==> EndOf(x) == endAt
  }

  ghost predicate Latest(j: seq<Event>, kinds: Kinds, x: Event) {
    && Tell(j, kinds, x)
    && forall y :: Tell(j, kinds, y) ==> y.at <= x.at
  }

  predicate Tell(j: seq<Event>, kinds: Kinds, x: Event) { x in j && kinds.Has(x.kind) && RecordsDeadline(x) }

  /** The last change of deadline it recorded, and its last terminal event if it is finished, tell the deadline it has. */
  ghost predicate TellsDeadline(e: Execution) {
    && LatestTell(e.journal, DeadlineKinds, e.endAt)
    && (Finished(e.status) ==> LatestTell(e.journal, TerminalKinds, e.endAt))
  }

  lemma LastOfOlder(e: Execution, cut: Time, steps: seq<Step>, events: seq<Event>, at: Time, kinds: Kinds)
    requires Precedes(e, cut) && Clocked(cut, steps) && SameEvents(events, Run(Cutover(e, cut), steps).journal) && cut < at
    requires LatestTell(e.journal, kinds, e.endAt)
    ensures EndsBefore(Seen(events, at), kinds, cut) ==> LastEnd(Seen(events, at), kinds) == e.endAt
  {
    SeenEvents(events, at);
    FetchedSince(e, cut, steps, events);
    CutoverOfOlder(e, cut);
    if EndsBefore(Seen(events, at), kinds, cut) {
      var seen := Seen(events, at);
      LastIsLatest(seen, kinds);
      var x := Last(seen, kinds).value;
      assert x in Older(e, cut);
      if x in e.journal {
        forall y | Tell(e.journal, kinds, y) ensures y.at <= x.at {
          assert y in Older(e, cut);
          assert y in seen;
        }
        assert Latest(e.journal, kinds, x);
      } else {
        assert FromRow(e, x);
      }
    }
  }

  // ----- what a run from a baseline records -----

  /** What one transaction adds: every change of status or deadline, and nothing else. */
  ghost predicate Records(prior: Execution, next: Execution, added: seq<Event>) {
    && next.journal == prior.journal + added
    && (prior.endAt == next.endAt || exists x :: x in added && DeadlineKinds.Has(x.kind))
    && (forall x :: x in added ==> EndOf(x) == next.endAt)
    && (next == prior || !Finished(prior.status) || exists x :: x in added && IsMove(x))
    && (forall x :: x in added && StatusKinds.Has(x.kind) ==>
          IsMove(x) && StatusOf(x, None) == Some(next.status) && (Finished(next.status) ==> TerminalKinds.Has(x.kind)))
  }

  lemma StepRecords(e: Execution, cut: Time, steps: seq<Step>) returns (added: seq<Event>)
    requires RowInv(e) && Clocked(cut, steps) && steps != []
    ensures Clocked(cut, steps[..|steps| - 1])
    ensures Records(Run(Baselined(e, cut), steps[..|steps| - 1]), Run(Baselined(e, cut), steps), added)
  {
    BaselineBegins(e, cut);
    RunKeepsTold(Baselined(e, cut), cut, steps[..|steps| - 1]);
    added := ActionRecords(Run(Baselined(e, cut), steps[..|steps| - 1]), steps[|steps| - 1].action, steps[|steps| - 1].now);
  }

  /** Without a change of deadline every event tells the one there was. */
  lemma {:induction false} UnchangedEnds(e: Execution, cut: Time, steps: seq<Step>)
    requires RowInv(e) && Clocked(cut, steps)
    requires forall x :: x in Run(Baselined(e, cut), steps).journal ==> !DeadlineKinds.Has(x.kind)
    ensures Run(Baselined(e, cut), steps).endAt == e.endAt
    ensures forall x :: x in Run(Baselined(e, cut), steps).journal ==> EndOf(x) == e.endAt
  {
    if steps == [] {
      TransitionSurvives(HistoryBaseline, cut, e.status, e.endAt, map[]);
    } else {
      var added := StepRecords(e, cut, steps);
      UnchangedEnds(e, cut, steps[..|steps| - 1]);
    }
  }

  predicate Finishing(status: Option<Status>) { status == Some(Done) || status == Some(Canceled) }

  lemma {:induction false} FinishingIsTerminal(e: Execution, cut: Time, steps: seq<Step>)
    requires RowInv(e) && Clocked(cut, steps)
    ensures forall x :: x in Run(Baselined(e, cut), steps).journal && IsMove(x) && Finishing(StatusOf(x, None)) ==> TerminalKinds.Has(x.kind)
  {
    if steps != [] {
      var added := StepRecords(e, cut, steps);
      FinishingIsTerminal(e, cut, steps[..|steps| - 1]);
    }
  }

  /** A finished execution with no recorded change of status has not changed at all. */
  lemma {:induction false} UnmovedFinished(e: Execution, cut: Time, steps: seq<Step>)
    requires RowInv(e) && Clocked(cut, steps) && Finished(e.status)
    requires forall x :: x in Run(Baselined(e, cut), steps).journal ==> !IsMove(x)
    ensures Run(Baselined(e, cut), steps) == Baselined(e, cut)
  {
    if steps != [] {
      var added := StepRecords(e, cut, steps);
      UnmovedFinished(e, cut, steps[..|steps| - 1]);
    }
  }

  lemma AddedMembers(moved: Option<Event>, fromEnd: Option<Time>, toEnd: Option<Time>, now: Time)
    ensures forall x :: x in Added(moved, fromEnd, toEnd, now) <==>
                          moved == Some(x) || (fromEnd != toEnd && x == DeadlineEvents(fromEnd, toEnd, now)[0])
  {
  }

  lemma ActionRecords(prior: Execution, a: Action, now: Time) returns (added: seq<Event>)
    requires RowInv(prior) && Sensible(a)
    ensures Records(prior, Apply(prior, a, now), added)
  {
    if Apply(prior, a, now) == prior {
      added := [];
      assert prior.journal + [] == prior.journal;
    } else {
      ApplyGrows(prior, a, now);
      added := GrowthRecords(prior, Apply(prior, a, now), MovedBy(prior, a, now), now);
    }
  }

  lemma GrowthRecords(prior: Execution, next: Execution, moved: Option<Event>, now: Time) returns (added: seq<Event>)
    requires Grows(prior, next, moved, now)
    ensures Records(prior, next, added)
  {
    added := Added(moved, prior.endAt, next.endAt, now);
    AddedShape(moved, next, prior.endAt, now);
    AddedMembers(moved, prior.endAt, next.endAt, now);
    if prior.endAt != next.endAt {
      DeadlineEventTells(prior.endAt, next.endAt, now);
      assert DeadlineEvents(prior.endAt, next.endAt, now)[0] in added;
    }
    assert moved.Some? ==> moved.value in added && IsMove(moved.value);
  }

  // ----- the deadline reader -----

  /** One clock, and every transaction after the cutover. */
  ghost predicate Follows(cut: Time, steps: seq<Step>) {
    Clocked(cut, steps) && forall i :: 0 <= i < |steps| ==> cut < steps[i].now
  }

  /** What is recorded before an instant. */
  lemma RecordedBefore(e: Execution, cut: Time, steps: seq<Step>, n: nat, at: Time)
    requires RowInv(e) && Clocked(cut, steps) && StoodAt(steps, n, at) && cut < at
    ensures Clocked(cut, steps[..n])
    ensures forall x :: x in Run(Baselined(e, cut), steps[..n]).journal <==> x in Run(Baselined(e, cut), steps).journal && x.at < at
  {
    BaselineBegins(e, cut);
    CutIsPast(Baselined(e, cut), cut, steps, n, at);
    UntilMembers(Run(Baselined(e, cut), steps).journal, at);
  }

  lemma OnlyBaselineAtCut(e: Execution, cut: Time, steps: seq<Step>)
    requires RowInv(e) && Follows(cut, steps)
    ensures forall x :: x in Run(Baselined(e, cut), steps).journal && x.at <= cut ==> x == BaselineOf(e, cut)
  {
    RecordedBefore(e, cut, steps, 0, cut + 1);
    assert Run(Baselined(e, cut), steps[..0]) == Baselined(e, cut);
  }

  lemma AllTell(j: seq<Event>)
    requires WellFormed(j)
    ensures forall x :: x in j ==> RecordsDeadline(x)
  {
    forall x | x in j ensures RecordsDeadline(x) {
      assert StatusKinds.Has(x.kind) ==> EndAt in x.meta;
    }
  }

  /** What a journal that starts with a baseline at the cutover tells. */
  ghost predicate Starts(past: seq<Event>, b: Event, status: Status, endAt: Option<Time>) {
    && b in past && b.kind == HistoryBaseline && StatusOf(b, None) == Some(status) && EndOf(b) == endAt
    && (forall x :: x in past ==> RecordsDeadline(x) && b.at <= x.at)
    && (forall x :: x in past && IsMove(x) ==>
          b.at < x.at && StatusOf(x, None).Some? && (Finishing(StatusOf(x, None)) ==> TerminalKinds.Has(x.kind)))
    && (Unchanged(past) ==> forall x :: x in past ==> EndOf(x) == endAt)
    && (Finished(status) && Unmoved(past) ==> forall x :: x in past ==> x == b)
  }

  ghost predicate Unchanged(past: seq<Event>) { forall x :: x in past ==> !DeadlineKinds.Has(x.kind) }

  ghost predicate Unmoved(past: seq<Event>) { forall x :: x in past ==> !IsMove(x) }

  lemma RunStarts(e: Execution, cut: Time, steps: seq<Step>)
    requires RowInv(e) && Follows(cut, steps)
    ensures Starts(Run(Baselined(e, cut), steps).journal, BaselineOf(e, cut), e.status, e.endAt)
  {
    var past := Run(Baselined(e, cut), steps).journal;
    SinceBaseline(e, cut, steps);
    AllTell(past);
    OnlyBaselineAtCut(e, cut, steps);
    FinishingIsTerminal(e, cut, steps);
    TransitionSurvives(HistoryBaseline, cut, e.status, e.endAt, map[]);
    if Unchanged(past) {
      UnchangedEnds(e, cut, steps);
    }
    if Finished(e.status) && Unmoved(past) {
      UnmovedFinished(e, cut, steps);
    }
    assert past[0] in past;
  }

  /** A finished status with no terminal event since the cutover: nothing has happened since. */
  lemma FinishedRead(past: seq<Event>, ordered: seq<Event>, b: Event, status: Status, endAt: Option<Time>)
    requires Starts(past, b, status, endAt) && SameEvents(ordered, past) && Chronological(ordered)
    requires Finishing(FoldStatus(ordered, b.at, StatusOf(b, Some(Scheduled))))
    requires forall x :: x in past ==> !TerminalKinds.Has(x.kind)
    ensures Finished(status) && forall x :: x in past ==> x == b
  {
    FoldIsLastMove(ordered, b.at, StatusOf(b, Some(Scheduled)));
    LastMoveIsLatest(ordered, b.at);
    KnownStatus(b, Some(Scheduled));
  }

  /** What the deadline reader makes of older events among what it has seen, when they tell the deadline the row had. */
  lemma EndWithOlder(seen: seq<Event>, past: seq<Event>, ordered: seq<Event>, b: Event, status: Status, endAt: Option<Time>)
    requires SeenOlder(seen, past, b, status, endAt) && Chronological(ordered) && SameEvents(ordered, past)
    ensures var read := FoldStatus(ordered, b.at, StatusOf(b, Some(Scheduled)));
            EndIn(seen, read) == EndIn(Those(seen, From(b.at)), read)
  {
    var read, since := FoldStatus(ordered, b.at, StatusOf(b, Some(Scheduled))), Those(seen, From(b.at));
    ThoseKeepOrder(seen, From(b.at));
    LastIsLatest(since, OpeningKinds);
    LastIsLatest(since, DeadlineKinds);
    LastIsLatest(since, TerminalKinds);
    LastSince(seen, b.at, DeadlineKinds);
    LastSince(seen, b.at, TerminalKinds);
    if EndsBefore(seen, DeadlineKinds, b.at) {
      assert Unchanged(past);
    }
    if Finishing(read) && EndsBefore(seen, TerminalKinds, b.at) {
      FinishedRead(past, ordered, b, status, endAt);
      assert PlannedEnd(since) == endAt;
    }
    EndSince(seen, b.at, endAt, read);
  }

  /** What the deadline reader has seen of a cut-over execution. */
  ghost predicate SeenOlder(seen: seq<Event>, past: seq<Event>, b: Event, status: Status, endAt: Option<Time>) {
    && Chronological(seen) && SameEvents(Those(seen, From(b.at)), past) && Starts(past, b, status, endAt)
    && (EndsBefore(seen, DeadlineKinds, b.at) ==> LastEnd(seen, DeadlineKinds) == endAt)
    && (Finished(status) && EndsBefore(seen, TerminalKinds, b.at) ==> LastEnd(seen, TerminalKinds) == endAt)
  }

  lemma SeenOfCutover(e: Execution, cut: Time, steps: seq<Step>, n: nat, events: seq<Event>, at: Time)
    requires Precedes(e, cut) && TellsDeadline(e) && Follows(cut, steps) && StoodAt(steps, n, at) && cut < at
    requires SameEvents(events, Run(Cutover(e, cut), steps).journal)
    ensures SeenOlder(Seen(events, at), Run(Baselined(e, cut), steps[..n]).journal, BaselineOf(e, cut), e.status, e.endAt)
  {
    SeenSince(e, cut, steps, n, events, at);
    LastOfOlder(e, cut, steps, events, at, DeadlineKinds);
    if Finished(e.status) {
      LastOfOlder(e, cut, steps, events, at, TerminalKinds);
    }
    RunStarts(e, cut, steps[..n]);
  }

  lemma SeenSince(e: Execution, cut: Time, steps: seq<Step>, n: nat, events: seq<Event>, at: Time)
    requires Precedes(e, cut) && Clocked(cut, steps) && StoodAt(steps, n, at) && cut < at
    requires SameEvents(events, Run(Cutover(e, cut), steps).journal)
    ensures Chronological(Seen(events, at))
    ensures SameEvents(Those(Seen(events, at), From(cut)), Run(Baselined(e, cut), steps[..n]).journal)
  {
    FetchedSince(e, cut, steps, events);
    SeenOfPart(events, From(cut), at);
    SeenEvents(events, at);
    PastListed(e, cut, steps, n, Those(events, From(cut)), at);
  }

  lemma SameEndRead(events: seq<Event>, past: seq<Event>, b: Event, status: Status, endAt: Option<Time>, at: Time, reliableFrom: Time)
    requires reliableFrom <= at && b.at <= at && SeenOlder(Seen(events, at), past, b, status, endAt)
    requires Opens(Those(events, From(b.at)), b) && SameEvents(Until(SortedEvents(Those(events, From(b.at))), at), past)
    requires StatusAt(at, reliableFrom, events) == StatusAt(at, reliableFrom, Those(events, From(b.at)))
    ensures EndAtAt(at, reliableFrom, events) == EndAtAt(at, reliableFrom, Those(events, From(b.at)))
  {
    var part := Those(events, From(b.at));
    SortedEventsOrder(part);
    UntilKeepsOrder(SortedEvents(part), at);
    StatusFromOpening(part, at, reliableFrom, b);
    SeenOfPart(events, From(b.at), at);
    EndWithOlder(Seen(events, at), past, Until(SortedEvents(part), at), b, status, endAt);
  }

  /** The same for the deadline. */
  lemma OlderDeadlinesDoNotCount(e: Execution, cut: Time, steps: seq<Step>, n: nat, events: seq<Event>, at: Time, reliableFrom: Time)
    requires Precedes(e, cut) && TellsDeadline(e) && Follows(cut, steps) && StoodAt(steps, n, at)
    requires SameEvents(events, Run(Cutover(e, cut), steps).journal)
    requires reliableFrom <= at && cut < at
    ensures EndAtAt(at, reliableFrom, events) == EndAtAt(at, reliableFrom, Those(events, From(cut)))
  {
    OlderStatusesDoNotCount(e, cut, steps, events, at, reliableFrom);
    FetchedSince(e, cut, steps, events);
    SeenOfCutover(e, cut, steps, n, events, at);
    PastListed(e, cut, steps, n, Those(events, From(cut)), at);
    SameEndRead(events, Run(Baselined(e, cut), steps[..n]).journal, BaselineOf(e, cut), e.status, e.endAt, at, reliableFrom);
  }

  lemma PastListed(e: Execution, cut: Time, steps: seq<Step>, n: nat, part: seq<Event>, at: Time)
    requires RowInv(e) && Clocked(cut, steps) && StoodAt(steps, n, at) && cut < at
    requires SameEvents(part, Run(Baselined(e, cut), steps).journal)
    ensures var past := Run(Baselined(e, cut), steps[..n]).journal;
            && SameEvents(Until(SortedEvents(part), at), past) && Chronological(Until(SortedEvents(part), at))
            && SameEvents(Seen(part, at), past)
  {
    SortedEventsOrder(part);
    UntilMembers(SortedEvents(part), at);
    UntilKeepsOrder(SortedEvents(part), at);
    RecordedBefore(e, cut, steps, n, at);
    SinceBaseline(e, cut, steps);
    AllTell(Run(Baselined(e, cut), steps).journal);
    SeenEvents(part, at);
  }

  // ----- exactly when the readers are right after a cutover -----

  lemma MultisetJoins(a: seq<Event>, b: seq<Event>)
    ensures multiset(a + b) == multiset(a) + multiset(b)
  {
  }

  lemma RowsOfCutover(e: Execution, cut: Time, steps: seq<Step>)
    requires Precedes(e, cut) && Clocked(cut, steps)
    ensures multiset(Run(Cutover(e, cut), steps).journal) == multiset(Older(e, cut)) + multiset(Run(Baselined(e, cut), steps).journal)
  {
    CutoverOfOlder(e, cut);
    var b, terminals, written := BaselineOf(e, cut), MissingTerminals(WithBaseline(e, cut)), Written(e, steps);
    RunWrites(Cutover(e, cut), steps);
    RunWrites(Baselined(e, cut), steps);
    MultisetJoins(e.journal + [b] + terminals, written);
    MultisetJoins(e.journal + [b], terminals);
    MultisetJoins(e.journal, [b]);
    MultisetJoins(e.journal, terminals);
    MultisetJoins([b], written);
  }

  /** Every listing of what was recorded since the cutover is part of one of all the rows. */
  lemma OlderJoined(e: Execution, cut: Time, steps: seq<Step>, part: seq<Event>) returns (events: seq<Event>)
    requires Precedes(e, cut) && Clocked(cut, steps) && Relists(part, Run(Baselined(e, cut), steps).journal)
    ensures Relists(events, Run(Cutover(e, cut), steps).journal) && Those(events, From(cut)) == part
  {
    events := Older(e, cut) + part;
    RowsOfCutover(e, cut, steps);
    MultisetJoins(Older(e, cut), part);
    CutoverOfOlder(e, cut);
    SinceBaseline(e, cut, steps);
    RelistsSame(part, Run(Baselined(e, cut), steps).journal);
    ThoseAppend(Older(e, cut), part, From(cut));
    ThoseNone(Older(e, cut), From(cut));
    ThoseAll(part, From(cut));
  }

  lemma FetchedRelists(e: Execution, cut: Time, steps: seq<Step>, events: seq<Event>)
    requires Precedes(e, cut) && Clocked(cut, steps) && Relists(events, Run(Cutover(e, cut), steps).journal)
    ensures Relists(Those(events, From(cut)), Run(Baselined(e, cut), steps).journal)
  {
    RunFromCutover(e, cut, steps);
    ThoseRelist(events, Run(Cutover(e, cut), steps).journal, From(cut));
  }

  lemma SameStatusReadings(e: Execution, cut: Time, steps: seq<Step>, at: Time, reliableFrom: Time, status: Option<Status>)
    requires Precedes(e, cut) && Clocked(cut, steps) && cut <= at && reliableFrom <= at
    ensures AlwaysReadsStatus(Run(Cutover(e, cut), steps).journal, at, reliableFrom, status)
            <==> AlwaysReadsStatus(Run(Baselined(e, cut), steps).journal, at, reliableFrom, status)
  {
    var all, since := Run(Cutover(e, cut), steps).journal, Run(Baselined(e, cut), steps).journal;
    forall events | Relists(events, all)
      ensures Relists(Those(events, From(cut)), since)
      ensures StatusAt(at, reliableFrom, events) == StatusAt(at, reliableFrom, Those(events, From(cut))) {
      FetchedRelists(e, cut, steps, events);
      RelistsSame(events, all);
      OlderStatusesDoNotCount(e, cut, steps, events, at, reliableFrom);
    }
    forall part | Relists(part, since)
      ensures exists events :: Relists(events, all) && StatusAt(at, reliableFrom, events) == StatusAt(at, reliableFrom, part) {
      var events := OlderJoined(e, cut, steps, part);
    }
  }

  lemma SameEndReadings(e: Execution, cut: Time, steps: seq<Step>, n: nat, at: Time, reliableFrom: Time, endAt: Option<Time>)
    requires Precedes(e, cut) && TellsDeadline(e) && Follows(cut, steps) && StoodAt(steps, n, at) && cut < at && reliableFrom <= at
    ensures AlwaysReadsEnd(Run(Cutover(e, cut), steps).journal, at, reliableFrom, endAt)
            <==> AlwaysReadsEnd(Run(Baselined(e, cut), steps).journal, at, reliableFrom, endAt)
  {
    var all, since := Run(Cutover(e, cut), steps).journal, Run(Baselined(e, cut), steps).journal;
    forall events | Relists(events, all)
      ensures Relists(Those(events, From(cut)), since)
      ensures EndAtAt(at, reliableFrom, events) == EndAtAt(at, reliableFrom, Those(events, From(cut))) {
      FetchedRelists(e, cut, steps, events);
      RelistsSame(events, all);
      OlderDeadlinesDoNotCount(e, cut, steps, n, events, at, reliableFrom);
    }
    forall part | Relists(part, since)
      ensures exists events :: Relists(events, all) && EndAtAt(at, reliableFrom, events) == EndAtAt(at, reliableFrom, part) {
      var events := OlderJoined(e, cut, steps, part);
    }
  }

  /**
   For every execution older than the journal, finished or not, with events of its own or without: after the
   cutover the status read is the one the row had just before the instant, whatever the order of fetching,
   exactly when the greatest events since the cutover tell it.
   */
  lemma CutoverStatusIsRightExactly(e: Execution, cut: Time, steps: seq<Step>, n: nat, at: Time, reliableFrom: Time)
    requires Precedes(e, cut) && Clocked(cut, steps) && StoodAt(steps, n, at) && cut < at && reliableFrom <= at
    ensures var row := Run(Cutover(e, cut), steps[..n]);
            && Those(row.journal, From(cut)) != []
            && (AlwaysReadsStatus(Run(Cutover(e, cut), steps).journal, at, reliableFrom, Some(row.status))
                <==> GreatestTell(Those(row.journal, From(cut)), at, Some(row.status)))
  {
    BaselineBegins(e, cut);
    RecordedBefore(e, cut, steps, n, at);
    RunFromCutover(e, cut, steps[..n]);
    SinceBaseline(e, cut, steps[..n]);
    StatusReaderIsRightExactly(Baselined(e, cut), cut, steps, n, at, reliableFrom);
    SameStatusReadings(e, cut, steps, at, reliableFrom, Some(Run(Baselined(e, cut), steps[..n]).status));
  }

  /** The same for the deadline, when what the execution had recorded before tells the deadline it had. */
  lemma CutoverEndIsRightExactly(e: Execution, cut: Time, steps: seq<Step>, n: nat, at: Time, reliableFrom: Time)
    requires Precedes(e, cut) && TellsDeadline(e) && Follows(cut, steps) && StoodAt(steps, n, at) && cut < at && reliableFrom <= at
    ensures var row := Run(Cutover(e, cut), steps[..n]);
            && Those(row.journal, From(cut)) != []
            && (AlwaysReadsEnd(Run(Cutover(e, cut), steps).journal, at, reliableFrom, row.endAt)
                <==> EveryChoiceTellsEnd(Those(row.journal, From(cut)), at, row.endAt))
  {
    BaselineBegins(e, cut);
    RecordedBefore(e, cut, steps, n, at);
    RunFromCutover(e, cut, steps[..n]);
    SinceBaseline(e, cut, steps[..n]);
    EndReaderIsRightExactly(Baselined(e, cut), cut, steps, n, at, reliableFrom);
    SameEndReadings(e, cut, steps, n, at, reliableFrom, Run(Baselined(e, cut), steps[..n]).endAt);
  }
}
