/**
 A cutover of executions that have a journal since their creation.  Every cutover writes its baselines at
 the instant of the first one, so an execution created in between gets a baseline from before its creation.
 */
module CutoverReruns {
  import opened Core
  import opened Journal
  import opened Lifecycle
  import opened CutoverReaders
  import opened JournalCutover
  import opened JournalParts
  import opened JournalTies
  import opened LifecycleTheorems

  /** An execution with its journal since its creation, and the run it is on when the cutover comes after `k` steps. */
  ghost predicate CreatedRun(e: Execution, createdAt: Time, steps: seq<Step>, k: nat) {
    && Began(e, createdAt) && e.journal[0].kind == Created && StampsRecorded(e)
    && Clocked(createdAt, steps) && k <= |steps|
  }

  ghost function CutOver(e: Execution, steps: seq<Step>, k: nat, cut: Time): Execution
    requires k <= |steps|
  {
    Run(Cutover(Run(e, steps[..k]), cut), steps[k..])
  }

  lemma CreationBegins(d: Draft, now: Time)
    requires Creatable(d)
    ensures CreatedRun(NewExecution(d, now, now), now, [], 0)
  {
    NewExecutionInv(d, now, now);
    var first, second := NewJournal(d, now, now);
  }

  lemma FirstIsCreated(e: Execution, createdAt: Time, steps: seq<Step>)
    requires Began(e, createdAt) && e.journal[0].kind == Created && Clocked(createdAt, steps)
    ensures var j := Run(e, steps).journal;
            && WellFormed(j) && Chronological(j) && j[0] == e.journal[0] && j[0].at == createdAt
            && (forall x :: x in j ==> createdAt <= x.at)
            && (forall x :: x in j && OriginKinds.Has(x.kind) ==> x == j[0])
  {
    RunKeepsInv(e, createdAt, steps);
    RunWrites(e, steps);
    OnlyOrigin(Run(e, steps).journal);
  }

  /** The same row, with one more event in its journal. */
  ghost predicate OneMoreThan(all: Execution, plain: Execution, b: Event) {
    all == plain.(journal := all.journal) && multiset(all.journal) == multiset(plain.journal) + multiset{b}
  }

  /** The cutover adds one baseline, and the run goes on as it would have. */
  lemma CutOverAddsBaseline(e: Execution, createdAt: Time, steps: seq<Step>, k: nat, cut: Time)
    requires CreatedRun(e, createdAt, steps, k)
    ensures OneMoreThan(CutOver(e, steps, k, cut), Run(e, steps), BaselineOf(Run(e, steps[..k]), cut))
    ensures BaselineOf(Run(e, steps[..k]), cut) !in Run(e, steps).journal
  {
    var row := Run(e, steps[..k]);
    NoBaselineYet(e, createdAt, steps, k, cut);
    SplitRun(e, steps, k);
    GoesOn(row, Cutover(row, cut), BaselineOf(row, cut), steps[k..]);
  }

  lemma SplitRun(e: Execution, steps: seq<Step>, k: nat)
    requires k <= |steps|
    ensures Run(Run(e, steps[..k]), steps[k..]) == Run(e, steps)
  {
    assert steps == steps[..k] + steps[k..];
    RunAppend(e, steps[..k], steps[k..]);
  }

  lemma NoBaselineYet(e: Execution, createdAt: Time, steps: seq<Step>, k: nat, cut: Time)
    requires CreatedRun(e, createdAt, steps, k)
    ensures var row := Run(e, steps[..k]);
            && Cutover(row, cut) == row.(journal := row.journal + [BaselineOf(row, cut)])
            && BaselineOf(row, cut) !in Run(e, steps).journal
  {
    RunKeepsStamps(e, steps[..k]);
    FirstIsCreated(e, createdAt, steps[..k]);
    FirstIsCreated(e, createdAt, steps);
    CutoverOfRecorded(Run(e, steps[..k]), cut);
  }

  /** One more event in the journal changes nothing of what a run does and writes. */
  lemma GoesOn(row: Execution, with: Execution, b: Event, steps: seq<Step>)
    requires with == row.(journal := row.journal + [b])
    ensures OneMoreThan(Run(with, steps), Run(row, steps), b)
  {
    RunWrites(row, steps);
    RunWrites(with, steps);
    OneMore(row.journal, b, Written(row, steps));
  }

  lemma CutoverOfRecorded(row: Execution, cut: Time)
    requires StampsRecorded(row) && !HasBaseline(row.journal)
    ensures Cutover(row, cut) == row.(journal := row.journal + [BaselineOf(row, cut)])
  {
    var with := WithBaseline(row, cut);
    StampsStay(row, [BaselineOf(row, cut)]);
    TerminalsRecord(with);
    assert with.journal + [] == with.journal;
  }

  lemma StampsStay(row: Execution, added: seq<Event>)
    requires StampsRecorded(row)
    ensures StampsRecorded(row.(journal := row.journal + added))
  {
    if (row.status == PendingValidation || row.status == Done) && row.markedDoneAt.Some? {
      HoldsStays(row.journal, added, MarkedDone, row.markedDoneAt.value);
    }
    if row.status == Done && row.markedDoneAt.Some? && row.validatedAt.Some? {
      HoldsStays(row.journal, added, Validated, row.validatedAt.value);
    }
    if row.status == Canceled && row.canceledAt.Some? {
      HoldsStays(row.journal, added, CanceledEvent, row.canceledAt.value);
    }
  }

  lemma OneMore(j: seq<Event>, b: Event, w: seq<Event>)
    ensures multiset(j + [b] + w) == multiset(j + w) + multiset{b}
  {
    MultisetJoins(j + [b], w);
    MultisetJoins(j, [b]);
    MultisetJoins(j, w);
  }

  function But(b: Event): Event -> bool { (ev: Event) => ev != b }

  // ----- a baseline after the creation -----

  /** A journal that opens with its creation, and a baseline besides. */
  ghost predicate Besides(j: seq<Event>, b: Event) {
    && WellFormed(j) && j[0].kind == Created && b.kind == HistoryBaseline
    && forall x :: x in j && OriginKinds.Has(x.kind) ==> x == j[0]
  }

  lemma OpensCreated(j: seq<Event>, b: Event, events: seq<Event>)
    requires Besides(j, b) && j[0].at <= b.at
    requires forall x :: x in events <==> x in j || x == b
    ensures Opens(events, j[0])
  {
    assert j[0] in j;
  }

  /** The status reader still starts from the creation, and skips the baseline. */
  lemma BaselineIsSkipped(j: seq<Event>, b: Event, events: seq<Event>, at: Time, reliableFrom: Time)
    requires Besides(j, b) && j[0].at <= b.at
    requires forall x :: x in events <==> x in j || x == b
    requires reliableFrom <= at && j[0].at < at
    ensures StatusAt(at, reliableFrom, Those(events, But(b))) == StatusAt(at, reliableFrom, events)
  {
    OpensCreated(j, b, events);
    StatusOfPart(events, But(b), at, reliableFrom, j[0]);
  }

  lemma JoinedBut(j: seq<Event>, b: Event)
    requires b !in j
    ensures Those([b] + j, But(b)) == j
  {
    ThoseAppend([b], j, But(b));
    ThoseNone([b], But(b));
    ThoseAll(j, But(b));
  }

  /** A cutover after the creation changes no reading of the status. */
  lemma CutoverKeepsStatusReadings(e: Execution, createdAt: Time, steps: seq<Step>, k: nat, cut: Time,
                                   at: Time, reliableFrom: Time, status: Option<Status>)
    requires CreatedRun(e, createdAt, steps, k) && createdAt <= cut && createdAt < at && reliableFrom <= at
    ensures AlwaysReadsStatus(CutOver(e, steps, k, cut).journal, at, reliableFrom, status)
            <==> AlwaysReadsStatus(Run(e, steps).journal, at, reliableFrom, status)
  {
    var b := BaselineOf(Run(e, steps[..k]), cut);
    CutOverAddsBaseline(e, createdAt, steps, k, cut);
    FirstIsCreated(e, createdAt, steps);
    var j, all := Run(e, steps).journal, CutOver(e, steps, k, cut).journal;
    if AlwaysReadsStatus(j, at, reliableFrom, status) {
      ReadingsStay(j, b, all, at, reliableFrom, status);
    }
    if AlwaysReadsStatus(all, at, reliableFrom, status) {
      ReadingsWereSo(j, b, all, at, reliableFrom, status);
    }
  }

  lemma ReadingsStay(j: seq<Event>, b: Event, all: seq<Event>, at: Time, reliableFrom: Time, status: Option<Status>)
    requires Besides(j, b) && j[0].at <= b.at && reliableFrom <= at && j[0].at < at
    requires multiset(all) == multiset(j) + multiset{b} && b !in j
    requires AlwaysReadsStatus(j, at, reliableFrom, status)
    ensures AlwaysReadsStatus(all, at, reliableFrom, status)
  {
    forall events | Relists(events, all) ensures StatusAt(at, reliableFrom, events) == status {
      SkippedReading(j, b, events, at, reliableFrom);
    }
  }

  lemma ReadingsWereSo(j: seq<Event>, b: Event, all: seq<Event>, at: Time, reliableFrom: Time, status: Option<Status>)
    requires Besides(j, b) && j[0].at <= b.at && reliableFrom <= at && j[0].at < at
    requires multiset(all) == multiset(j) + multiset{b} && b !in j
    requires AlwaysReadsStatus(all, at, reliableFrom, status)
    ensures AlwaysReadsStatus(j, at, reliableFrom, status)
  {
    forall part | Relists(part, j) ensures StatusAt(at, reliableFrom, part) == status {
      JoinedReading(j, b, all, part, at, reliableFrom);
    }
  }

  lemma SkippedReading(j: seq<Event>, b: Event, events: seq<Event>, at: Time, reliableFrom: Time)
    requires Besides(j, b) && j[0].at <= b.at && reliableFrom <= at && j[0].at < at && b !in j
    requires multiset(events) == multiset(j) + multiset{b}
    ensures Relists(Those(events, But(b)), j)
    ensures StatusAt(at, reliableFrom, events) == StatusAt(at, reliableFrom, Those(events, But(b)))
  {
    OneLess(events, j, b);
    BaselineIsSkipped(j, b, events, at, reliableFrom);
  }

  lemma JoinedReading(j: seq<Event>, b: Event, all: seq<Event>, part: seq<Event>, at: Time, reliableFrom: Time)
    requires Besides(j, b) && j[0].at <= b.at && reliableFrom <= at && j[0].at < at && b !in j && Relists(part, j)
    requires multiset(all) == multiset(j) + multiset{b}
    ensures Relists([b] + part, all)
    ensures StatusAt(at, reliableFrom, [b] + part) == StatusAt(at, reliableFrom, part)
  {
    OneJoined(part, j, b);
    BaselineIsSkipped(j, b, [b] + part, at, reliableFrom);
  }

  lemma OneJoined(part: seq<Event>, j: seq<Event>, b: Event)
    requires Relists(part, j) && b !in j
    ensures multiset([b] + part) == multiset(j) + multiset{b} && Those([b] + part, But(b)) == part
    ensures forall x :: x in [b] + part <==> x in j || x == b
  {
    MultisetJoins([b], part);
    RelistsSame(part, j);
    JoinedBut(part, b);
  }

  /** Without the baseline the rows fetched list the journal there would have been. */
  lemma OneLess(events: seq<Event>, j: seq<Event>, b: Event)
    requires multiset(events) == multiset(j) + multiset{b} && b !in j
    ensures Relists(Those(events, But(b)), j)
    ensures forall x :: x in events <==> x in j || x == b
  {
    MultisetJoins([b], j);
    assert Relists(events, [b] + j);
    RelistsSame(events, [b] + j);
    ThoseRelist(events, [b] + j, But(b));
    JoinedBut(j, b);
  }

  // ----- the deadline after such a cutover -----

  /** The cutover is at an instant between the first `k` transactions and the others. */
  ghost predicate CutBetween(createdAt: Time, steps: seq<Step>, k: nat, cut: Time) {
    && k <= |steps| && createdAt <= cut
    && (forall i :: 0 <= i < k ==> steps[i].now <= cut)
    && (forall i :: k <= i < |steps| ==> cut <= steps[i].now)
  }

  /** In order up to an instant, and telling the deadline. */
  ghost predicate Tidy(e: Execution, last: Time) {
    EndsTell(e) && Chronological(e.journal) && NotAfter(e.journal, last)
  }

  function LastOf(steps: seq<Step>, k: nat, cut: Time): Time {
    if k < |steps| then steps[|steps| - 1].now else cut
  }

  lemma BaselineEndsTell(row: Execution, cut: Time)
    requires EndsTell(row)
    ensures EndsTell(row.(journal := row.journal + [BaselineOf(row, cut)]))
  {
    var b := BaselineOf(row, cut);
    TransitionSurvives(HistoryBaseline, cut, row.status, row.endAt, map[]);
    LastAppend(row.journal, [b], DeadlineKinds);
    LastAppend(row.journal, [b], OpeningKinds);
    LastAppend(row.journal, [b], TerminalKinds);
    LastOfOne(b, DeadlineKinds);
    LastOfOne(b, OpeningKinds);
    LastOfOne(b, TerminalKinds);
  }

  lemma OrderGrows(j: seq<Event>, added: seq<Event>, last: Time, now: Time)
    requires Chronological(j) && NotAfter(j, last) && last <= now && forall x :: x in added ==> x.at == now
    ensures Chronological(j + added) && NotAfter(j + added, now)
  {
    forall i | 0 <= i < |j + added| ensures (j + added)[i].at <= now && (i >= |j| ==> (j + added)[i].at == now) {
      if i < |j| {
        assert j[i] in j;
      } else {
        assert (j + added)[i] in added;
      }
    }
  }

  lemma RowKept(e: Execution, createdAt: Time, steps: seq<Step>, k: nat, cut: Time)
    requires CreatedRun(e, createdAt, steps, k)
    ensures RowInv(CutOver(e, steps, k, cut))
  {
    CutOverAddsBaseline(e, createdAt, steps, k, cut);
    RunKeepsInv(e, createdAt, steps);
  }

  lemma {:induction false} CutOverTells(e: Execution, createdAt: Time, steps: seq<Step>, k: nat, cut: Time)
    requires CreatedRun(e, createdAt, steps, k) && CutBetween(createdAt, steps, k, cut)
    ensures Tidy(CutOver(e, steps, k, cut), LastOf(steps, k, cut))
    decreases |steps|
  {
    if k == |steps| {
      CutAtEnd(e, createdAt, steps, cut);
    } else {
      var front, last := steps[..|steps| - 1], steps[|steps| - 1];
      CutOverNext(e, steps, k, cut);
      CutOverTells(e, createdAt, front, k, cut);
      RowKept(e, createdAt, front, k, cut);
      TellsNext(CutOver(e, front, k, cut), last.action, last.now, LastOf(front, k, cut));
    }
  }

  lemma CutOverNext(e: Execution, steps: seq<Step>, k: nat, cut: Time)
    requires k < |steps|
    ensures var front, last := steps[..|steps| - 1], steps[|steps| - 1];
            CutOver(e, steps, k, cut) == Apply(CutOver(e, front, k, cut), last.action, last.now)
  {
    var front := steps[..|steps| - 1];
    assert front[..k] == steps[..k] && steps[k..][..|steps[k..]| - 1] == front[k..];
  }

  lemma CutAtEnd(e: Execution, createdAt: Time, steps: seq<Step>, cut: Time)
    requires CreatedRun(e, createdAt, steps, |steps|) && CutBetween(createdAt, steps, |steps|, cut)
    ensures Tidy(CutOver(e, steps, |steps|, cut), cut)
  {
    assert steps[..|steps|] == steps;
    NoBaselineYet(e, createdAt, steps, |steps|, cut);
    RunKeepsInv(e, createdAt, steps);
    assert steps[|steps|..] == [];
    CutRowTells(Run(e, steps), Cutover(Run(e, steps), cut), LastInstant(createdAt, steps), cut);
  }

  lemma CutRowTells(row: Execution, with: Execution, last: Time, cut: Time)
    requires with == row.(journal := row.journal + [BaselineOf(row, cut)])
    requires Tidy(row, last) && last <= cut
    ensures Tidy(with, cut)
  {
    BaselineEndsTell(row, cut);
    OrderGrows(row.journal, [BaselineOf(row, cut)], last, cut);
  }

  lemma TellsNext(e: Execution, a: Action, now: Time, last: Time)
    requires RowInv(e) && Sensible(a) && Tidy(e, last) && last <= now
    ensures Tidy(Apply(e, a, now), now)
  {
    if Apply(e, a, now) != e {
      ApplyGrows(e, a, now);
      EndsGrow(e, Apply(e, a, now), MovedBy(e, a, now), now);
    }
    var added := ApplyAppends(e, a, now);
    OrderGrows(e.journal, added, last, now);
  }

  /** What the cut-over journal holds: the journal there would have been, and the baseline. */
  lemma CutOverMembers(e: Execution, createdAt: Time, steps: seq<Step>, k: nat, cut: Time)
    requires CreatedRun(e, createdAt, steps, k)
    ensures forall x :: x in CutOver(e, steps, k, cut).journal <==> x in Run(e, steps).journal || x == BaselineOf(Run(e, steps[..k]), cut)
  {
    CutOverAddsBaseline(e, createdAt, steps, k, cut);
    OneLess(CutOver(e, steps, k, cut).journal, Run(e, steps).journal, BaselineOf(Run(e, steps[..k]), cut));
  }

  lemma CutOverTellsAll(e: Execution, createdAt: Time, steps: seq<Step>, k: nat, cut: Time)
    requires CreatedRun(e, createdAt, steps, k)
    ensures forall x :: x in CutOver(e, steps, k, cut).journal ==> RecordsDeadline(x)
  {
    CutOverMembers(e, createdAt, steps, k, cut);
    FirstIsCreated(e, createdAt, steps);
    AllTell(Run(e, steps).journal);
    var row := Run(e, steps[..k]);
    TransitionSurvives(HistoryBaseline, cut, row.status, row.endAt, map[]);
  }

  /** What the deadline reader has seen is the journal the row had then, baseline included. */
  lemma SeenOfCutOver(e: Execution, createdAt: Time, steps: seq<Step>, k: nat, cut: Time, n: nat, events: seq<Event>, at: Time)
    requires CreatedRun(e, createdAt, steps, k) && CutBetween(createdAt, steps, k, cut) && StoodAt(steps, n, at) && cut < at
    requires SameEvents(events, CutOver(e, steps, k, cut).journal)
    ensures k <= n && SameEvents(Seen(events, at), CutOver(e, steps[..n], k, cut).journal)
  {
    assert steps[..n][..k] == steps[..k];
    CutOverMembers(e, createdAt, steps, k, cut);
    CutOverMembers(e, createdAt, steps[..n], k, cut);
    CutOverTellsAll(e, createdAt, steps, k, cut);
    CutIsPast(e, createdAt, steps, n, at);
    UntilMembers(Run(e, steps).journal, at);
    SeenEvents(events, at);
  }

  lemma StatusOfCutOver(e: Execution, createdAt: Time, steps: seq<Step>, k: nat, cut: Time, n: nat,
                        events: seq<Event>, at: Time, reliableFrom: Time)
    requires CreatedRun(e, createdAt, steps, k) && CutBetween(createdAt, steps, k, cut) && StoodAt(steps, n, at) && cut < at
    requires SameEvents(events, CutOver(e, steps, k, cut).journal) && Agreeing(CutOver(e, steps, k, cut).journal) && reliableFrom <= at
    ensures StatusAt(at, reliableFrom, events) == Some(Run(e, steps[..n]).status)
  {
    var j, b := Run(e, steps).journal, BaselineOf(Run(e, steps[..k]), cut);
    CutOverMembers(e, createdAt, steps, k, cut);
    CutOverAddsBaseline(e, createdAt, steps, k, cut);
    FirstIsCreated(e, createdAt, steps);
    BaselineIsSkipped(j, b, events, at, reliableFrom);
    ThoseMembers(events, But(b));
    AgreeingWithin(j, CutOver(e, steps, k, cut).journal);
    StatusReaderIsExact(e, createdAt, steps, n, Those(events, But(b)), at, reliableFrom);
  }

  /**
   After a cutover the deadline reader is right, where events that share an instant agree, unless the deadline is
   cleared and the last opening event, now the baseline or a later start, recorded one.  A deadline cleared
   before the cutover is read as cleared.
   */
  lemma CutoverEndIsExactUnlessCleared(e: Execution, createdAt: Time, steps: seq<Step>, k: nat, cut: Time, n: nat,
                                       events: seq<Event>, at: Time, reliableFrom: Time)
    requires CreatedRun(e, createdAt, steps, k) && CutBetween(createdAt, steps, k, cut) && StoodAt(steps, n, at) && cut < at
    requires SameEvents(events, CutOver(e, steps, k, cut).journal) && Agreeing(CutOver(e, steps, k, cut).journal) && reliableFrom <= at
    ensures k <= n
    ensures var row := CutOver(e, steps[..n], k, cut);
            EndAtAt(at, reliableFrom, events) == row.endAt <==> row.endAt.Some? || OpeningEnd(row.journal).None?
  {
    SeenOfCutOver(e, createdAt, steps, k, cut, n, events, at);
    AgreeingWithin(events, CutOver(e, steps, k, cut).journal);
    StatusOfCutOver(e, createdAt, steps, k, cut, n, events, at, reliableFrom);
    RowOfCutOver(e, createdAt, steps, k, cut, n);
    EndOfSeen(events, CutOver(e, steps[..n], k, cut), at, reliableFrom);
  }

  lemma RowOfCutOver(e: Execution, createdAt: Time, steps: seq<Step>, k: nat, cut: Time, n: nat)
    requires CreatedRun(e, createdAt, steps, k) && CutBetween(createdAt, steps, k, cut) && k <= n <= |steps|
    ensures var row := CutOver(e, steps[..n], k, cut);
            Chronological(row.journal) && EndsTell(row) && row.status == Run(e, steps[..n]).status
  {
    CutOverAddsBaseline(e, createdAt, steps[..n], k, cut);
    CutOverTells(e, createdAt, steps[..n], k, cut);
  }

  lemma EndOfSeen(events: seq<Event>, row: Execution, at: Time, reliableFrom: Time)
    requires SameEvents(Seen(events, at), row.journal) && Chronological(row.journal) && EndsTell(row)
    requires Agreeing(events) && reliableFrom <= at && StatusAt(at, reliableFrom, events) == Some(row.status)
    ensures EndAtAt(at, reliableFrom, events) == row.endAt <==> row.endAt.Some? || OpeningEnd(row.journal).None?
  {
    SeenEvents(events, at);
    AgreeingWithin(row.journal, events);
    SameEndsOf(Seen(events, at), row.journal);
    EndInExact(row);
  }

  // ----- a baseline from before the creation -----

  lemma BackdatedOpens(j: seq<Event>, b: Event, events: seq<Event>, at: Time, reliableFrom: Time)
    requires Besides(j, b) && b.at < j[0].at && StatusOf(b, None).Some? && reliableFrom <= at && b.at <= at
    requires forall x :: x in events <==> x in j || x == b
    ensures StatusAt(at, reliableFrom, events) == FoldStatus(Until(SortedEvents(events), at), b.at, StatusOf(b, None))
    ensures Chronological(Until(SortedEvents(events), at))
    ensures forall x :: x in Until(SortedEvents(events), at) <==> (x in j || x == b) && x.at < at
  {
    assert j[0] in j;
    StatusFromOpening(events, at, reliableFrom, b);
    KnownStatus(b, Some(Scheduled));
    SortedEventsOrder(events);
    UntilMembers(SortedEvents(events), at);
    UntilKeepsOrder(SortedEvents(events), at);
  }

  /** The reader starts from the baseline: its status is read until the first change of status after the creation. */
  lemma BackdatedReads(j: seq<Event>, b: Event, events: seq<Event>, at: Time, reliableFrom: Time)
    requires Besides(j, b) && b.at < j[0].at && StatusOf(b, None).Some? && reliableFrom <= at && b.at <= at
    requires Chronological(j) && Agreeing(j)
    requires forall x :: x in events <==> x in j || x == b
    ensures Unmoved(Until(j, at)) ==> StatusAt(at, reliableFrom, events) == StatusOf(b, None)
    ensures !Unmoved(Until(j, at)) ==>
              Last(Until(j, at), StatusKinds).Some?
              && StatusAt(at, reliableFrom, events) == StatusOf(Last(Until(j, at), StatusKinds).value, None)
  {
    var ordered, past := Until(SortedEvents(events), at), Until(j, at);
    BackdatedOpens(j, b, events, at, reliableFrom);
    UntilMembers(j, at);
    UntilKeepsOrder(j, at);
    OnlyOrigin(j);
    FoldIsLastMove(ordered, b.at, StatusOf(b, None));
    LastMoveIsLatest(ordered, b.at);
    if !Unmoved(past) {
      LastStatusIsMoved(past, LastMove(ordered, b.at).value);
    }
  }

  lemma LastStatusIsMoved(past: seq<Event>, move: Event)
    requires Chronological(past) && Agreeing(past) && move in past && IsMove(move)
    requires forall x :: x in past && OriginKinds.Has(x.kind) ==> x.at <= move.at
    requires forall x :: x in past && IsMove(x) ==> x.at <= move.at
    ensures Last(past, StatusKinds).Some? && StatusOf(Last(past, StatusKinds).value, None) == StatusOf(move, None)
  {
    LastIsLatest(past, StatusKinds);
    assert Agree(Last(past, StatusKinds).value, move);
  }

  /**
   Cut over by a rerun, an execution is read with the status it had when the cutover was rerun until it first
   changed status: the reading is right exactly when it had changed status by then, or had that status.
   */
  lemma BackdatedIsRightExactly(e: Execution, createdAt: Time, steps: seq<Step>, k: nat, cut: Time,
                                n: nat, events: seq<Event>, at: Time, reliableFrom: Time)
    requires CreatedRun(e, createdAt, steps, k) && Agreeing(Run(e, steps).journal)
    requires cut < createdAt < at && reliableFrom <= at && StoodAt(steps, n, at)
    requires Relists(events, CutOver(e, steps, k, cut).journal)
    ensures var row, later := Run(e, steps[..n]), Run(e, steps[..k]);
            && StatusAt(at, reliableFrom, events) == Some(if Unmoved(row.journal) then later.status else row.status)
            && (StatusAt(at, reliableFrom, events) == Some(row.status) <==> !Unmoved(row.journal) || later.status == row.status)
  {
    var j, b := Run(e, steps).journal, BaselineOf(Run(e, steps[..k]), cut);
    BackdatedJournal(e, createdAt, steps, k, cut, events);
    BackdatedReads(j, b, events, at, reliableFrom);
    RowThen(e, createdAt, steps, n, at);
  }

  lemma RowThen(e: Execution, createdAt: Time, steps: seq<Step>, n: nat, at: Time)
    requires Began(e, createdAt) && Clocked(createdAt, steps) && StoodAt(steps, n, at) && createdAt < at
    ensures var row := Run(e, steps[..n]);
            && Until(Run(e, steps).journal, at) == row.journal && Last(row.journal, StatusKinds).Some?
            && StatusOf(Last(row.journal, StatusKinds).value, None) == Some(row.status)
  {
    CutIsPast(e, createdAt, steps, n, at);
    RunKeepsInv(e, createdAt, steps[..n]);
  }

  lemma BackdatedJournal(e: Execution, createdAt: Time, steps: seq<Step>, k: nat, cut: Time, events: seq<Event>)
    requires CreatedRun(e, createdAt, steps, k) && Relists(events, CutOver(e, steps, k, cut).journal)
    ensures var j, b := Run(e, steps).journal, BaselineOf(Run(e, steps[..k]), cut);
            && Besides(j, b) && Chronological(j) && j[0].at == createdAt && b.at == cut
            && StatusOf(b, None) == Some(Run(e, steps[..k]).status)
            && forall x :: x in events <==> x in j || x == b
  {
    CutOverAddsBaseline(e, createdAt, steps, k, cut);
    FirstIsCreated(e, createdAt, steps);
    BaselineTells(Run(e, steps[..k]), cut);
    OneLess(events, Run(e, steps).journal, BaselineOf(Run(e, steps[..k]), cut));
  }

  lemma BaselineTells(e: Execution, at: Time)
    ensures StatusOf(BaselineOf(e, at), None) == Some(e.status)
  {
    TransitionSurvives(HistoryBaseline, at, e.status, e.endAt, map[]);
  }

  /** It is read even before it was created. */
  lemma BackdatedIsReadTooEarly(e: Execution, createdAt: Time, steps: seq<Step>, k: nat, cut: Time,
                                events: seq<Event>, at: Time, reliableFrom: Time)
    requires CreatedRun(e, createdAt, steps, k) && Agreeing(Run(e, steps).journal)
    requires cut < createdAt && cut <= at <= createdAt && reliableFrom <= at
    requires Relists(events, CutOver(e, steps, k, cut).journal)
    ensures StatusAt(at, reliableFrom, events) == Some(Run(e, steps[..k]).status)
  {
    var j, b := Run(e, steps).journal, BaselineOf(Run(e, steps[..k]), cut);
    BackdatedJournal(e, createdAt, steps, k, cut, events);
    BackdatedReads(j, b, events, at, reliableFrom);
    UntilMembers(j, at);
  }


  const STARTED: seq<Step> := [Step(DoPromote, 5)]

  /** Created at 2 and started at 5: after a rerun of the cutover of instant 0 it is read as in progress at 4, and at 1. */
  lemma RerunIsMisread() returns (draft: Draft, e: Execution)
    ensures Creatable(draft) && e == NewExecution(draft, 2, 2) && Clocked(2, STARTED) && e.status == Scheduled
    ensures AlwaysReadsStatus(CutOver(e, STARTED, 1, 0).journal, 4, 0, Some(InProgress))
    ensures AlwaysReadsStatus(CutOver(e, STARTED, 1, 0).journal, 1, 0, Some(InProgress))
  {
    draft := Draft(None, None, true, None, false, Some(5), None, None, false);
    e := NewExecution(draft, 2, 2);
    StartsScheduled(draft, e);
    StartedIsMisread(e);
  }

  lemma StartsScheduled(d: Draft, e: Execution)
    requires Creatable(d) && d.startAt == Some(5) && e == NewExecution(d, 2, 2)
    ensures Began(e, 2) && e.journal[0].kind == Created && StampsRecorded(e)
    ensures e.status == Scheduled && e.startAt == Some(5) && Unmoved(e.journal)
  {
    CreationBegins(d, 2);
    var first, second := NewJournal(d, 2, 2);
  }

  lemma StartedIsMisread(e: Execution)
    requires Began(e, 2) && e.journal[0].kind == Created && StampsRecorded(e)
    requires e.status == Scheduled && e.startAt == Some(5) && Unmoved(e.journal)
    ensures AlwaysReadsStatus(CutOver(e, STARTED, 1, 0).journal, 4, 0, Some(InProgress))
    ensures AlwaysReadsStatus(CutOver(e, STARTED, 1, 0).journal, 1, 0, Some(InProgress))
  {
    RunOfOne(e, Step(DoPromote, 5));
    assert STARTED[..1] == STARTED && STARTED[..0] == [];
    assert Run(e, STARTED[..0]) == e;
    LaterStatusIsRead(e, STARTED);
  }

  lemma LaterStatusIsRead(e: Execution, steps: seq<Step>)
    requires CreatedRun(e, 2, steps, 1) && Untied(2, steps) && StoodAt(steps, 0, 4)
    requires Run(e, steps[..0]) == e && Unmoved(e.journal) && Run(e, steps[..1]).status == InProgress
    ensures AlwaysReadsStatus(CutOver(e, steps, 1, 0).journal, 4, 0, Some(InProgress))
    ensures AlwaysReadsStatus(CutOver(e, steps, 1, 0).journal, 1, 0, Some(InProgress))
  {
    RunAgrees(e, 2, steps);
    forall events | Relists(events, CutOver(e, steps, 1, 0).journal)
      ensures StatusAt(4, 0, events) == StatusAt(1, 0, events) == Some(InProgress) {
      BackdatedIsRightExactly(e, 2, steps, 1, 0, 0, events, 4, 0);
      BackdatedIsReadTooEarly(e, 2, steps, 1, 0, events, 1, 0);
    }
  }
}
