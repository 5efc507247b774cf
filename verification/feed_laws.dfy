/**
 What the feed and the history show, and in which order, said of the stored fields alone, and
 what a reader of all pages therefore receives.
 */
module FeedLaws {
  import opened Core
  import opened Sql
  import opened Lifecycle
  import opened LifecycleTheorems
  import opened FeedCursor
  import opened Pagination
  import opened FeedPages

  /** The clock counts microseconds. */
  const HOUR: Time := 60 * 60 * 1_000_000
  const DAY: Time := 24 * HOUR

  // ----- which rows -----

  /** A stored instant lies less than `retention` back, and the row was visible by then. */
  predicate RecentlyEnded(endedAt: Option<Time>, visibleFrom: Option<Time>, retention: Time, now: Time) {
    && endedAt.Some? && now < endedAt.value + retention
    && (visibleFrom.Some? ==> visibleFrom.value <= endedAt.value)
  }

  /** The instant a done row counts as done: validated, or marked done where nobody has to validate. */
  function DoneAt(e: Execution): Option<Time> {
    if e.validatedAt.Some? then e.validatedAt else if e.requiresValidation then None else e.markedDoneAt
  }

  predicate IsShown(r: FeedRow, now: Time) {
    var e := r.execution;
    r.visible &&
    match e.status
    case Scheduled => false
    case InProgress => e.visibleFrom.None? || e.visibleFrom.value <= now
    case PendingValidation => e.visibleFrom.None? || e.visibleFrom.value <= now
    case Done => e.startedAt.Some? && RecentlyEnded(DoneAt(e), e.visibleFrom, 10 * DAY, now)
    case Canceled => e.startedAt.Some? && RecentlyEnded(e.canceledAt, e.visibleFrom, 48 * HOUR, now)
  }

  lemma DoneRetained(e: Execution, now: Time)
    requires e.status == Done
    ensures Retained(e, now) == Yes <==> e.startedAt.Some? && RecentlyEnded(DoneAt(e), e.visibleFrom, 10 * DAY, now)
  {
  }

  lemma CanceledRetained(e: Execution, now: Time)
    requires e.status == Canceled
    ensures Retained(e, now) == Yes <==> e.startedAt.Some? && RecentlyEnded(e.canceledAt, e.visibleFrom, 48 * HOUR, now)
  {
  }

  lemma NothingElseRetained(e: Execution, now: Time)
    requires e.status != Done && e.status != Canceled
    ensures Retained(e, now) != Yes
  {
  }

  /** The feed shows exactly these rows, whatever is null in them. */
  lemma FeedShowsExactly(r: FeedRow, now: Time)
    ensures InFeed(r, now) <==> IsShown(r, now)
  {
    match r.execution.status
    case Done => DoneRetained(r.execution, now);
    case Canceled => CanceledRetained(r.execution, now);
    case _ => NothingElseRetained(r.execution, now);
  }

  predicate IsLate(e: Execution, asOf: Time) { e.endAt.Some? && e.endAt.value < asOf }

  predicate BelongsTo(e: Execution, asOf: Time, c: Category) {
    match c
    case All => true
    case AwaitingValidation => e.status == PendingValidation
    case Overdue => e.status == InProgress && IsLate(e, asOf)
    case Ongoing => e.status == InProgress && !IsLate(e, asOf)
    case Completed => e.status == Done
    case Dropped => e.status == Canceled
  }

  lemma CategoriesExactly(e: Execution, asOf: Time, c: Category)
    ensures InCategory(e, asOf, c) <==> BelongsTo(e, asOf, c)
  {
  }

  predicate IsListed(r: FeedRow, now: Time, asOf: Time, c: Category) {
    IsShown(r, now) && !r.pinned && BelongsTo(r.execution, asOf, c)
  }

  lemma ListsExactly(rows: seq<FeedRow>, now: Time, asOf: Time, c: Category)
    ensures forall r :: r in Wanted(Request(rows, now), asOf, c) <==> r in rows && IsListed(r, now, asOf, c)
  {
    var keep := (r: FeedRow) => InFeed(r, now) && !r.pinned && InCategory(r.execution, asOf, c);
    FilterMembers(rows, keep);
    forall r: FeedRow ensures keep(r) <==> IsListed(r, now, asOf, c) {
      FeedShowsExactly(r, now);
      CategoriesExactly(r.execution, asOf, c);
    }
  }

  lemma {:induction false} FilterCounts(rows: seq<FeedRow>, keep: FeedRow -> bool)
    requires DistinctIds(rows)
    ensures |Filter(rows, keep)| == |set r | r in rows && keep(r)|
  {
    var counted := set r | r in rows && keep(r);
    if rows == [] {
      assert counted == {};
    } else {
      var first, rest := rows[0], rows[1..];
      FilterCounts(rest, keep);
      assert first !in rest;
      assert rows == [first] + rest;
      var later := set r | r in rest && keep(r);
      assert counted == if keep(first) then later + {first} else later;
    }
  }

  /** The number a section shows is the number of its rows in the feed, pinned ones included. */
  lemma CountsExactly(rows: seq<FeedRow>, now: Time, asOf: Time, c: Category)
    requires DistinctIds(rows)
    ensures Count(rows, now, asOf, c) == |set r | r in rows && IsShown(r, now) && BelongsTo(r.execution, asOf, c)|
  {
    var keep := (r: FeedRow) => InFeed(r, now) && InCategory(r.execution, asOf, c);
    FilterCounts(rows, keep);
    forall r: FeedRow ensures keep(r) <==> IsShown(r, now) && BelongsTo(r.execution, asOf, c) {
      FeedShowsExactly(r, now);
      CategoriesExactly(r.execution, asOf, c);
    }
    assert (set r | r in rows && keep(r)) == set r | r in rows && IsShown(r, now) && BelongsTo(r.execution, asOf, c);
  }

  // ----- in which order -----

  /** Rows awaiting validation come first, then late ones, those with a deadline, those without, and finished ones. */
  function SectionOf(e: Execution, asOf: Time): nat {
    match e.status
    case PendingValidation => 0
    case InProgress => if IsLate(e, asOf) then 1 else if e.endAt.Some? then 2 else 3
    case _ => 4
  }

  predicate Earlier(a: Option<Time>, b: Option<Time>) {
    a.Some? && (b.None? || a.value < b.value)
  }

  /** Waiting rows by the instant they were marked done, then by id; the latest activity first among the others. */
  predicate ComesBefore(x: FeedRow, y: FeedRow, asOf: Time) {
    var a, b := x.execution, y.execution;
    SectionOf(a, asOf) < SectionOf(b, asOf) ||
    (SectionOf(a, asOf) == SectionOf(b, asOf) &&
     if a.status == PendingValidation then
       Earlier(a.markedDoneAt, b.markedDoneAt) || (a.markedDoneAt == b.markedDoneAt && x.id < y.id)
     else
       Earlier(a.endAt, b.endAt) || (a.endAt == b.endAt && MoreRecent(x, y)))
  }

  predicate MoreRecent(x: FeedRow, y: FeedRow) {
    var a, b := x.execution.lastActivityAt, y.execution.lastActivityAt;
    b < a || (a == b && (y.createdAt < x.createdAt || (x.createdAt == y.createdAt && y.id < x.id)))
  }

  lemma MoreRecentIsLastKey(x: FeedRow, y: FeedRow, asOf: Time)
    ensures Before(LastKey(x, asOf), LastKey(y, asOf)) <==> MoreRecent(x, y)
  {
    LastKeyUnfolds(x, y, asOf);
  }

  lemma TailsInSection(x: FeedRow, y: FeedRow, asOf: Time)
    requires SectionOf(x.execution, asOf) == SectionOf(y.execution, asOf) > 0
    ensures var a, b := x.execution, y.execution;
            Before(TailKey(x, asOf), TailKey(y, asOf)) <==>
            Earlier(a.endAt, b.endAt) || (a.endAt == b.endAt && MoreRecent(x, y))
  {
    TailKeyUnfolds(x, y, asOf);
    MoreRecentIsLastKey(x, y, asOf);
  }

  /** The deciding keys put one row before another exactly when it comes before it by its fields. */
  lemma CursorOrderExactly(x: FeedRow, y: FeedRow, asOf: Time)
    ensures CursorOrder(asOf)(x, y) <==> ComesBefore(x, y, asOf)
  {
    var nulls: Key := [None] + ([None] + ([None] + ([None] + [None])));
    NothingBeforeNulls();
    HeadUnfolds(x, y, asOf, if x.execution.status == PendingValidation then nulls else TailKey(x, asOf),
                if y.execution.status == PendingValidation then nulls else TailKey(y, asOf));
    if SectionOf(x.execution, asOf) == SectionOf(y.execution, asOf) > 0 {
      TailsInSection(x, y, asOf);
    }
  }

  /** So does the `ORDER BY` for two different rows. */
  lemma FeedOrderExactly(x: FeedRow, y: FeedRow, asOf: Time)
    requires x.id != y.id
    ensures FeedOrder(asOf)(x, y) <==> ComesBefore(x, y, asOf)
  {
    DecidingKeyDecides(x, y, asOf);
    CursorOrderExactly(x, y, asOf);
  }

  /** A cursor written from one row lets exactly the rows through that come after it by their fields. */
  lemma CursorPassesExactly(x: FeedRow, y: FeedRow, asOf: Time)
    ensures CursorAt(x, asOf).asOf == asOf
    ensures Holds(AfterCursorQ(CursorAt(x, asOf)), Annotated(y, asOf)) <==> ComesBefore(x, y, asOf)
  {
    AfterCursorIsAfter(x, y, asOf);
    CursorOrderExactly(x, y, asOf);
  }

  // ----- all pages -----

  ghost predicate InOrder(items: seq<FeedRow>, asOf: Time) {
    forall i, j :: 0 <= i < j < |items| ==> ComesBefore(items[i], items[j], asOf)
  }

  /** The pages are full but for the last, which says that it is, and all carry the frozen instant. */
  ghost predicate WellCut(pages: seq<FeedPage>, asOf: Time, size: nat) {
    forall k :: 0 <= k < |pages| ==>
      && pages[k].asOf == asOf && |pages[k].items| <= size
      && (pages[k].hasMore <==> pages[k].next.Some?)
      && (pages[k].hasMore ==> |pages[k].items| == size)
      && (k + 1 < |pages| ==> pages[k].hasMore)
  }

  lemma PagesAreWellCut(requests: seq<Request>, asOf: Time, c: Category, size: nat, pages: seq<FeedPage>)
    requires Reads(requests, asOf, c, size, pages)
    ensures WellCut(pages, asOf, size)
  {
    var tables, lists := ReadsTraverses(requests, asOf, c, size, pages, |pages|);
    forall k | 0 <= k < |pages|
      ensures pages[k].asOf == asOf && |pages[k].items| <= size
      ensures pages[k].hasMore <==> pages[k].next.Some?
      ensures pages[k].hasMore ==> |pages[k].items| == size
      ensures k + 1 < |pages| ==> pages[k].hasMore
    {
      assert pages[k] == CutPage(lists[k], asOf, size);
      PageShape(lists[k], size);
      if k + 1 < |pages| {
        assert Asks(requests, asOf, c, size, pages, k + 1);
      }
    }
  }

  ghost predicate Steady(requests: seq<Request>, asOf: Time, c: Category) {
    forall k :: 0 <= k < |requests| ==>
      && requests[k].rows == requests[0].rows
      && forall r :: r in requests[0].rows ==> (IsListed(r, requests[k].now, asOf, c) <==> IsListed(r, requests[0].now, asOf, c))
  }

  lemma {:induction false} FiltersAgree(rows: seq<FeedRow>, one: FeedRow -> bool, other: FeedRow -> bool)
    requires forall r :: r in rows ==> one(r) == other(r)
    ensures Filter(rows, one) == Filter(rows, other)
  {
    if rows != [] {
      FiltersAgree(rows[1..], one, other);
    }
  }

  lemma SameRowsWanted(rows: seq<FeedRow>, now: Time, later: Time, asOf: Time, c: Category)
    requires forall r :: r in rows ==> (IsListed(r, now, asOf, c) <==> IsListed(r, later, asOf, c))
    ensures Wanted(Request(rows, now), asOf, c) == Wanted(Request(rows, later), asOf, c)
  {
    var one := (r: FeedRow) => InFeed(r, now) && !r.pinned && InCategory(r.execution, asOf, c);
    var other := (r: FeedRow) => InFeed(r, later) && !r.pinned && InCategory(r.execution, asOf, c);
    forall r | r in rows ensures one(r) == other(r) {
      FeedShowsExactly(r, now);
      FeedShowsExactly(r, later);
      CategoriesExactly(r.execution, asOf, c);
    }
    FiltersAgree(rows, one, other);
  }

  /**
   A reader who follows the feed to its end over rows that stay as they are receives every unpinned
   row of the category that the feed shows, nothing else, each once, in the order of its fields.
   */
  lemma ReaderReceivesExactly(requests: seq<Request>, asOf: Time, c: Category, size: nat, pages: seq<FeedPage>)
    requires Reads(requests, asOf, c, size, pages) && !pages[|pages| - 1].hasMore && Steady(requests, asOf, c)
    ensures forall r :: r in AllItems(pages, |pages|) <==> r in requests[0].rows && IsListed(r, requests[0].now, asOf, c)
    ensures InOrder(AllItems(pages, |pages|), asOf)
  {
    var rows, now := requests[0].rows, requests[0].now;
    forall k | 0 <= k < |requests| ensures Wanted(requests[k], asOf, c) == Wanted(requests[0], asOf, c) {
      assert requests[k] == Request(rows, requests[k].now) && requests[0] == Request(rows, now);
      SameRowsWanted(rows, requests[k].now, now, asOf, c);
    }
    FeedYieldsWholeList(requests, asOf, c, size, pages);
    assert Asks(requests, asOf, c, size, pages, 0);
    FilterKeepsIds(rows, (r: FeedRow) => InFeed(r, now) && !r.pinned && InCategory(r.execution, asOf, c));
    OrderedRows(Wanted(requests[0], asOf, c), asOf);
    ListsExactly(rows, now, asOf, c);
    var items := AllItems(pages, |pages|);
    forall i, j | 0 <= i < j < |items| ensures ComesBefore(items[i], items[j], asOf) {
      CursorOrderExactly(items[i], items[j], asOf);
    }
  }

  /**
   Whatever changes between the requests: a row that is listed at each of them, in states that
   neither comes before the other, is on some page of a finished reading.
   */
  lemma ListedRowIsServed(requests: seq<Request>, asOf: Time, c: Category, size: nat, pages: seq<FeedPage>, states: seq<FeedRow>)
    requires Reads(requests, asOf, c, size, pages) && !pages[|pages| - 1].hasMore && |states| == |requests|
    requires forall k :: 0 <= k < |states| ==> states[k] in requests[k].rows && IsListed(states[k], requests[k].now, asOf, c)
    requires forall k :: 0 <= k < |states| ==> !ComesBefore(states[k], states[0], asOf) && !ComesBefore(states[0], states[k], asOf)
    ensures exists k :: 0 <= k < |pages| && Serves(pages[k].items, states[0], asOf)
  {
    forall k | 0 <= k < |requests| ensures HasKey(Wanted(requests[k], asOf, c), states[0], asOf) {
      ListsExactly(requests[k].rows, requests[k].now, asOf, c);
      SamePlaceIsSameKey(states[k], states[0], asOf);
    }
    FeedMissesNothing(requests, asOf, c, size, pages, states[0]);
    var k :| 0 <= k < |pages| && HasKey(pages[k].items, states[0], asOf);
    var x :| x in pages[k].items && DecidingKey(x, asOf) == DecidingKey(states[0], asOf);
    SamePlaceIsSameKey(x, states[0], asOf);
    KeyTellsId(x, states[0], asOf);
    assert Serves(pages[k].items, states[0], asOf);
  }

  /** The row with this id, in a state with the same place in the order. */
  ghost predicate Serves(items: seq<FeedRow>, wanted: FeedRow, asOf: Time) {
    exists x :: x in items && x.id == wanted.id && !ComesBefore(x, wanted, asOf) && !ComesBefore(wanted, x, asOf)
  }

  lemma SamePlaceIsSameKey(x: FeedRow, y: FeedRow, asOf: Time)
    ensures DecidingKey(x, asOf) == DecidingKey(y, asOf) <==> !ComesBefore(x, y, asOf) && !ComesBefore(y, x, asOf)
  {
    CursorOrderExactly(x, y, asOf);
    CursorOrderExactly(y, x, asOf);
    SameKeyIsEqual(x, y, asOf);
  }

  lemma KeyTellsId(x: FeedRow, y: FeedRow, asOf: Time)
    requires !ComesBefore(x, y, asOf) && !ComesBefore(y, x, asOf)
    ensures x.id == y.id
  {
  }
}
