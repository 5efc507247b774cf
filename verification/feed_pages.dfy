/** The pages of the execution feed, and what a reader of all of them receives. */
module FeedPages {
  import opened Core
  import opened Sql
  import opened Lifecycle
  import opened LifecycleTheorems
  import opened FeedCursor
  import opened Pagination

  // ----- which rows the feed shows -----

  /** Ten days, and forty-eight hours, in microseconds. */
  const VALIDATED_RETENTION: Time := 864_000_000_000
  const CANCELED_RETENTION: Time := 172_800_000_000

  function AtMost(a: Option<Time>, b: Option<Time>): Truth {
    Not(LessThan(b, a))
  }

  /** Finished rows still inside their retention window, as the query says it. */
  function Retained(e: Execution, now: Time): Truth {
    var started := Not(IsNull(e.startedAt));
    var doneAfter := Some(now - VALIDATED_RETENTION);
    Either(
      Both(Both(Both(Known(e.status == Done), started), LessThan(doneAfter, e.validatedAt)),
           Either(IsNull(e.visibleFrom), AtMost(e.visibleFrom, e.validatedAt))),
      Either(
        Both(Both(Both(Both(Both(Known(e.status == Done), started), IsNull(e.validatedAt)), Known(!e.requiresValidation)),
                  LessThan(doneAfter, e.markedDoneAt)),
             Either(IsNull(e.visibleFrom), AtMost(e.visibleFrom, e.markedDoneAt))),
        Both(Both(Both(Known(e.status == Canceled), started), LessThan(Some(now - CANCELED_RETENTION), e.canceledAt)),
             Either(IsNull(e.visibleFrom), AtMost(e.visibleFrom, e.canceledAt)))))
  }

  function RetentionOf(s: Status): Time { if s == Canceled then CANCELED_RETENTION else VALIDATED_RETENTION }

  /**
   A reachable row is retained exactly when it started, finished inside the window of its status,
   and was visible by the terminal instant the history list shows for it.
   */
  lemma RetainedIsRecentTerminal(e: Execution, now: Time)
    requires RowInv(e)
    ensures Retained(e, now) == Yes <==>
            && Finished(e.status) && e.startedAt.Some?
            && TerminalAt(e).Some? && now - RetentionOf(e.status) < TerminalAt(e).value
            && (e.visibleFrom.None? || e.visibleFrom.value <= TerminalAt(e).value)
  {
  }

  predicate InFeed(r: FeedRow, now: Time) {
    && r.visible
    && (Retained(r.execution, now) == Yes
        || (IsActive(r.execution.status)
            && Either(IsNull(r.execution.visibleFrom), AtMost(r.execution.visibleFrom, Some(now))) == Yes))
  }

  datatype Category = All | AwaitingValidation | Overdue | Ongoing | Completed | Dropped

  predicate InCategory(e: Execution, asOf: Time, c: Category) {
    match c
    case All => true
    case AwaitingValidation => e.status == PendingValidation
    case Overdue => e.status == InProgress && SqlBucket(e, asOf) == OVERDUE
    case Ongoing => e.status == InProgress && SqlBucket(e, asOf) != OVERDUE
    case Completed => e.status == Done
    case Dropped => e.status == Canceled
  }

  function CategoryOf(e: Execution, asOf: Time): Category {
    match e.status
    case PendingValidation => AwaitingValidation
    case InProgress => if SqlBucket(e, asOf) == OVERDUE then Overdue else Ongoing
    case Done => Completed
    case _ => Dropped
  }

  function Count(rows: seq<FeedRow>, now: Time, asOf: Time, c: Category): nat {
    |Filter(rows, (r: FeedRow) => InFeed(r, now) && InCategory(r.execution, asOf, c))|
  }

  lemma FeedIsNotScheduled(r: FeedRow, now: Time)
    requires InFeed(r, now)
    ensures r.execution.status != Scheduled
  {
  }

  lemma OneSection(e: Execution, asOf: Time)
    requires e.status != Scheduled
    ensures forall c :: c != All ==> (InCategory(e, asOf, c) <==> c == CategoryOf(e, asOf))
  {
  }

  /** Every feed row is in exactly one section, so the section counts add up to the whole feed. */
  lemma {:induction false} SectionsPartitionFeed(rows: seq<FeedRow>, now: Time, asOf: Time)
    ensures Count(rows, now, asOf, All) ==
            Count(rows, now, asOf, AwaitingValidation) + Count(rows, now, asOf, Overdue) + Count(rows, now, asOf, Ongoing) +
            Count(rows, now, asOf, Completed) + Count(rows, now, asOf, Dropped)
  {
    if rows != [] {
      SectionsPartitionFeed(rows[1..], now, asOf);
      var e := rows[0].execution;
      if InFeed(rows[0], now) {
        FeedIsNotScheduled(rows[0], now);
        OneSection(e, asOf);
      }
    }
  }

  // ----- one page -----

  function FeedOrder(asOf: Time): Less<FeedRow> {
    (x, y) => Before(SortKey(x, asOf), SortKey(y, asOf))
  }

  /** The order of the keys that decide, which is what a cursor remembers of its row. */
  function CursorOrder(asOf: Time): Less<FeedRow> {
    (x, y) => Before(DecidingKey(x, asOf), DecidingKey(y, asOf))
  }

  function Eligible(rows: seq<FeedRow>, now: Time, asOf: Time, c: Category): seq<FeedRow> {
    Filter(rows, (r: FeedRow) => InFeed(r, now) && !r.pinned && InCategory(r.execution, asOf, c))
  }

  datatype FeedPage = FeedPage(items: seq<FeedRow>, hasMore: bool, next: Option<Cursor>, asOf: Time)

  function CutPage(list: seq<FeedRow>, asOf: Time, size: nat): FeedPage {
    var page := PageOf(list, size);
    FeedPage(page.items, page.hasMore,
             if page.hasMore && page.items != [] then Some(CursorAt(page.items[|page.items| - 1], asOf)) else None, asOf)
  }

  function AfterRows(r: Request, c: Category, cursor: Cursor): seq<FeedRow> {
    Filter(Eligible(r.rows, r.now, cursor.asOf, c),
           (row: FeedRow) => Holds(AfterCursorQ(cursor), Annotated(row, cursor.asOf)))
  }

  /** What one request finds: the table, and the instant it reads for visibility and retention. */
  datatype Request = Request(rows: seq<FeedRow>, now: Time)

  /** Without a cursor the request freezes `asOf`; with one it takes the cursor's. */
  function PageFor(r: Request, asOf: Time, c: Category, size: nat, cursor: Option<Cursor>): FeedPage {
    match cursor
    case None => CutPage(OrderBy(Eligible(r.rows, r.now, asOf, c), FeedOrder(asOf)), asOf, size)
    case Some(cur) => CutPage(OrderBy(AfterRows(r, c, cur), FeedOrder(cur.asOf)), cur.asOf, size)
  }

  ghost predicate DistinctIds(rows: seq<FeedRow>) {
    forall i, j :: 0 <= i < j < |rows| ==> rows[i].id != rows[j].id
  }

  lemma OrdersAreStrict(asOf: Time)
    ensures StrictWeak(FeedOrder(asOf)) && StrictWeak(CursorOrder(asOf))
  {
    forall x: FeedRow, y: FeedRow
      ensures FeedOrder(asOf)(x, y) ==> !FeedOrder(asOf)(y, x)
      ensures CursorOrder(asOf)(x, y) ==> !CursorOrder(asOf)(y, x)
    {
      BeforeTotal(SortKey(x, asOf), SortKey(y, asOf));
      BeforeTotal(DecidingKey(x, asOf), DecidingKey(y, asOf));
    }
    forall x: FeedRow, y: FeedRow, z: FeedRow
      ensures FeedOrder(asOf)(x, y) ==> FeedOrder(asOf)(x, z) || FeedOrder(asOf)(z, y)
      ensures CursorOrder(asOf)(x, y) ==> CursorOrder(asOf)(x, z) || CursorOrder(asOf)(z, y)
    {
      KeysSplit(SortKey(x, asOf), SortKey(y, asOf), SortKey(z, asOf));
      KeysSplit(DecidingKey(x, asOf), DecidingKey(y, asOf), DecidingKey(z, asOf));
    }
  }

  lemma KeysSplit(a: Key, b: Key, c: Key)
    requires |a| == |b| == |c|
    ensures Before(a, b) ==> Before(a, c) || Before(c, b)
  {
    if Before(a, b) {
      BeforeSplits(a, b, c);
    }
  }

  lemma {:induction false} FilterKeepsIds(rows: seq<FeedRow>, keep: FeedRow -> bool)
    requires DistinctIds(rows)
    ensures DistinctIds(Filter(rows, keep))
  {
    if rows != [] {
      FilterKeepsIds(rows[1..], keep);
      FilterMembers(rows[1..], keep);
      var tail := rows[1..];
      forall x | x in tail ensures x.id != rows[0].id {
        var k :| 0 <= k < |tail| && tail[k] == x;
        assert rows[k + 1] == x;
      }
      var rest := Filter(tail, keep);
      forall i | 0 <= i < |rest| ensures rest[i].id != rows[0].id {
        assert rest[i] in rest;
      }
    }
  }

  lemma IdsAreKeys(rows: seq<FeedRow>, x: FeedRow, y: FeedRow)
    requires DistinctIds(rows) && x in rows && y in rows
    ensures x.id == y.id ==> x == y
  {
    var k :| 0 <= k < |rows| && rows[k] == x;
    var m :| 0 <= m < |rows| && rows[m] == y;
    assert x.id == y.id ==> k == m;
  }

  /** What the database returns for rows with distinct ids is also ordered by the deciding keys. */
  lemma OrderedRows(rows: seq<FeedRow>, asOf: Time)
    requires DistinctIds(rows)
    ensures var list := OrderBy(rows, FeedOrder(asOf));
            Ordered(list, CursorOrder(asOf)) && forall x :: x in list <==> x in rows
  {
    var less := FeedOrder(asOf);
    OrdersAreStrict(asOf);
    forall i, j | 0 <= i < j < |rows| ensures less(rows[i], rows[j]) || less(rows[j], rows[i]) {
      DecidingKeyDecides(rows[i], rows[j], asOf);
    }
    OrderByOrders(rows, less);
    var list := OrderBy(rows, less);
    forall i, j | 0 <= i < j < |list| ensures CursorOrder(asOf)(list[i], list[j]) {
      assert list[i] in rows && list[j] in rows && less(list[i], list[j]);
      IdsAreKeys(rows, list[i], list[j]);
      DecidingKeyDecides(list[i], list[j], asOf);
    }
  }

  function Wanted(r: Request, asOf: Time, c: Category): seq<FeedRow> {
    Eligible(r.rows, r.now, asOf, c)
  }

  /** The first page is cut from the whole ordered category list. */
  lemma FirstPageIsCut(r: Request, asOf: Time, c: Category, size: nat) returns (list: seq<FeedRow>)
    requires DistinctIds(r.rows)
    ensures list == OrderBy(Wanted(r, asOf, c), FeedOrder(asOf))
    ensures PageFor(r, asOf, c, size, None) == CutPage(list, asOf, size)
    ensures Lists(list, Wanted(r, asOf, c), CursorOrder(asOf), None)
  {
    FilterKeepsIds(r.rows, (row: FeedRow) => InFeed(row, r.now) && !row.pinned && InCategory(row.execution, asOf, c));
    OrderedRows(Wanted(r, asOf, c), asOf);
    list := OrderBy(Wanted(r, asOf, c), FeedOrder(asOf));
  }

  /** The database's answer behind a cursor: exactly the eligible rows after the row it was written from. */
  lemma AnswerAfterRow(r: Request, asOf: Time, c: Category, x: FeedRow) returns (list: seq<FeedRow>)
    requires DistinctIds(r.rows)
    ensures list == OrderBy(AfterRows(r, c, CursorAt(x, asOf)), FeedOrder(asOf))
    ensures Lists(list, Wanted(r, asOf, c), CursorOrder(asOf), Some(x))
  {
    var cursor := CursorAt(x, asOf);
    var eligible := Wanted(r, asOf, c);
    var after := (row: FeedRow) => Holds(AfterCursorQ(cursor), Annotated(row, asOf));
    FilterKeepsIds(r.rows, (row: FeedRow) => InFeed(row, r.now) && !row.pinned && InCategory(row.execution, asOf, c));
    FilterKeepsIds(eligible, after);
    FilterMembers(eligible, after);
    assert AfterRows(r, c, cursor) == Filter(eligible, after);
    OrderedRows(Filter(eligible, after), asOf);
    forall y: FeedRow ensures after(y) <==> CursorOrder(asOf)(x, y) {
      AfterCursorIsAfter(x, y, asOf);
    }
    list := OrderBy(AfterRows(r, c, cursor), FeedOrder(asOf));
  }

  lemma CutPageNext(list: seq<FeedRow>, asOf: Time, size: nat) returns (x: FeedRow)
    requires CutPage(list, asOf, size).next.Some?
    ensures PageOf(list, size).hasMore && LastServed(list, size) == Some(x)
    ensures CutPage(list, asOf, size).next == Some(CursorAt(x, asOf))
  {
    var items := PageOf(list, size).items;
    x := items[|items| - 1];
  }

  /** A continued page is cut from what follows the page before it. */
  lemma NextPageIsCut(r: Request, prior: seq<FeedRow>, asOf: Time, c: Category, size: nat) returns (list: seq<FeedRow>)
    requires CutPage(prior, asOf, size).next.Some? && DistinctIds(r.rows)
    ensures PageFor(r, asOf, c, size, CutPage(prior, asOf, size).next) == CutPage(list, asOf, size)
    ensures Follows(Wanted(r, asOf, c), prior, list, CursorOrder(asOf), size)
  {
    var x := CutPageNext(prior, asOf, size);
    list := AnswerAfterRow(r, asOf, c, x);
  }

  // ----- all pages -----

  /** A reader asks for the first page and then follows the cursors. */
  ghost predicate Reads(requests: seq<Request>, asOf: Time, c: Category, size: nat, pages: seq<FeedPage>) {
    && |requests| == |pages| > 0 && size > 0
    && forall k :: 0 <= k < |pages| ==> Asks(requests, asOf, c, size, pages, k)
  }

  ghost predicate Asks(requests: seq<Request>, asOf: Time, c: Category, size: nat, pages: seq<FeedPage>, k: nat)
    requires k < |pages| == |requests|
  {
    && DistinctIds(requests[k].rows)
    && (k > 0 ==> pages[k - 1].next.Some?)
    && pages[k] == PageFor(requests[k], asOf, c, size, if k == 0 then None else pages[k - 1].next)
  }

  ghost predicate CutFrom(pages: seq<FeedPage>, lists: seq<seq<FeedRow>>, asOf: Time, size: nat, n: nat) {
    n <= |lists| && n <= |pages| && forall k :: 0 <= k < n ==> pages[k] == CutPage(lists[k], asOf, size)
  }

  ghost predicate Tabled(tables: seq<seq<FeedRow>>, requests: seq<Request>, asOf: Time, c: Category, n: nat) {
    n <= |requests| && |tables| == n && forall k :: 0 <= k < n ==> tables[k] == Wanted(requests[k], asOf, c)
  }

  lemma CutFromGrows(pages: seq<FeedPage>, lists: seq<seq<FeedRow>>, asOf: Time, size: nat, list: seq<FeedRow>)
    requires CutFrom(pages, lists, asOf, size, |lists|) && |lists| < |pages|
    requires pages[|lists|] == CutPage(list, asOf, size)
    ensures CutFrom(pages, lists + [list], asOf, size, |lists| + 1)
  {
  }

  lemma TabledGrows(tables: seq<seq<FeedRow>>, requests: seq<Request>, asOf: Time, c: Category)
    requires Tabled(tables, requests, asOf, c, |tables|) && |tables| < |requests|
    ensures Tabled(tables + [Wanted(requests[|tables|], asOf, c)], requests, asOf, c, |tables| + 1)
  {
  }

  lemma NextReadIsCut(requests: seq<Request>, asOf: Time, c: Category, size: nat, pages: seq<FeedPage>, n: nat,
                      lists: seq<seq<FeedRow>>) returns (list: seq<FeedRow>)
    requires 0 < n < |pages| == |requests| && Asks(requests, asOf, c, size, pages, n)
    requires |lists| == n && CutFrom(pages, lists, asOf, size, n)
    ensures pages[n] == CutPage(list, asOf, size)
    ensures Follows(Wanted(requests[n], asOf, c), lists[n - 1], list, CursorOrder(asOf), size)
  {
    list := NextPageIsCut(requests[n], lists[n - 1], asOf, c, size);
  }

  /** Following the feed's cursors is a keyset traversal, at one frozen `asOf`. */
  lemma {:induction false} ReadsTraverses(requests: seq<Request>, asOf: Time, c: Category, size: nat, pages: seq<FeedPage>, n: nat)
      returns (tables: seq<seq<FeedRow>>, lists: seq<seq<FeedRow>>)
    requires Reads(requests, asOf, c, size, pages) && 0 < n <= |pages|
    ensures |lists| == n && Tabled(tables, requests, asOf, c, n) && CutFrom(pages, lists, asOf, size, n)
    ensures Traversal(tables, lists, CursorOrder(asOf), size)
    ensures lists[0] == OrderBy(Wanted(requests[0], asOf, c), FeedOrder(asOf))
  {
    assert Asks(requests, asOf, c, size, pages, n - 1);
    var table := Wanted(requests[n - 1], asOf, c);
    if n == 1 {
      var list := FirstPageIsCut(requests[0], asOf, c, size);
      StartsTraversal(table, list, CursorOrder(asOf), size);
      tables, lists := [table], [list];
    } else {
      var t, l := ReadsTraverses(requests, asOf, c, size, pages, n - 1);
      var list := NextReadIsCut(requests, asOf, c, size, pages, n - 1, l);
      TraversalGrows(t, l, CursorOrder(asOf), size, table, list);
      tables, lists := t + [table], l + [list];
      CutFromGrows(pages, l, asOf, size, list);
      TabledGrows(t, requests, asOf, c);
    }
  }

  lemma CutAt(pages: seq<FeedPage>, lists: seq<seq<FeedRow>>, asOf: Time, size: nat, k: nat)
    requires CutFrom(pages, lists, asOf, size, |pages|) && k < |pages|
    ensures pages[k].items == PageOf(lists[k], size).items && pages[k].hasMore == PageOf(lists[k], size).hasMore
  {
  }

  ghost predicate ServedOn(pages: seq<FeedPage>, asOf: Time, wanted: FeedRow, k: nat, i: nat) {
    k < |pages| && i < |pages[k].items| && DecidingKey(pages[k].items[i], asOf) == DecidingKey(wanted, asOf)
  }

  lemma SameKeyIsEqual(x: FeedRow, y: FeedRow, asOf: Time)
    ensures SameKey(CursorOrder(asOf), x, y) <==> DecidingKey(x, asOf) == DecidingKey(y, asOf)
  {
    BeforeTotal(DecidingKey(x, asOf), DecidingKey(y, asOf));
  }

  /** No row is served twice with the same sort keys, whatever changes between the requests. */
  lemma FeedNeverRepeats(requests: seq<Request>, asOf: Time, c: Category, size: nat, pages: seq<FeedPage>,
                         wanted: FeedRow, k: nat, i: nat, k': nat, i': nat)
    requires Reads(requests, asOf, c, size, pages)
    requires ServedOn(pages, asOf, wanted, k, i) && ServedOn(pages, asOf, wanted, k', i')
    ensures k == k' && i == i'
  {
    OrdersAreStrict(asOf);
    var tables, lists := ReadsTraverses(requests, asOf, c, size, pages, |pages|);
    CutAt(pages, lists, asOf, size, k);
    CutAt(pages, lists, asOf, size, k');
    SameKeyIsEqual(pages[k].items[i], pages[k'].items[i'], asOf);
    NeverServedTwice(tables, lists, CursorOrder(asOf), size, k, i, k', i');
  }

  ghost predicate HasKey(rows: seq<FeedRow>, wanted: FeedRow, asOf: Time) {
    exists x :: x in rows && DecidingKey(x, asOf) == DecidingKey(wanted, asOf)
  }

  lemma HasKeyIsHas(rows: seq<FeedRow>, wanted: FeedRow, asOf: Time)
    ensures HasKey(rows, wanted, asOf) <==> Has(rows, CursorOrder(asOf), wanted)
  {
    forall x: FeedRow ensures SameKey(CursorOrder(asOf), x, wanted) <==> DecidingKey(x, asOf) == DecidingKey(wanted, asOf) {
      SameKeyIsEqual(x, wanted, asOf);
    }
  }

  /** A row that stays eligible with unchanged sort keys is on some page of a finished reading. */
  lemma FeedMissesNothing(requests: seq<Request>, asOf: Time, c: Category, size: nat, pages: seq<FeedPage>, wanted: FeedRow)
    requires Reads(requests, asOf, c, size, pages) && !pages[|pages| - 1].hasMore
    requires forall k :: 0 <= k < |requests| ==> HasKey(Wanted(requests[k], asOf, c), wanted, asOf)
    ensures exists k :: 0 <= k < |pages| && HasKey(pages[k].items, wanted, asOf)
  {
    OrdersAreStrict(asOf);
    var tables, lists := ReadsTraverses(requests, asOf, c, size, pages, |pages|);
    forall t | 0 <= t < |tables| ensures Has(tables[t], CursorOrder(asOf), wanted) {
      HasKeyIsHas(Wanted(requests[t], asOf, c), wanted, asOf);
    }
    CutAt(pages, lists, asOf, size, |pages| - 1);
    ServedSomewhere(tables, lists, CursorOrder(asOf), size, wanted);
    var k :| 0 <= k < |lists| && Has(PageOf(lists[k], size).items, CursorOrder(asOf), wanted);
    CutAt(pages, lists, asOf, size, k);
    HasKeyIsHas(pages[k].items, wanted, asOf);
  }

  /** The rows of the first `n` pages, in the order they are received. */
  ghost function AllItems(pages: seq<FeedPage>, n: nat): seq<FeedRow>
    requires n <= |pages|
  {
    if n == 0 then [] else AllItems(pages, n - 1) + pages[n - 1].items
  }

  lemma {:induction false} AllItemsReceived(pages: seq<FeedPage>, lists: seq<seq<FeedRow>>, asOf: Time, size: nat, n: nat)
    requires CutFrom(pages, lists, asOf, size, |pages|) && n <= |pages| == |lists|
    ensures AllItems(pages, n) == Received(lists, size, n)
  {
    if n > 0 {
      AllItemsReceived(pages, lists, asOf, size, n - 1);
      CutAt(pages, lists, asOf, size, n - 1);
    }
  }

  /** Over unchanged eligible rows the pages are the whole ordered category list, in order, once. */
  lemma FeedYieldsWholeList(requests: seq<Request>, asOf: Time, c: Category, size: nat, pages: seq<FeedPage>)
    requires Reads(requests, asOf, c, size, pages)
    requires forall k :: 0 <= k < |requests| ==> Wanted(requests[k], asOf, c) == Wanted(requests[0], asOf, c)
    ensures var whole := OrderBy(Wanted(requests[0], asOf, c), FeedOrder(asOf));
            |pages| <= |whole| + 1 && (!pages[|pages| - 1].hasMore ==> AllItems(pages, |pages|) == whole)
  {
    OrdersAreStrict(asOf);
    var tables, lists := ReadsTraverses(requests, asOf, c, size, pages, |pages|);
    FollowingCursorsYieldsAll(tables, lists, CursorOrder(asOf), size);
    AllItemsReceived(pages, lists, asOf, size, |pages|);
    CutAt(pages, lists, asOf, size, |pages| - 1);
  }
}
