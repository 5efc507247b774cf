/** The history list: terminal instants downwards with undated rows last, and its cursor. */
module HistoryPages {
  import opened Core
  import opened Sql
  import Journal
  import opened Lifecycle
  import opened LifecycleTheorems
  import opened Pagination

  /** A finished execution some membership of the reader may see. */
  datatype HistoryRow = HistoryRow(id: Id, execution: Execution)

  datatype Column = TerminalColumn | IdColumn

  function Annotated(r: HistoryRow): Column -> Option<int> {
    (c: Column) => match c case TerminalColumn => TerminalAt(r.execution) case IdColumn => Some(r.id)
  }

  function SortKey(r: HistoryRow): Key {
    var t := TerminalAt(r.execution);
    [if t.Some? then Down(t.value) else None] + [Down(r.id)]
  }

  function HistoryOrder(): Less<HistoryRow> {
    (x, y) => Before(SortKey(x), SortKey(y))
  }

  datatype Cursor = Cursor(terminalAt: Option<Time>, itemId: Id)

  function CursorAt(r: HistoryRow): Cursor { Cursor(TerminalAt(r.execution), r.id) }

  function AfterCursorQ(c: Cursor, includeUndated: bool): Q<Column> {
    if c.terminalAt.None? then QAnd(Atom(TerminalColumn, Null, 0), Atom(IdColumn, Lt, c.itemId))
    else
      var later := QOr(Atom(TerminalColumn, Lt, c.terminalAt.value),
                       QAnd(Atom(TerminalColumn, Exact, c.terminalAt.value), Atom(IdColumn, Lt, c.itemId)));
      if includeUndated then QOr(later, Atom(TerminalColumn, Null, 0)) else later
  }

  /** A civil window excludes undated rows, and the filter then leaves them out. */
  datatype Window = Window(start: Time, end: Time)

  predicate InWindow(r: HistoryRow, window: Option<Window>) {
    window.Some? ==>
      var t := TerminalAt(r.execution); t.Some? && window.value.start <= t.value < window.value.end
  }

  lemma KeyUnfolds(x: HistoryRow, y: HistoryRow)
    ensures var tx, ty := TerminalAt(x.execution), TerminalAt(y.execution);
            Before(SortKey(x), SortKey(y)) <==>
            if tx.Some? then ty.None? || ty.value < tx.value || (tx == ty && y.id < x.id)
            else ty.None? && y.id < x.id
  {
    var tx, ty := TerminalAt(x.execution), TerminalAt(y.execution);
    BeforeCons(if tx.Some? then Down(tx.value) else None, [Down(x.id)], if ty.Some? then Down(ty.value) else None, [Down(y.id)]);
    assert [Down(x.id)] == [Down(x.id)] + [] && [Down(y.id)] == [Down(y.id)] + [];
    BeforeCons(Down(x.id), [], Down(y.id), []);
  }

  /** Inside one list the cursor filter is the order, undated rows included. */
  lemma HistoryCursorIsAfter(x: HistoryRow, y: HistoryRow, window: Option<Window>)
    requires InWindow(x, window) && InWindow(y, window)
    ensures Holds(AfterCursorQ(CursorAt(x), window.None?), Annotated(y)) <==> Before(SortKey(x), SortKey(y))
  {
    KeyUnfolds(x, y);
    var c, row := CursorAt(x), Annotated(y);
    if c.terminalAt.None? {
      HoldsAnd(Atom(TerminalColumn, Null, 0), Atom(IdColumn, Lt, c.itemId), row);
    } else {
      var same := QAnd(Atom(TerminalColumn, Exact, c.terminalAt.value), Atom(IdColumn, Lt, c.itemId));
      HoldsAnd(Atom(TerminalColumn, Exact, c.terminalAt.value), Atom(IdColumn, Lt, c.itemId), row);
      HoldsOr(Atom(TerminalColumn, Lt, c.terminalAt.value), same, row);
      HoldsOr(QOr(Atom(TerminalColumn, Lt, c.terminalAt.value), same), Atom(TerminalColumn, Null, 0), row);
    }
  }

  lemma HistoryOrderIsStrict()
    ensures StrictWeak(HistoryOrder())
    ensures forall x: HistoryRow, y: HistoryRow :: x.id != y.id ==> HistoryOrder()(x, y) || HistoryOrder()(y, x)
  {
    forall x: HistoryRow, y: HistoryRow
      ensures HistoryOrder()(x, y) ==> !HistoryOrder()(y, x)
      ensures x.id != y.id ==> HistoryOrder()(x, y) || HistoryOrder()(y, x)
    {
      KeyUnfolds(x, y);
      KeyUnfolds(y, x);
    }
    forall x: HistoryRow, y: HistoryRow, z: HistoryRow
      ensures HistoryOrder()(x, y) ==> HistoryOrder()(x, z) || HistoryOrder()(z, y)
    {
      KeyUnfolds(x, y);
      KeyUnfolds(x, z);
      KeyUnfolds(z, y);
    }
  }

  // ----- pages -----

  ghost predicate DistinctIds(rows: seq<HistoryRow>) {
    forall i, j :: 0 <= i < j < |rows| ==> rows[i].id != rows[j].id
  }

  /** One request finds the rows with the wanted status, inside the window when there is one. */
  function Wanted(rows: seq<HistoryRow>, window: Option<Window>): seq<HistoryRow> {
    Filter(rows, (r: HistoryRow) => InWindow(r, window))
  }

  function Answer(rows: seq<HistoryRow>, window: Option<Window>, cursor: Option<Cursor>): seq<HistoryRow> {
    match cursor
    case None => OrderBy(Wanted(rows, window), HistoryOrder())
    case Some(c) =>
      OrderBy(Filter(Wanted(rows, window), (r: HistoryRow) => Holds(AfterCursorQ(c, window.None?), Annotated(r))), HistoryOrder())
  }

  datatype HistoryPage = HistoryPage(items: seq<HistoryRow>, hasMore: bool, next: Option<Cursor>)

  function CutPage(list: seq<HistoryRow>, size: nat): HistoryPage {
    var page := PageOf(list, size);
    HistoryPage(page.items, page.hasMore,
                if page.hasMore && page.items != [] then Some(CursorAt(page.items[|page.items| - 1])) else None)
  }

  lemma DistinctIdsOrder(rows: seq<HistoryRow>)
    requires DistinctIds(rows)
    ensures DistinctKeys(rows, HistoryOrder())
  {
    HistoryOrderIsStrict();
    var less := HistoryOrder();
    forall i, j | 0 <= i < j < |rows| ensures less(rows[i], rows[j]) || less(rows[j], rows[i]) {
      assert rows[i].id != rows[j].id;
    }
  }

  lemma FirstAnswerLists(rows: seq<HistoryRow>, window: Option<Window>)
    requires DistinctIds(rows)
    ensures Lists(Answer(rows, window, None), Wanted(rows, window), HistoryOrder(), None)
  {
    HistoryOrderIsStrict();
    DistinctIdsOrder(rows);
    FilterDistinct(rows, (r: HistoryRow) => InWindow(r, window), HistoryOrder());
    OrderByOrders(Wanted(rows, window), HistoryOrder());
  }

  lemma NextAnswerLists(rows: seq<HistoryRow>, window: Option<Window>, x: HistoryRow)
    requires DistinctIds(rows) && InWindow(x, window)
    ensures Lists(Answer(rows, window, Some(CursorAt(x))), Wanted(rows, window), HistoryOrder(), Some(x))
  {
    var inside := (r: HistoryRow) => InWindow(r, window);
    var after := (r: HistoryRow) => Holds(AfterCursorQ(CursorAt(x), window.None?), Annotated(r));
    HistoryOrderIsStrict();
    DistinctIdsOrder(rows);
    FilterDistinct(rows, inside, HistoryOrder());
    FilterMembers(rows, inside);
    var wanted := Wanted(rows, window);
    assert wanted == Filter(rows, inside);
    FilterDistinct(wanted, after, HistoryOrder());
    FilterMembers(wanted, after);
    OrderByOrders(Filter(wanted, after), HistoryOrder());
    assert Answer(rows, window, Some(CursorAt(x))) == OrderBy(Filter(wanted, after), HistoryOrder());
    forall y | y in wanted ensures after(y) <==> HistoryOrder()(x, y) {
      HistoryCursorIsAfter(x, y, window);
    }
  }

  /** A reader of the history asks for the first page and then follows the cursors, in one window. */
  ghost predicate Reads(tables: seq<seq<HistoryRow>>, window: Option<Window>, size: nat, pages: seq<HistoryPage>) {
    && |tables| == |pages| > 0 && size > 0
    && forall k :: 0 <= k < |pages| ==> Asks(tables, window, size, pages, k)
  }

  ghost predicate Asks(tables: seq<seq<HistoryRow>>, window: Option<Window>, size: nat, pages: seq<HistoryPage>, k: nat)
    requires k < |pages| == |tables|
  {
    && DistinctIds(tables[k])
    && (k > 0 ==> pages[k - 1].next.Some?)
    && pages[k] == CutPage(Answer(tables[k], window, if k == 0 then None else pages[k - 1].next), size)
  }

  ghost predicate CutFrom(pages: seq<HistoryPage>, lists: seq<seq<HistoryRow>>, size: nat, n: nat) {
    n <= |lists| && n <= |pages| && forall k :: 0 <= k < n ==> pages[k] == CutPage(lists[k], size)
  }

  ghost predicate Within(list: seq<HistoryRow>, table: seq<HistoryRow>) {
    forall y :: y in list ==> y in table
  }

  lemma CursorRowInWindow(list: seq<HistoryRow>, table: seq<HistoryRow>, window: Option<Window>, size: nat) returns (x: HistoryRow)
    requires CutPage(list, size).next.Some? && Within(list, Wanted(table, window))
    ensures PageOf(list, size).hasMore && LastServed(list, size) == Some(x)
    ensures CutPage(list, size).next == Some(CursorAt(x)) && InWindow(x, window)
  {
    var items := PageOf(list, size).items;
    x := items[|items| - 1];
    PageShape(list, size);
    assert x == list[|items| - 1] && x in list;
    FilterMembers(table, (r: HistoryRow) => InWindow(r, window));
  }

  /** A continued page is cut from what follows the page before it. */
  lemma NextPageIsCut(table: seq<HistoryRow>, prior: seq<HistoryRow>, before: seq<HistoryRow>, window: Option<Window>, size: nat)
      returns (list: seq<HistoryRow>)
    requires CutPage(prior, size).next.Some? && DistinctIds(table) && Within(prior, Wanted(before, window))
    ensures CutPage(Answer(table, window, CutPage(prior, size).next), size) == CutPage(list, size)
    ensures Follows(Wanted(table, window), prior, list, HistoryOrder(), size)
    ensures Within(list, Wanted(table, window))
  {
    var x := CursorRowInWindow(prior, before, window, size);
    NextAnswerLists(table, window, x);
    list := Answer(table, window, Some(CursorAt(x)));
  }

  ghost predicate Tabled(wanted: seq<seq<HistoryRow>>, tables: seq<seq<HistoryRow>>, window: Option<Window>, n: nat) {
    n <= |tables| && |wanted| == n && forall k :: 0 <= k < n ==> wanted[k] == Wanted(tables[k], window)
  }

  lemma TabledGrows(wanted: seq<seq<HistoryRow>>, tables: seq<seq<HistoryRow>>, window: Option<Window>, n: nat)
    requires 0 < n <= |tables| && Tabled(wanted, tables, window, n - 1)
    ensures Tabled(wanted + [Wanted(tables[n - 1], window)], tables, window, n)
  {
  }

  lemma CutGrows(pages: seq<HistoryPage>, lists: seq<seq<HistoryRow>>, list: seq<HistoryRow>, size: nat, n: nat)
    requires 0 < n <= |pages| && |lists| == n - 1 && CutFrom(pages, lists, size, n - 1)
    requires pages[n - 1] == CutPage(list, size)
    ensures CutFrom(pages, lists + [list], size, n)
  {
  }

  /** Following the history's cursors is a keyset traversal. */
  lemma {:induction false} ReadsTraverses(tables: seq<seq<HistoryRow>>, window: Option<Window>, size: nat, pages: seq<HistoryPage>, n: nat)
      returns (wanted: seq<seq<HistoryRow>>, lists: seq<seq<HistoryRow>>)
    requires Reads(tables, window, size, pages) && 0 < n <= |pages|
    ensures |lists| == n && Tabled(wanted, tables, window, n) && CutFrom(pages, lists, size, n)
    ensures Traversal(wanted, lists, HistoryOrder(), size)
    ensures Within(lists[n - 1], Wanted(tables[n - 1], window))
    ensures lists[0] == OrderBy(Wanted(tables[0], window), HistoryOrder())
  {
    assert Asks(tables, window, size, pages, n - 1);
    if n == 1 {
      FirstAnswerLists(tables[0], window);
      StartsTraversal(Wanted(tables[0], window), Answer(tables[0], window, None), HistoryOrder(), size);
      wanted, lists := [Wanted(tables[0], window)], [Answer(tables[0], window, None)];
    } else {
      var w, l := ReadsTraverses(tables, window, size, pages, n - 1);
      var list := NextPageIsCut(tables[n - 1], l[n - 2], tables[n - 2], window, size);
      TraversalGrows(w, l, HistoryOrder(), size, Wanted(tables[n - 1], window), list);
      TabledGrows(w, tables, window, n);
      CutGrows(pages, l, list, size, n);
      wanted, lists := w + [Wanted(tables[n - 1], window)], l + [list];
    }
  }

  lemma CutAt(pages: seq<HistoryPage>, lists: seq<seq<HistoryRow>>, size: nat, k: nat)
    requires CutFrom(pages, lists, size, |pages|) && k < |pages|
    ensures pages[k].items == PageOf(lists[k], size).items && pages[k].hasMore == PageOf(lists[k], size).hasMore
  {
  }

  ghost function AllItems(pages: seq<HistoryPage>, n: nat): seq<HistoryRow>
    requires n <= |pages|
  {
    if n == 0 then [] else AllItems(pages, n - 1) + pages[n - 1].items
  }

  lemma {:induction false} AllItemsReceived(pages: seq<HistoryPage>, lists: seq<seq<HistoryRow>>, size: nat, n: nat)
    requires CutFrom(pages, lists, size, |pages|) && n <= |pages| == |lists|
    ensures AllItems(pages, n) == Received(lists, size, n)
  {
    if n > 0 {
      AllItemsReceived(pages, lists, size, n - 1);
      CutAt(pages, lists, size, n - 1);
    }
  }

  /** Over an unchanged table the history pages are the whole list, undated rows last, once. */
  lemma HistoryYieldsWholeList(tables: seq<seq<HistoryRow>>, window: Option<Window>, size: nat, pages: seq<HistoryPage>)
    requires Reads(tables, window, size, pages)
    requires forall k :: 0 <= k < |tables| ==> Wanted(tables[k], window) == Wanted(tables[0], window)
    ensures var whole := OrderBy(Wanted(tables[0], window), HistoryOrder());
            |pages| <= |whole| + 1 && (!pages[|pages| - 1].hasMore ==> AllItems(pages, |pages|) == whole)
  {
    HistoryOrderIsStrict();
    var wanted, lists := ReadsTraverses(tables, window, size, pages, |pages|);
    FollowingCursorsYieldsAll(wanted, lists, HistoryOrder(), size);
    AllItemsReceived(pages, lists, size, |pages|);
    CutAt(pages, lists, size, |pages| - 1);
  }

  /** The execution with this id is among the rows, with this terminal instant; nothing else of it matters. */
  ghost predicate Shown(rows: seq<HistoryRow>, id: Id, terminalAt: Option<Time>) {
    exists x :: x in rows && x.id == id && TerminalAt(x.execution) == terminalAt
  }

  lemma ShownIsHas(rows: seq<HistoryRow>, wanted: HistoryRow)
    ensures Shown(rows, wanted.id, TerminalAt(wanted.execution)) <==> Has(rows, HistoryOrder(), wanted)
  {
    forall x | x in rows
      ensures SameKey(HistoryOrder(), x, wanted) <==> x.id == wanted.id && TerminalAt(x.execution) == TerminalAt(wanted.execution) {
      KeyUnfolds(x, wanted);
      KeyUnfolds(wanted, x);
    }
  }

  /** A row that is in the history at every request, with one terminal instant, is on some page. */
  lemma HistoryMissesNothing(tables: seq<seq<HistoryRow>>, window: Option<Window>, size: nat, pages: seq<HistoryPage>, wanted: HistoryRow)
    requires Reads(tables, window, size, pages) && !pages[|pages| - 1].hasMore
    requires forall k :: 0 <= k < |tables| ==> Shown(Wanted(tables[k], window), wanted.id, TerminalAt(wanted.execution))
    ensures exists k :: 0 <= k < |pages| && Shown(pages[k].items, wanted.id, TerminalAt(wanted.execution))
  {
    HistoryOrderIsStrict();
    var ws, lists := ReadsTraverses(tables, window, size, pages, |pages|);
    forall t | 0 <= t < |ws| ensures Has(ws[t], HistoryOrder(), wanted) {
      ShownIsHas(Wanted(tables[t], window), wanted);
    }
    CutAt(pages, lists, size, |pages| - 1);
    ServedSomewhere(ws, lists, HistoryOrder(), size, wanted);
    var k :| 0 <= k < |lists| && Has(PageOf(lists[k], size).items, HistoryOrder(), wanted);
    CutAt(pages, lists, size, k);
    ShownIsHas(pages[k].items, wanted);
  }

  /** No row is on two pages, or twice on one, while its terminal instant stays the same. */
  lemma HistoryNeverRepeats(tables: seq<seq<HistoryRow>>, window: Option<Window>, size: nat, pages: seq<HistoryPage>,
                            k: nat, i: nat, k': nat, i': nat)
    requires Reads(tables, window, size, pages) && k < |pages| && k' < |pages|
    requires i < |pages[k].items| && i' < |pages[k'].items|
    requires SortKey(pages[k].items[i]) == SortKey(pages[k'].items[i'])
    ensures k == k' && i == i'
  {
    HistoryOrderIsStrict();
    BeforeTotal(SortKey(pages[k].items[i]), SortKey(pages[k'].items[i']));
    var ws, lists := ReadsTraverses(tables, window, size, pages, |pages|);
    CutAt(pages, lists, size, k);
    CutAt(pages, lists, size, k');
    NeverServedTwice(ws, lists, HistoryOrder(), size, k, i, k', i');
  }

  // ----- in the fields' own terms -----

  /** The instant of the last event of one kind. */
  ghost predicate IsLatest(j: seq<Journal.Event>, kind: Journal.EventKind, at: Option<Time>) {
    if at.None? then forall i :: 0 <= i < |j| ==> j[i].kind != kind
    else && (exists i :: 0 <= i < |j| && j[i].kind == kind && j[i].at == at.value)
         && (forall i :: 0 <= i < |j| && j[i].kind == kind ==> j[i].at <= at.value)
  }

  lemma {:induction false} LatestAtExactly(j: seq<Journal.Event>, kind: Journal.EventKind)
    ensures IsLatest(j, kind, LatestAt(j, kind))
  {
    if j != [] {
      var prior, last := j[..|j| - 1], j[|j| - 1];
      LatestAtExactly(prior, kind);
      assert j == prior + [last];
      if last.kind != kind && LatestAt(prior, kind).Some? {
        var i :| 0 <= i < |prior| && prior[i].kind == kind && prior[i].at == LatestAt(prior, kind).value;
        assert j[i].kind == kind;
      } else if last.kind == kind {
        assert j[|j| - 1].kind == kind;
        if LatestAt(prior, kind).Some? {
          var i :| 0 <= i < |prior| && prior[i].kind == kind && prior[i].at == LatestAt(prior, kind).value;
          assert j[i].kind == kind && j[i] == prior[i];
        }
      }
    }
  }

  /** When a finished execution ended: the stored instant, or else that of its last event; never for another. */
  ghost predicate EndedAt(e: Execution, at: Option<Time>) {
    match e.status
    case Canceled => if e.canceledAt.Some? then at == e.canceledAt else IsLatest(e.journal, Journal.CanceledEvent, at)
    case Done =>
      if e.validatedAt.Some? then at == e.validatedAt
      else if e.requiresValidation then IsLatest(e.journal, Journal.Validated, at)
      else if e.markedDoneAt.Some? then at == e.markedDoneAt
      else IsLatest(e.journal, Journal.MarkedDone, at)
    case _ => at.None?
  }

  lemma TerminalAtExactly(e: Execution)
    ensures EndedAt(e, TerminalAt(e))
  {
    LatestAtExactly(e.journal, Journal.CanceledEvent);
    LatestAtExactly(e.journal, Journal.Validated);
    LatestAtExactly(e.journal, Journal.MarkedDone);
  }

  /** Where the history says its instant comes from: nowhere exactly when there is none, a stored field when one decides. */
  lemma DateSourceExactly(e: Execution)
    ensures TerminalDateSource(e) == UnknownSource <==> TerminalAt(e).None?
    ensures TerminalDateSource(e) == FromField <==>
            || (e.status == Canceled && e.canceledAt.Some?) || (e.status == Done && e.validatedAt.Some?)
            || (e.status == Done && !e.requiresValidation && e.markedDoneAt.Some?)
  {
  }

  /** The last to end comes first, the one with the greater id among those that ended together, the undated last. */
  predicate EndedLater(x: Option<Time>, xId: Id, y: Option<Time>, yId: Id) {
    if x.Some? && y.Some? then y.value < x.value || (x.value == y.value && yId < xId)
    else if x.Some? then true
    else y.None? && yId < xId
  }

  predicate Inside(at: Option<Time>, window: Option<Window>) {
    window.None? || (at.Some? && window.value.start <= at.value && at.value < window.value.end)
  }

  ghost predicate InOrder(items: seq<HistoryRow>) {
    forall i, j :: 0 <= i < j < |items| ==>
      EndedLater(TerminalAt(items[i].execution), items[i].id, TerminalAt(items[j].execution), items[j].id)
  }

  /**
   A reader who follows the history to its end over an unchanged table receives every row that ended
   inside the window, nothing else, each once, the last to end first.
   */
  lemma ReaderReceivesExactly(tables: seq<seq<HistoryRow>>, window: Option<Window>, size: nat, pages: seq<HistoryPage>)
    requires Reads(tables, window, size, pages) && !pages[|pages| - 1].hasMore
    requires forall k :: 0 <= k < |tables| ==> tables[k] == tables[0]
    ensures forall r :: r in AllItems(pages, |pages|) <==> r in tables[0] && Inside(TerminalAt(r.execution), window)
    ensures InOrder(AllItems(pages, |pages|))
  {
    HistoryYieldsWholeList(tables, window, size, pages);
    assert Asks(tables, window, size, pages, 0);
    FirstAnswerLists(tables[0], window);
    FilterMembers(tables[0], (r: HistoryRow) => InWindow(r, window));
    var items := AllItems(pages, |pages|);
    forall i, j | 0 <= i < j < |items|
      ensures EndedLater(TerminalAt(items[i].execution), items[i].id, TerminalAt(items[j].execution), items[j].id) {
      KeyUnfolds(items[i], items[j]);
    }
  }

  /** The pages are full but for the last, which says that it is. */
  ghost predicate WellCut(pages: seq<HistoryPage>, size: nat) {
    forall k :: 0 <= k < |pages| ==>
      && |pages[k].items| <= size
      && (pages[k].hasMore <==> pages[k].next.Some?)
      && (pages[k].hasMore ==> |pages[k].items| == size)
      && (k + 1 < |pages| ==> pages[k].hasMore)
  }

  lemma PagesAreWellCut(tables: seq<seq<HistoryRow>>, window: Option<Window>, size: nat, pages: seq<HistoryPage>)
    requires Reads(tables, window, size, pages)
    ensures WellCut(pages, size)
  {
    forall k | 0 <= k < |pages|
      ensures |pages[k].items| <= size
      ensures pages[k].hasMore <==> pages[k].next.Some?
      ensures pages[k].hasMore ==> |pages[k].items| == size
      ensures k + 1 < |pages| ==> pages[k].hasMore
    {
      assert Asks(tables, window, size, pages, k);
      PageShape(Answer(tables[k], window, if k == 0 then None else pages[k - 1].next), size);
      if k + 1 < |pages| {
        assert Asks(tables, window, size, pages, k + 1);
      }
    }
  }
}
