/** The execution feed's sort keys, computed in SQL and again when a cursor is written, and its "after" filter. */
module FeedCursor {
  import opened Core
  import opened Sql
  import opened Lifecycle

  /** `visible` is what the visibility filter of the reader's memberships says. */
  datatype FeedRow = FeedRow(id: Id, execution: Execution, createdAt: Time, visible: bool, pinned: bool)

  const OVERDUE := 0
  const UPCOMING := 1
  const NO_DEADLINE := 2

  predicate IsActive(s: Status) { s == InProgress || s == PendingValidation }

  // ----- keys computed in SQL -----

  function SqlRank(e: Execution, asOf: Time): int {
    if Known(e.status == PendingValidation) == Yes then 0
    else if Both(Known(e.status == InProgress), LessThan(e.endAt, Some(asOf))) == Yes then 1
    else if Both(Known(e.status == InProgress), Not(IsNull(e.endAt))) == Yes then 2
    else if Both(Known(e.status == InProgress), IsNull(e.endAt)) == Yes then 3
    else 4
  }

  function SqlBucket(e: Execution, asOf: Time): int {
    if IsNull(e.endAt) == Yes then NO_DEADLINE
    else if Both(LessThan(e.endAt, Some(asOf)), Known(IsActive(e.status))) == Yes then OVERDUE
    else UPCOMING
  }

  datatype Column =
    | CategoryRank | FeedSortMarkedDoneAt | FeedSortPendingId | DeadlineBucket
    | FeedSortEndAt | LastActivityAt | CreatedAt | ItemId

  function SqlColumn(r: FeedRow, asOf: Time, c: Column): Option<int> {
    var e := r.execution;
    var pending := e.status == PendingValidation;
    match c
    case CategoryRank => Some(SqlRank(e, asOf))
    case FeedSortMarkedDoneAt => if pending then e.markedDoneAt else None
    case FeedSortPendingId => if pending then Some(r.id) else None
    case DeadlineBucket => Some(SqlBucket(e, asOf))
    case FeedSortEndAt => if pending then None else e.endAt
    case LastActivityAt => Some(e.lastActivityAt)
    case CreatedAt => Some(r.createdAt)
    case ItemId => Some(r.id)
  }

  function Annotated(r: FeedRow, asOf: Time): Column -> Option<int> {
    c => SqlColumn(r, asOf, c)
  }

  function Negated(v: Option<int>): Option<int> {
    if v.Some? then Down(v.value) else None
  }

  /** The `ORDER BY`: eight columns, three of them nullable and last when null, three descending. */
  function SortKey(r: FeedRow, asOf: Time): Key {
    [SqlColumn(r, asOf, CategoryRank)] + ([SqlColumn(r, asOf, FeedSortMarkedDoneAt)] + (
    [SqlColumn(r, asOf, FeedSortPendingId)] + TailKey(r, asOf)))
  }

  function TailKey(r: FeedRow, asOf: Time): Key {
    [SqlColumn(r, asOf, DeadlineBucket)] + ([SqlColumn(r, asOf, FeedSortEndAt)] + LastKey(r, asOf))
  }

  function LastKey(r: FeedRow, asOf: Time): Key {
    [Negated(SqlColumn(r, asOf, LastActivityAt))] + (
    [Negated(SqlColumn(r, asOf, CreatedAt))] + [Negated(SqlColumn(r, asOf, ItemId))])
  }

  // ----- keys written into a cursor -----

  datatype Cursor = Cursor(
    asOf: Time, categoryRank: int, deadlineBucket: int, markedDoneAt: Option<Time>, endAt: Option<Time>,
    lastActivityAt: Time, createdAt: Time, itemId: Id)

  function RankOf(e: Execution, asOf: Time): int {
    if e.status == PendingValidation then 0
    else if e.status == InProgress then
      if e.endAt.Some? && e.endAt.value < asOf then 1 else if e.endAt.Some? then 2 else 3
    else 4
  }

  function BucketOf(e: Execution, asOf: Time): int {
    if e.endAt.None? then NO_DEADLINE
    else if IsActive(e.status) && e.endAt.value < asOf then OVERDUE
    else UPCOMING
  }

  function CursorAt(r: FeedRow, asOf: Time): Cursor {
    var e := r.execution;
    Cursor(asOf, RankOf(e, asOf), BucketOf(e, asOf),
           if e.status == PendingValidation then e.markedDoneAt else None,
           e.endAt, e.lastActivityAt, r.createdAt, r.id)
  }

  lemma CursorKeysAreSqlKeys(e: Execution, asOf: Time)
    ensures RankOf(e, asOf) == SqlRank(e, asOf) && BucketOf(e, asOf) == SqlBucket(e, asOf)
  {
  }

  // ----- the filter -----

  type Cond = Q<Column>

  /** A nullable ascending column with nulls last: everything greater, and every null. */
  function AfterOrNull(c: Column, v: int): Cond { QOr(Atom(c, Gt, v), Atom(c, Null, 0)) }

  /** The condition after the first three columns, for a cursor that is not on a pending row. */
  function TailQ(c: Cursor, q3: Cond, p3: Cond): Cond {
    var q4 := QOr(q3, QAnd(p3, Atom(DeadlineBucket, Gt, c.deadlineBucket)));
    var p4 := QAnd(p3, Atom(DeadlineBucket, Exact, c.deadlineBucket));
    var q5 := if c.endAt.Some? then QOr(q4, QAnd(p4, AfterOrNull(FeedSortEndAt, c.endAt.value))) else q4;
    var p5 := QAnd(p4, if c.endAt.Some? then Atom(FeedSortEndAt, Exact, c.endAt.value) else Atom(FeedSortEndAt, Null, 0));
    LastQ(c, q5, p5)
  }

  /** The three columns that are never null, all descending. */
  function LastQ(c: Cursor, q5: Cond, p5: Cond): Cond {
    var q6 := QOr(q5, QAnd(p5, Atom(LastActivityAt, Lt, c.lastActivityAt)));
    var p6 := QAnd(p5, Atom(LastActivityAt, Exact, c.lastActivityAt));
    var q7 := QOr(q6, QAnd(p6, Atom(CreatedAt, Lt, c.createdAt)));
    var p7 := QAnd(p6, Atom(CreatedAt, Exact, c.createdAt));
    QOr(q7, QAnd(p7, Atom(ItemId, Lt, c.itemId)))
  }

  function AfterCursorQ(c: Cursor): Cond {
    var q1: Cond := Atom(CategoryRank, Gt, c.categoryRank);
    var p1: Cond := Atom(CategoryRank, Exact, c.categoryRank);
    var q2 := if c.markedDoneAt.Some? then QOr(q1, QAnd(p1, AfterOrNull(FeedSortMarkedDoneAt, c.markedDoneAt.value))) else q1;
    var p2 := QAnd(p1, if c.markedDoneAt.Some? then Atom(FeedSortMarkedDoneAt, Exact, c.markedDoneAt.value)
                       else Atom(FeedSortMarkedDoneAt, Null, 0));
    if c.categoryRank == 0 then QOr(q2, QAnd(p2, Atom(FeedSortPendingId, Gt, c.itemId)))
    else TailQ(c, q2, QAnd(p2, Atom(FeedSortPendingId, Null, 0)))
  }

  /** Builds the condition by growing `q` and the prefix it hangs each column on. */
  method AfterCursorFilter(c: Cursor) returns (q: Cond)
    ensures q == AfterCursorQ(c)
  {
    q := Empty;
    var prefix: Cond := Empty;
    q := QOr(q, QAnd(prefix, Atom(CategoryRank, Gt, c.categoryRank)));
    prefix := QAnd(prefix, Atom(CategoryRank, Exact, c.categoryRank));
    if c.markedDoneAt.Some? {
      q := QOr(q, QAnd(prefix, AfterOrNull(FeedSortMarkedDoneAt, c.markedDoneAt.value)));
      prefix := QAnd(prefix, Atom(FeedSortMarkedDoneAt, Exact, c.markedDoneAt.value));
    } else {
      prefix := QAnd(prefix, Atom(FeedSortMarkedDoneAt, Null, 0));
    }
    if c.categoryRank == 0 {
      q := QOr(q, QAnd(prefix, Atom(FeedSortPendingId, Gt, c.itemId)));
      return;
    }
    prefix := QAnd(prefix, Atom(FeedSortPendingId, Null, 0));
    q := QOr(q, QAnd(prefix, Atom(DeadlineBucket, Gt, c.deadlineBucket)));
    prefix := QAnd(prefix, Atom(DeadlineBucket, Exact, c.deadlineBucket));
    if c.endAt.Some? {
      q := QOr(q, QAnd(prefix, AfterOrNull(FeedSortEndAt, c.endAt.value)));
      prefix := QAnd(prefix, Atom(FeedSortEndAt, Exact, c.endAt.value));
    } else {
      prefix := QAnd(prefix, Atom(FeedSortEndAt, Null, 0));
    }
    q := QOr(q, QAnd(prefix, Atom(LastActivityAt, Lt, c.lastActivityAt)));
    prefix := QAnd(prefix, Atom(LastActivityAt, Exact, c.lastActivityAt));
    q := QOr(q, QAnd(prefix, Atom(CreatedAt, Lt, c.createdAt)));
    prefix := QAnd(prefix, Atom(CreatedAt, Exact, c.createdAt));
    q := QOr(q, QAnd(prefix, Atom(ItemId, Lt, c.itemId)));
  }

  // ----- the filter is the order -----

  /**
   The sort key as far as it can matter: a pending row's own id is its third column, so nothing
   after that distinguishes two rows.
   */
  function DecidingKey(r: FeedRow, asOf: Time): Key {
    [SqlColumn(r, asOf, CategoryRank)] + ([SqlColumn(r, asOf, FeedSortMarkedDoneAt)] + (
    [SqlColumn(r, asOf, FeedSortPendingId)] +
    if r.execution.status == PendingValidation then [None] + ([None] + ([None] + ([None] + [None]))) else TailKey(r, asOf)))
  }

  /** What a column tells when it is tested against the value a cursor holds for it. */
  lemma AscendingColumn(col: Column, v: Option<int>, row: Column -> Option<int>)
    ensures v.Some? ==> (Holds(AfterOrNull(col, v.value), row) <==> Below(v, row(col)))
    ensures v.Some? ==> (Holds(Atom(col, Exact, v.value), row) <==> row(col) == v)
    ensures v.Some? && row(col).Some? ==> (Holds(Atom(col, Gt, v.value), row) <==> Below(v, row(col)))
    ensures v.None? ==> !Below(v, row(col))
    ensures Holds(Atom(col, Null, 0), row) <==> row(col).None?
  {
    if v.Some? {
      HoldsOr(Atom(col, Gt, v.value), Atom(col, Null, 0), row);
    }
  }

  lemma DescendingColumn(col: Column, v: int, row: Column -> Option<int>)
    requires row(col).Some?
    ensures Holds(Atom(col, Lt, v), row) <==> Below(Down(v), Negated(row(col)))
    ensures Holds(Atom(col, Exact, v), row) <==> Negated(row(col)) == Down(v)
  {
  }

  /** One round of the accumulation: `q` gains the rows that agree on the prefix and come after here. */
  lemma Round(q: Cond, p: Cond, after: Cond, same: Cond, row: Column -> Option<int>)
    requires !after.Empty? && !q.Empty?
    ensures var q' := QOr(q, QAnd(p, after));
            !q'.Empty? && (Holds(q', row) <==> Holds(q, row) || (Holds(p, row) && Holds(after, row)))
    ensures Holds(QAnd(p, same), row) <==> Holds(p, row) && Holds(same, row)
  {
    HoldsAnd(p, after, row);
    HoldsAnd(p, same, row);
    HoldsOr(q, QAnd(p, after), row);
  }

  lemma LastQHolds(x: FeedRow, y: FeedRow, asOf: Time, q5: Cond, p5: Cond)
    requires !q5.Empty?
    ensures var row := Annotated(y, asOf);
            Holds(LastQ(CursorAt(x, asOf), q5, p5), row) <==>
            Holds(q5, row) || (Holds(p5, row) && Before(LastKey(x, asOf), LastKey(y, asOf)))
  {
    var c, row := CursorAt(x, asOf), Annotated(y, asOf);
    var q6 := QOr(q5, QAnd(p5, Atom(LastActivityAt, Lt, c.lastActivityAt)));
    var p6 := QAnd(p5, Atom(LastActivityAt, Exact, c.lastActivityAt));
    Round(q5, p5, Atom(LastActivityAt, Lt, c.lastActivityAt), Atom(LastActivityAt, Exact, c.lastActivityAt), row);
    DescendingColumn(LastActivityAt, c.lastActivityAt, row);
    var q7 := QOr(q6, QAnd(p6, Atom(CreatedAt, Lt, c.createdAt)));
    var p7 := QAnd(p6, Atom(CreatedAt, Exact, c.createdAt));
    Round(q6, p6, Atom(CreatedAt, Lt, c.createdAt), Atom(CreatedAt, Exact, c.createdAt), row);
    DescendingColumn(CreatedAt, c.createdAt, row);
    Round(q7, p7, Atom(ItemId, Lt, c.itemId), Atom(ItemId, Exact, c.itemId), row);
    DescendingColumn(ItemId, c.itemId, row);
    LastKeyUnfolds(x, y, asOf);
  }

  lemma LastKeyUnfolds(x: FeedRow, y: FeedRow, asOf: Time)
    ensures Before(LastKey(x, asOf), LastKey(y, asOf)) <==>
            var ax, ay := Down(x.execution.lastActivityAt), Down(y.execution.lastActivityAt);
            var cx, cy := Down(x.createdAt), Down(y.createdAt);
            Below(ax, ay) || (ax == ay && (Below(cx, cy) || (cx == cy && Below(Down(x.id), Down(y.id)))))
  {
    var ix, iy := [Negated(SqlColumn(x, asOf, ItemId))], [Negated(SqlColumn(y, asOf, ItemId))];
    var cx, cy := [Negated(SqlColumn(x, asOf, CreatedAt))] + ix, [Negated(SqlColumn(y, asOf, CreatedAt))] + iy;
    BeforeCons(Negated(SqlColumn(x, asOf, LastActivityAt)), cx, Negated(SqlColumn(y, asOf, LastActivityAt)), cy);
    BeforeCons(Negated(SqlColumn(x, asOf, CreatedAt)), ix, Negated(SqlColumn(y, asOf, CreatedAt)), iy);
    assert ix == ix + [] && iy == iy + [];
    BeforeCons(Negated(SqlColumn(x, asOf, ItemId)), [], Negated(SqlColumn(y, asOf, ItemId)), []);
  }

  lemma TailQHolds(x: FeedRow, y: FeedRow, asOf: Time, q3: Cond, p3: Cond)
    requires !q3.Empty? && x.execution.status != PendingValidation
    ensures var row := Annotated(y, asOf);
            Holds(TailQ(CursorAt(x, asOf), q3, p3), row) <==>
            Holds(q3, row) || (Holds(p3, row) && Before(TailKey(x, asOf), TailKey(y, asOf)))
    requires y.execution.status != PendingValidation || !Holds(p3, Annotated(y, asOf))
  {
    var c, row := CursorAt(x, asOf), Annotated(y, asOf);
    CursorKeysAreSqlKeys(x.execution, asOf);
    var q4 := QOr(q3, QAnd(p3, Atom(DeadlineBucket, Gt, c.deadlineBucket)));
    var p4 := QAnd(p3, Atom(DeadlineBucket, Exact, c.deadlineBucket));
    Round(q3, p3, Atom(DeadlineBucket, Gt, c.deadlineBucket), Atom(DeadlineBucket, Exact, c.deadlineBucket), row);
    AscendingColumn(DeadlineBucket, Some(c.deadlineBucket), row);
    var same5: Cond := if c.endAt.Some? then Atom(FeedSortEndAt, Exact, c.endAt.value) else Atom(FeedSortEndAt, Null, 0);
    var q5 := if c.endAt.Some? then QOr(q4, QAnd(p4, AfterOrNull(FeedSortEndAt, c.endAt.value))) else q4;
    AscendingColumn(FeedSortEndAt, c.endAt, row);
    if c.endAt.Some? {
      Round(q4, p4, AfterOrNull(FeedSortEndAt, c.endAt.value), same5, row);
    } else {
      HoldsAnd(p4, same5, row);
    }
    LastQHolds(x, y, asOf, q5, QAnd(p4, same5));
    TailKeyUnfolds(x, y, asOf);
  }

  lemma TailKeyUnfolds(x: FeedRow, y: FeedRow, asOf: Time)
    ensures Before(TailKey(x, asOf), TailKey(y, asOf)) <==>
            var kx, ky := SqlColumn(x, asOf, DeadlineBucket), SqlColumn(y, asOf, DeadlineBucket);
            var ex, ey := SqlColumn(x, asOf, FeedSortEndAt), SqlColumn(y, asOf, FeedSortEndAt);
            Below(kx, ky) || (kx == ky && (Below(ex, ey) || (ex == ey && Before(LastKey(x, asOf), LastKey(y, asOf)))))
  {
    var ex, ey := [SqlColumn(x, asOf, FeedSortEndAt)] + LastKey(x, asOf), [SqlColumn(y, asOf, FeedSortEndAt)] + LastKey(y, asOf);
    BeforeCons(SqlColumn(x, asOf, DeadlineBucket), ex, SqlColumn(y, asOf, DeadlineBucket), ey);
    BeforeCons(SqlColumn(x, asOf, FeedSortEndAt), LastKey(x, asOf), SqlColumn(y, asOf, FeedSortEndAt), LastKey(y, asOf));
  }

  /** A key whose first three columns are those of a feed row. */
  lemma HeadUnfolds(x: FeedRow, y: FeedRow, asOf: Time, tx: Key, ty: Key)
    requires |tx| == |ty|
    ensures var mx, my := SqlColumn(x, asOf, FeedSortMarkedDoneAt), SqlColumn(y, asOf, FeedSortMarkedDoneAt);
            var px, py := SqlColumn(x, asOf, FeedSortPendingId), SqlColumn(y, asOf, FeedSortPendingId);
            var rx, ry := SqlColumn(x, asOf, CategoryRank), SqlColumn(y, asOf, CategoryRank);
            Before([rx] + ([mx] + ([px] + tx)), [ry] + ([my] + ([py] + ty))) <==>
            Below(rx, ry) || (rx == ry && (Below(mx, my) || (mx == my && (Below(px, py) || (px == py && Before(tx, ty))))))
  {
    var mx, my := SqlColumn(x, asOf, FeedSortMarkedDoneAt), SqlColumn(y, asOf, FeedSortMarkedDoneAt);
    var px, py := SqlColumn(x, asOf, FeedSortPendingId), SqlColumn(y, asOf, FeedSortPendingId);
    BeforeCons(SqlColumn(x, asOf, CategoryRank), [mx] + ([px] + tx), SqlColumn(y, asOf, CategoryRank), [my] + ([py] + ty));
    BeforeCons(mx, [px] + tx, my, [py] + ty);
    BeforeCons(px, tx, py, ty);
  }

  lemma NothingBeforeNulls()
    ensures var nulls: Key := [None] + ([None] + ([None] + ([None] + [None])));
            |nulls| == 5 && !Before(nulls, nulls)
  {
    BeforeTotal([None] + ([None] + ([None] + ([None] + [None]))), [None] + ([None] + ([None] + ([None] + [None]))));
  }

  /**
   The filter built from the cursor of row `x` is true of row `y` exactly when `y` comes strictly
   after `x`: for all rows, at every `asOf`, whatever is null, even when `y` is a later state of `x`.
   */
  lemma AfterCursorIsAfter(x: FeedRow, y: FeedRow, asOf: Time)
    ensures Holds(AfterCursorQ(CursorAt(x, asOf)), Annotated(y, asOf)) <==> Before(DecidingKey(x, asOf), DecidingKey(y, asOf))
  {
    var c, row := CursorAt(x, asOf), Annotated(y, asOf);
    CursorKeysAreSqlKeys(x.execution, asOf);
    var q1: Cond := Atom(CategoryRank, Gt, c.categoryRank);
    var p1: Cond := Atom(CategoryRank, Exact, c.categoryRank);
    AscendingColumn(CategoryRank, Some(c.categoryRank), row);
    var same2: Cond := if c.markedDoneAt.Some? then Atom(FeedSortMarkedDoneAt, Exact, c.markedDoneAt.value)
                       else Atom(FeedSortMarkedDoneAt, Null, 0);
    var q2 := if c.markedDoneAt.Some? then QOr(q1, QAnd(p1, AfterOrNull(FeedSortMarkedDoneAt, c.markedDoneAt.value))) else q1;
    var p2 := QAnd(p1, same2);
    AscendingColumn(FeedSortMarkedDoneAt, c.markedDoneAt, row);
    if c.markedDoneAt.Some? {
      Round(q1, p1, AfterOrNull(FeedSortMarkedDoneAt, c.markedDoneAt.value), same2, row);
    } else {
      HoldsAnd(p1, same2, row);
    }
    var nulls: Key := [None] + ([None] + ([None] + ([None] + [None])));
    NothingBeforeNulls();
    if c.categoryRank == 0 {
      Round(q2, p2, Atom(FeedSortPendingId, Gt, c.itemId), Atom(FeedSortPendingId, Exact, c.itemId), row);
      AscendingColumn(FeedSortPendingId, Some(c.itemId), row);
      HeadUnfolds(x, y, asOf, nulls, if y.execution.status == PendingValidation then nulls else TailKey(y, asOf));
    } else {
      HoldsAnd(p2, Atom(FeedSortPendingId, Null, 0), row);
      AscendingColumn(FeedSortPendingId, None, row);
      TailQHolds(x, y, asOf, q2, QAnd(p2, Atom(FeedSortPendingId, Null, 0)));
      HeadUnfolds(x, y, asOf, TailKey(x, asOf), if y.execution.status == PendingValidation then nulls else TailKey(y, asOf));
    }
  }

  lemma IdIsLastKey(x: FeedRow, asOf: Time)
    ensures SortKey(x, asOf)[7] == Down(x.id)
  {
  }

  /** Two different rows are ordered by the `ORDER BY` exactly as their deciding keys are. */
  lemma DecidingKeyDecides(x: FeedRow, y: FeedRow, asOf: Time)
    requires x.id != y.id
    ensures Before(SortKey(x, asOf), SortKey(y, asOf)) <==> Before(DecidingKey(x, asOf), DecidingKey(y, asOf))
    ensures Before(SortKey(x, asOf), SortKey(y, asOf)) || Before(SortKey(y, asOf), SortKey(x, asOf))
  {
    var nulls: Key := [None] + ([None] + ([None] + ([None] + [None])));
    HeadUnfolds(x, y, asOf, TailKey(x, asOf), TailKey(y, asOf));
    HeadUnfolds(x, y, asOf, if x.execution.status == PendingValidation then nulls else TailKey(x, asOf),
                if y.execution.status == PendingValidation then nulls else TailKey(y, asOf));
    BeforeTotal(SortKey(x, asOf), SortKey(y, asOf));
    IdIsLastKey(x, asOf);
    IdIsLastKey(y, asOf);
  }
}
