/**
 Keyset pagination over any rows and any sort order: the ordered listing, the page
 cut, and what a reader who follows the cursors receives.
 */
module Pagination {
  import opened Core

  type Less<!T> = (T, T) -> bool

  /** A strict order in which rows with equal sort keys are not ordered with one another. */
  ghost predicate StrictWeak<T(!new)>(less: Less<T>) {
    && (forall x, y :: less(x, y) ==> !less(y, x))
    && (forall x, y, z :: less(x, y) ==> less(x, z) || less(z, y))
  }

  ghost predicate SameKey<T>(less: Less<T>, x: T, y: T) { !less(x, y) && !less(y, x) }

  // ----- ordered listings -----

  ghost predicate Ordered<T>(list: seq<T>, less: Less<T>) {
    forall i, j :: 0 <= i < j < |list| ==> less(list[i], list[j])
  }

  ghost predicate DistinctKeys<T>(rows: seq<T>, less: Less<T>) {
    forall i, j :: 0 <= i < j < |rows| ==> less(rows[i], rows[j]) || less(rows[j], rows[i])
  }

  function Placed<T>(list: seq<T>, x: T, less: Less<T>): seq<T> {
    if list == [] then [x]
    else if less(x, list[0]) then [x] + list
    else [list[0]] + Placed(list[1..], x, less)
  }

  lemma {:induction false} PlacedMembers<T(!new)>(list: seq<T>, x: T, less: Less<T>)
    ensures forall y :: y in Placed(list, x, less) <==> y == x || y in list
  {
    if list != [] {
      assert list == [list[0]] + list[1..];
      if !less(x, list[0]) {
        PlacedMembers(list[1..], x, less);
      }
    }
  }

  lemma {:induction false} PlacedOrdered<T(!new)>(list: seq<T>, x: T, less: Less<T>)
    requires StrictWeak(less) && Ordered(list, less)
    requires forall i :: 0 <= i < |list| ==> less(x, list[i]) || less(list[i], x)
    ensures Ordered(Placed(list, x, less), less)
  {
    if list != [] && !less(x, list[0]) {
      PlacedOrdered(list[1..], x, less);
      PlacedMembers(list[1..], x, less);
      var rest := Placed(list[1..], x, less);
      forall i | 0 <= i < |rest| ensures less(list[0], rest[i]) {
        assert rest[i] in rest;
        if rest[i] != x {
          var k :| 0 <= k < |list[1..]| && list[1..][k] == rest[i];
          assert list[k + 1] == rest[i];
        }
      }
    }
  }

  /** `ORDER BY`: the rows of a query in the order of their sort keys. */
  function OrderBy<T>(rows: seq<T>, less: Less<T>): seq<T> {
    if rows == [] then [] else Placed(OrderBy(rows[1..], less), rows[0], less)
  }

  lemma {:induction false} OrderByOrders<T(!new)>(rows: seq<T>, less: Less<T>)
    requires StrictWeak(less) && DistinctKeys(rows, less)
    ensures Ordered(OrderBy(rows, less), less)
    ensures forall x :: x in OrderBy(rows, less) <==> x in rows
  {
    if rows != [] {
      OrderByOrders(rows[1..], less);
      var rest := OrderBy(rows[1..], less);
      forall i | 0 <= i < |rest| ensures less(rows[0], rest[i]) || less(rest[i], rows[0]) {
        assert rest[i] in rest;
        var k :| 0 <= k < |rows[1..]| && rows[1..][k] == rest[i];
        assert rows[k + 1] == rest[i];
      }
      PlacedOrdered(rest, rows[0], less);
      PlacedMembers(rest, rows[0], less);
      assert rows == [rows[0]] + rows[1..];
    }
  }

  function Filter<T>(rows: seq<T>, keep: T -> bool): seq<T> {
    if rows == [] then [] else (if keep(rows[0]) then [rows[0]] else []) + Filter(rows[1..], keep)
  }

  lemma {:induction false} FilterMembers<T(!new)>(rows: seq<T>, keep: T -> bool)
    ensures forall x :: x in Filter(rows, keep) <==> x in rows && keep(x)
  {
    if rows != [] {
      FilterMembers(rows[1..], keep);
      assert rows == [rows[0]] + rows[1..];
    }
  }

  lemma {:induction false} FilterDistinct<T(!new)>(rows: seq<T>, keep: T -> bool, less: Less<T>)
    requires DistinctKeys(rows, less)
    ensures DistinctKeys(Filter(rows, keep), less)
  {
    if rows != [] {
      FilterDistinct(rows[1..], keep, less);
      FilterMembers(rows[1..], keep);
      var tail := rows[1..];
      forall x | x in tail ensures less(rows[0], x) || less(x, rows[0]) {
        var k :| 0 <= k < |tail| && tail[k] == x;
        assert rows[k + 1] == x;
      }
      var rest := Filter(tail, keep);
      forall i | 0 <= i < |rest| ensures rest[i] in tail {
        assert rest[i] in rest;
      }
    }
  }

  // ----- pages -----

  datatype Page<T> = Page(items: seq<T>, hasMore: bool)

  function Take<T>(list: seq<T>, n: nat): seq<T> {
    if |list| <= n then list else list[..n]
  }

  /** One row more than the page is fetched, only to learn whether there is one. */
  function PageOf<T>(list: seq<T>, size: nat): Page<T> {
    var candidates := Take(list, size + 1);
    Page(Take(candidates, size), |candidates| > size)
  }

  /** The rows of a table that lie strictly after a given row, in order. */
  ghost predicate Lists<T(!new)>(list: seq<T>, table: seq<T>, less: Less<T>, after: Option<T>) {
    && Ordered(list, less)
    && (forall x :: x in list <==> x in table && (after.None? || less(after.value, x)))
  }

  function LastServed<T>(list: seq<T>, size: nat): Option<T> {
    var items := PageOf(list, size).items;
    if items == [] then None else Some(items[|items| - 1])
  }

  /**
   A whole traversal: `tables[k]` holds the eligible rows when page `k` is built, and each page after
   the first starts after the last row of the page before it.
   */
  ghost predicate Traversal<T(!new)>(tables: seq<seq<T>>, lists: seq<seq<T>>, less: Less<T>, size: nat) {
    && |tables| == |lists| > 0 && size > 0
    && Lists(lists[0], tables[0], less, None)
    && (forall k :: 0 < k < |lists| ==> Follows(tables[k], lists[k - 1], lists[k], less, size))
  }

  /** A page that is not the first: the one before it had more, and this one starts after it. */
  ghost predicate Follows<T(!new)>(table: seq<T>, prior: seq<T>, list: seq<T>, less: Less<T>, size: nat) {
    PageOf(prior, size).hasMore && Lists(list, table, less, LastServed(prior, size))
  }

  ghost predicate Ends<T>(lists: seq<seq<T>>, size: nat) {
    lists != [] && !PageOf(lists[|lists| - 1], size).hasMore
  }

  lemma StartsTraversal<T(!new)>(table: seq<T>, list: seq<T>, less: Less<T>, size: nat)
    requires Lists(list, table, less, None) && size > 0
    ensures Traversal([table], [list], less, size)
  {
  }

  lemma TraversalGrows<T(!new)>(tables: seq<seq<T>>, lists: seq<seq<T>>, less: Less<T>, size: nat, table: seq<T>, list: seq<T>)
    requires Traversal(tables, lists, less, size) && Follows(table, lists[|lists| - 1], list, less, size)
    ensures Traversal(tables + [table], lists + [list], less, size)
  {
    var ts, ls := tables + [table], lists + [list];
    forall k | 0 < k < |ls| ensures Follows(ts[k], ls[k - 1], ls[k], less, size) {
      if k < |lists| {
        assert Follows(tables[k], lists[k - 1], lists[k], less, size);
      }
    }
  }

  lemma PageShape<T>(list: seq<T>, size: nat)
    ensures PageOf(list, size).items == Take(list, size)
    ensures PageOf(list, size).hasMore <==> size < |list|
    ensures size > 0 && list != [] ==> LastServed(list, size) == Some(list[Min(size, |list|) - 1])
  {
  }

  /** Everything page `k` is cut from lies strictly after the last row of every earlier page. */
  lemma {:induction false} LaterPagesAreAfter<T(!new)>(tables: seq<seq<T>>, lists: seq<seq<T>>, less: Less<T>, size: nat,
                                                       j: nat, k: nat, x: T)
    requires StrictWeak(less) && Traversal(tables, lists, less, size)
    requires j < k < |lists| && x in lists[k]
    ensures LastServed(lists[j], size).Some? && less(LastServed(lists[j], size).value, x)
    decreases k - j
  {
    assert Follows(tables[k], lists[k - 1], lists[k], less, size);
    PageShape(lists[k - 1], size);
    if j + 1 < k {
      var l := LastServed(lists[k - 1], size).value;
      assert l in lists[k - 1];
      LaterPagesAreAfter(tables, lists, less, size, j, k - 1, l);
    }
  }

  lemma ServedUpToLast<T(!new)>(list: seq<T>, less: Less<T>, size: nat, x: T, y: T)
    requires StrictWeak(less) && Ordered(list, less) && x in PageOf(list, size).items
    requires LastServed(list, size).Some? && less(LastServed(list, size).value, y)
    ensures less(x, y)
  {
    PageShape(list, size);
    var items := PageOf(list, size).items;
    var i :| 0 <= i < |items| && items[i] == x;
    var l := items[|items| - 1];
    assert x == list[i] && l == list[|items| - 1];
    assert x == l || less(x, l);
  }

  lemma LaterCannotRepeat<T(!new)>(tables: seq<seq<T>>, lists: seq<seq<T>>, less: Less<T>, size: nat, j: nat, k: nat, x: T, y: T)
    requires StrictWeak(less) && Traversal(tables, lists, less, size)
    requires j < k < |lists|
    requires x in PageOf(lists[j], size).items && y in PageOf(lists[k], size).items
    ensures less(x, y)
  {
    PageShape(lists[k], size);
    LaterPagesAreAfter(tables, lists, less, size, j, k, y);
    OrderedAt(tables, lists, less, size, j);
    ServedUpToLast(lists[j], less, size, x, y);
  }

  lemma OrderedAt<T(!new)>(tables: seq<seq<T>>, lists: seq<seq<T>>, less: Less<T>, size: nat, k: nat)
    requires Traversal(tables, lists, less, size) && k < |lists|
    ensures Ordered(lists[k], less)
  {
    assert k == 0 || Follows(tables[k], lists[k - 1], lists[k], less, size);
  }

  /** No sort key is served twice, whatever happens to the tables between pages. */
  lemma NeverServedTwice<T(!new)>(tables: seq<seq<T>>, lists: seq<seq<T>>, less: Less<T>, size: nat, j: nat, i: nat, k: nat, m: nat)
    requires StrictWeak(less) && Traversal(tables, lists, less, size)
    requires j < |lists| && k < |lists|
    requires i < |PageOf(lists[j], size).items| && m < |PageOf(lists[k], size).items|
    requires SameKey(less, PageOf(lists[j], size).items[i], PageOf(lists[k], size).items[m])
    ensures j == k && i == m
  {
    var x, y := PageOf(lists[j], size).items[i], PageOf(lists[k], size).items[m];
    if j < k {
      LaterCannotRepeat(tables, lists, less, size, j, k, x, y);
    } else if k < j {
      LaterCannotRepeat(tables, lists, less, size, k, j, y, x);
    } else {
      PageShape(lists[j], size);
      OrderedAt(tables, lists, less, size, j);
      assert x == lists[j][i] && y == lists[j][m];
    }
  }

  ghost predicate Has<T(!new)>(rows: seq<T>, less: Less<T>, wanted: T) {
    exists x :: x in rows && SameKey(less, x, wanted)
  }

  lemma NotServedIsAfter<T(!new)>(list: seq<T>, less: Less<T>, size: nat, wanted: T)
    requires StrictWeak(less) && Ordered(list, less) && size > 0
    requires Has(list, less, wanted) && !Has(PageOf(list, size).items, less, wanted)
    ensures PageOf(list, size).hasMore
    ensures LastServed(list, size).Some? && less(LastServed(list, size).value, wanted)
  {
    PageShape(list, size);
    forall i: nat | i < size && i < |list| ensures list[i] in PageOf(list, size).items {
      assert Take(list, size)[i] == list[i];
    }
    var y :| y in list && SameKey(less, y, wanted);
    var i :| 0 <= i < |list| && list[i] == y;
    assert less(list[size - 1], list[i]);
    assert less(wanted, list[i]) || less(list[size - 1], wanted);
  }

  /** A sort key that every table holds is listed for page `k` unless an earlier page served it. */
  lemma {:induction false} ListedUnlessServed<T(!new)>(tables: seq<seq<T>>, lists: seq<seq<T>>, less: Less<T>, size: nat, wanted: T, k: nat)
    requires StrictWeak(less) && Traversal(tables, lists, less, size)
    requires forall t :: 0 <= t < |tables| ==> Has(tables[t], less, wanted)
    requires k < |lists|
    requires forall j :: 0 <= j < k ==> !Has(PageOf(lists[j], size).items, less, wanted)
    ensures Has(lists[k], less, wanted)
  {
    assert Has(tables[k], less, wanted);
    var x :| x in tables[k] && SameKey(less, x, wanted);
    if k > 0 {
      ListedUnlessServed(tables, lists, less, size, wanted, k - 1);
      OrderedAt(tables, lists, less, size, k - 1);
      NotServedIsAfter(lists[k - 1], less, size, wanted);
      var l := LastServed(lists[k - 1], size).value;
      assert less(l, x) || less(x, wanted);
      assert Follows(tables[k], lists[k - 1], lists[k], less, size);
    }
    assert x in lists[k];
  }

  /**
   A row that stays in the tables with unchanged sort keys is served on some page of a finished
   traversal; with `NeverServedTwice`, exactly once.
   */
  lemma ServedSomewhere<T(!new)>(tables: seq<seq<T>>, lists: seq<seq<T>>, less: Less<T>, size: nat, wanted: T)
    requires StrictWeak(less) && Traversal(tables, lists, less, size) && Ends(lists, size)
    requires forall t :: 0 <= t < |tables| ==> Has(tables[t], less, wanted)
    ensures exists k :: 0 <= k < |lists| && Has(PageOf(lists[k], size).items, less, wanted)
  {
    if forall k :: 0 <= k < |lists| ==> !Has(PageOf(lists[k], size).items, less, wanted) {
      var last := |lists| - 1;
      ListedUnlessServed(tables, lists, less, size, wanted, last);
      OrderedAt(tables, lists, less, size, last);
      NotServedIsAfter(lists[last], less, size, wanted);
    }
  }

  // ----- unchanged rows -----

  /** An ordered list is determined by its members. */
  lemma {:induction false} OrderedUnique<T(!new)>(a: seq<T>, b: seq<T>, less: Less<T>)
    requires StrictWeak(less) && Ordered(a, less) && Ordered(b, less)
    requires forall x :: x in a <==> x in b
    ensures a == b
  {
    assert b == [] || b[0] in b;
    if a != [] {
      assert a[0] in a;
      var i :| 0 <= i < |b| && b[i] == a[0];
      assert b[0] in b;
      var j :| 0 <= j < |a| && a[j] == b[0];
      HeadIsLeast(b, less, i);
      HeadIsLeast(a, less, j);
      TailMembers(a, b, less);
      TailMembers(b, a, less);
      OrderedUnique(a[1..], b[1..], less);
    }
  }

  lemma HeadIsLeast<T(!new)>(list: seq<T>, less: Less<T>, i: nat)
    requires Ordered(list, less) && i < |list|
    ensures list[i] == list[0] || less(list[0], list[i])
  {
  }

  lemma TailMembers<T(!new)>(a: seq<T>, b: seq<T>, less: Less<T>)
    requires StrictWeak(less) && Ordered(a, less) && a != [] && b != [] && a[0] == b[0]
    requires forall x :: x in a ==> x in b
    ensures forall x :: x in a[1..] ==> x in b[1..]
  {
    forall x | x in a[1..] ensures x in b[1..] {
      var k :| 0 <= k < |a[1..]| && a[1..][k] == x;
      assert a[k + 1] == x && less(a[0], x);
      assert x in b;
      var i :| 0 <= i < |b| && b[i] == x;
      assert b[1..][i - 1] == x;
    }
  }

  /** The rows after one row of an ordered list are the rest of it. */
  lemma RestOfList<T(!new)>(list: seq<T>, table: seq<T>, less: Less<T>, n: nat, rest: seq<T>)
    requires StrictWeak(less) && Lists(list, table, less, None) && 0 < n <= |list|
    requires Lists(rest, table, less, Some(list[n - 1]))
    ensures rest == list[n..]
  {
    var suffix := list[n..];
    assert forall i :: 0 <= i < n - 1 ==> less(list[i], list[n - 1]);
    forall x | x in suffix ensures x in rest {
      var i :| 0 <= i < |suffix| && suffix[i] == x;
      assert list[n + i] == x;
    }
    forall x | x in rest ensures x in suffix {
      assert x in list;
      var i :| 0 <= i < |list| && list[i] == x;
      assert suffix[i - n] == x;
    }
    OrderedUnique(rest, suffix, less);
  }

  /** The rows served by the first `n` pages, in the order they are received. */
  ghost function Received<T>(lists: seq<seq<T>>, size: nat, n: nat): seq<T>
    requires n <= |lists|
  {
    if n == 0 then [] else Received(lists, size, n - 1) + PageOf(lists[n - 1], size).items
  }

  ghost predicate Unchanged<T>(tables: seq<seq<T>>) {
    forall k :: 0 <= k < |tables| ==> tables[k] == tables[0]
  }

  lemma PageAdvances<T(!new)>(list: seq<T>, table: seq<T>, less: Less<T>, size: nat, done: seq<T>, prior: seq<T>, next: seq<T>)
    requires StrictWeak(less) && Lists(list, table, less, None) && size > 0
    requires list == done + prior
    requires PageOf(prior, size).hasMore && Lists(next, table, less, LastServed(prior, size))
    ensures list == done + PageOf(prior, size).items + next
    ensures |next| < |prior|
  {
    PageShape(prior, size);
    var n := |done| + size;
    assert LastServed(prior, size) == Some(list[n - 1]);
    RestOfList(list, table, less, n, next);
    assert list[n..] == prior[size..];
  }

  /** Over unchanged rows each page continues the full list where the ones before it stopped. */
  lemma {:induction false} PagesContinue<T(!new)>(tables: seq<seq<T>>, lists: seq<seq<T>>, less: Less<T>, size: nat, n: nat)
    requires StrictWeak(less) && Traversal(tables, lists, less, size) && Unchanged(tables)
    requires n < |lists|
    ensures Received(lists, size, n) + lists[n] == lists[0]
    ensures n + |lists[n]| <= |lists[0]|
  {
    if n > 0 {
      PagesContinue(tables, lists, less, size, n - 1);
      assert Follows(tables[n], lists[n - 1], lists[n], less, size);
      assert tables[n] == tables[0];
      PageAdvances(lists[0], tables[0], less, size, Received(lists, size, n - 1), lists[n - 1], lists[n]);
    }
  }

  /**
   Following the cursors over unchanged rows yields the whole ordered list, once, and stops: there
   cannot be more pages than rows, but for the first.
   */
  lemma FollowingCursorsYieldsAll<T(!new)>(tables: seq<seq<T>>, lists: seq<seq<T>>, less: Less<T>, size: nat)
    requires StrictWeak(less) && Traversal(tables, lists, less, size) && Unchanged(tables)
    ensures |lists| <= |lists[0]| + 1
    ensures Ends(lists, size) ==> Received(lists, size, |lists|) == lists[0]
  {
    var last := |lists| - 1;
    PagesContinue(tables, lists, less, size, last);
    PageShape(lists[last], size);
  }
}
