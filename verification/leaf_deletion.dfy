/**
 Deleting rows that point at one another through a protected key: replies at their
 parent comment, reversals at the transaction they reverse.  A row can only be deleted
 while nothing points at it, so the three deletions below work from the leaves.
 */
module LeafDeletion {
  import opened Core

  /** Every row with the row it points at, if any. */
  type Rows = map<Id, Option<Id>>

  const BATCH := 500

  datatype Failure = Protected | Unable

  predicate RefersTo(rows: Rows, r: Id, x: Id) { r in rows && rows[r] == Some(x) }

  predicate Referenced(rows: Rows, x: Id) { exists r :: r in rows && rows[r] == Some(x) }

  predicate ReferencedFrom(rows: Rows, from: set<Id>, x: Id) { exists r :: r in from && RefersTo(rows, r, x) }

  /** A foreign key names a row that exists. */
  ghost predicate Integral(rows: Rows) {
    forall r, x :: RefersTo(rows, r, x) ==> x in rows
  }

  function Without(rows: Rows, gone: set<Id>): Rows {
    map r | r in rows && r !in gone :: rows[r]
  }

  // ----- when a set of rows can be deleted -----

  /** A closed walk along the key, inside the given rows. */
  ghost predicate Cycle(rows: Rows, ids: set<Id>, path: seq<Id>) {
    && path != []
    && (forall i :: 0 <= i < |path| ==> path[i] in ids)
    && (forall i, j :: 0 <= i < j < |path| && j == i + 1 ==> RefersTo(rows, path[i], path[j]))
    && RefersTo(rows, path[|path| - 1], path[0])
  }

  ghost predicate OutsideReference(rows: Rows, ids: set<Id>) {
    exists r, x :: x in ids && r !in ids && RefersTo(rows, r, x)
  }

  /** No cycle, and nothing outside points in. */
  ghost predicate Deletable(rows: Rows, ids: set<Id>) {
    !OutsideReference(rows, ids) && forall path: seq<Id> :: !Cycle(rows, ids, path)
  }

  // ----- a set without leaves holds a cycle -----

  ghost predicate Leafless(rows: Rows, s: set<Id>) {
    s != {} && forall x {:trigger ReferencedFrom(rows, s, x)} :: x in s ==> ReferencedFrom(rows, s, x)
  }

  /** Each element is pointed at by the next one. */
  ghost predicate Walk(rows: Rows, s: set<Id>, w: seq<Id>) {
    && (forall i :: 0 <= i < |w| ==> w[i] in s)
    && (forall i, j :: 0 <= i < j < |w| && j == i + 1 ==> RefersTo(rows, w[j], w[i]))
  }

  lemma {:induction false} WalkOf(rows: Rows, s: set<Id>, n: nat) returns (w: seq<Id>)
    requires Leafless(rows, s)
    ensures |w| == n + 1 && Walk(rows, s, w)
  {
    if n == 0 {
      var x :| x in s;
      w := [x];
    } else {
      var shorter := WalkOf(rows, s, n - 1);
      var last := shorter[n - 1];
      assert ReferencedFrom(rows, s, last);
      var next :| next in s && RefersTo(rows, next, last);
      w := shorter + [next];
    }
  }

  lemma {:induction false} Pigeonhole(w: seq<Id>, s: set<Id>) returns (i: nat, j: nat)
    requires |w| > |s| && forall k :: 0 <= k < |w| ==> w[k] in s
    ensures i < j < |w| && w[i] == w[j]
    decreases |s|
  {
    var n := |w| - 1;
    if k :| 0 <= k < n && w[k] == w[n] {
      i, j := k, n;
    } else {
      i, j := Pigeonhole(w[..n], s - {w[n]});
    }
  }

  lemma {:induction false} Reversal(rows: Rows, s: set<Id>, w: seq<Id>, i: nat, j: nat) returns (path: seq<Id>)
    requires Walk(rows, s, w) && i < j < |w|
    ensures |path| == j - i && path[0] == w[j] && path[|path| - 1] == w[i + 1]
    ensures forall k :: 0 <= k < |path| ==> path[k] in s
    ensures forall k, m :: 0 <= k < m < |path| && m == k + 1 ==> RefersTo(rows, path[k], path[m])
    decreases j - i
  {
    if j == i + 1 {
      path := [w[j]];
    } else {
      var rest := Reversal(rows, s, w, i, j - 1);
      path := [w[j]] + rest;
      assert RefersTo(rows, w[j], w[j - 1]);
    }
  }

  /** A nonempty set in which everything is pointed at contains a cycle. */
  lemma LeaflessHasCycle(rows: Rows, s: set<Id>) returns (path: seq<Id>)
    requires Leafless(rows, s)
    ensures Cycle(rows, s, path)
  {
    var w := WalkOf(rows, s, |s|);
    var i, j := Pigeonhole(w, s);
    path := Reversal(rows, s, w, i, j);
    assert RefersTo(rows, w[i + 1], w[i]);
  }

  lemma StuckIsNotDeletable(rows: Rows, ids: set<Id>, s: set<Id>)
    requires Leafless(rows, s) && s <= ids
    ensures !Deletable(rows, ids)
  {
    var path := LeaflessHasCycle(rows, s);
    assert Cycle(rows, ids, path);
  }

  // ----- what the loops keep -----

  /** The rows of `ids` still to delete; what is gone was on no cycle and pointed at from nowhere outside. */
  ghost predicate Progress(before: Rows, ids: set<Id>, left: set<Id>, rows: Rows) {
    && left <= ids && rows == Without(before, ids - left)
    && (forall path: seq<Id> :: Cycle(before, ids, path) ==> path[0] in left)
    && (forall r, x :: x in ids && x !in left && r !in ids ==> !RefersTo(before, r, x))
  }

  /** Any rotation of a cycle is one, so no element of a cycle is ever a leaf. */
  lemma Rotated(rows: Rows, ids: set<Id>, path: seq<Id>)
    requires Cycle(rows, ids, path)
    ensures Cycle(rows, ids, [path[|path| - 1]] + path[..|path| - 1])
  {
    var last := |path| - 1;
    var turned := [path[last]] + path[..last];
    forall i, j | 0 <= i < j < |turned| && j == i + 1 ensures RefersTo(rows, turned[i], turned[j]) {
      if i > 0 {
        assert turned[i] == path[i - 1] && turned[j] == path[i];
        assert RefersTo(rows, path[i - 1], path[i]);
      }
    }
    assert last > 0 ==> turned[last] == path[last - 1] && RefersTo(rows, path[last - 1], path[last]);
  }

  /** Deleting rows that nothing points at. */
  lemma BatchProgress(before: Rows, ids: set<Id>, left: set<Id>, rows: Rows, batch: set<Id>)
    requires Progress(before, ids, left, rows) && batch <= left
    requires forall x :: x in batch ==> !Referenced(rows, x)
    ensures Progress(before, ids, left - batch, Without(rows, batch))
  {
    forall path: seq<Id> | Cycle(before, ids, path) ensures path[0] in left - batch {
      Rotated(before, ids, path);
      var turned := [path[|path| - 1]] + path[..|path| - 1];
      assert turned[0] in left;
      assert RefersTo(rows, turned[0], path[0]);
      assert Referenced(rows, path[0]);
    }
    forall r, x | x in ids && x !in left - batch && r !in ids ensures !RefersTo(before, r, x) {
      if x in batch && RefersTo(before, r, x) {
        assert RefersTo(rows, r, x);
        assert Referenced(rows, x);
      }
    }
  }

  lemma ProgressDone(before: Rows, ids: set<Id>, left: set<Id>, rows: Rows)
    requires Integral(before) && Progress(before, ids, left, rows) && forall x :: x in left ==> x !in rows
    ensures Deletable(before, ids) && rows == Without(before, ids)
  {
    BlockersStay(before, ids, left, rows);
  }

  /** Whatever stands in the way of deleting the whole set is still in the table. */
  lemma BlockersStay(before: Rows, ids: set<Id>, left: set<Id>, rows: Rows)
    requires Integral(before) && Progress(before, ids, left, rows)
    ensures forall path: seq<Id> :: Cycle(before, ids, path) ==> path[0] in left && path[0] in rows
    ensures forall r, x :: x in ids && r !in ids && RefersTo(before, r, x) ==> x in left && x in rows
  {
    forall path: seq<Id> | Cycle(before, ids, path) ensures path[0] in left && path[0] in rows {
      assert path[0] in left && path[0] in before;
    }
  }

  lemma ProgressStart(before: Rows, ids: set<Id>)
    ensures Progress(before, ids, ids, before)
  {
    assert ids - ids == {};
    assert Without(before, {}) == before;
  }

  /** Rows left with nothing to delete first. */
  lemma NoLeafLeft(before: Rows, ids: set<Id>, left: set<Id>, rows: Rows, kept: set<Id>)
    requires Progress(before, ids, left, rows) && kept <= left
    requires Leafless(rows, kept)
    ensures !Deletable(before, ids)
  {
    forall x | x in kept ensures ReferencedFrom(before, kept, x) {
      assert ReferencedFrom(rows, kept, x);
      var r :| r in kept && RefersTo(rows, r, x);
      assert RefersTo(before, r, x);
    }
    StuckIsNotDeletable(before, ids, kept);
  }

  /** Something outside points at a row that is being deleted. */
  lemma OutsidePoints(before: Rows, ids: set<Id>, left: set<Id>, rows: Rows, r: Id, x: Id)
    requires Progress(before, ids, left, rows) && x in left && r !in left && RefersTo(rows, r, x)
    ensures !Deletable(before, ids)
  {
    assert RefersTo(before, r, x) && r !in ids;
  }

  /** No comment left has all its replies gone. */
  lemma AllWaiting(before: Rows, ids: set<Id>, left: set<Id>, rows: Rows, live: set<Id>)
    requires Progress(before, ids, left, rows) && live != {}
    requires forall x :: x in live <==> x in left && x in rows
    requires forall x {:trigger ReferencedFrom(rows, left, x)} :: x in live ==> ReferencedFrom(rows, left, x)
    ensures !Deletable(before, ids)
  {
    forall x | x in live ensures ReferencedFrom(rows, live, x) {
      assert ReferencedFrom(rows, left, x);
      var reply :| reply in left && RefersTo(rows, reply, x);
      assert reply in live;
    }
    NoLeafLeft(before, ids, left, rows, live);
  }

  /** Nothing left to delete is still in the table. */
  lemma NoneLive(before: Rows, ids: set<Id>, left: set<Id>, rows: Rows, live: set<Id>)
    requires Integral(before) && Progress(before, ids, left, rows) && live == {}
    requires forall x :: x in live <==> x in left && x in rows
    ensures Deletable(before, ids) && rows == Without(before, ids)
  {
    forall x | x in left ensures x !in rows {
      assert x !in live;
    }
    ProgressDone(before, ids, left, rows);
  }

  lemma ReferencedLeaf(before: Rows, ids: set<Id>, left: set<Id>, rows: Rows, x: Id)
    requires Progress(before, ids, left, rows) && x in left && Referenced(rows, x)
    requires !ReferencedFrom(rows, left, x)
    ensures !Deletable(before, ids)
  {
    var reply :| reply in rows && rows[reply] == Some(x);
    OutsidePoints(before, ids, left, rows, reply, x);
  }

  // ----- the table -----

  class Table {
    var rows: Rows

    constructor (rows: Rows)
      ensures this.rows == rows
    {
      this.rows := rows;
    }

    /** The key is protected: a referenced row cannot go, and then nothing goes. */
    method Delete(batch: set<Id>) returns (ok: bool)
      modifies this
      ensures ok <==> forall x :: x in batch ==> !Referenced(old(rows), x)
      ensures rows == if ok then Without(old(rows), batch) else old(rows)
    {
      if exists r :: r in rows && rows[r].Some? && rows[r].value in batch {
        var r :| r in rows && rows[r].Some? && rows[r].value in batch;
        assert Referenced(rows, rows[r].value);
        return false;
      }
      rows := Without(rows, batch);
      return true;
    }

    /** A slice of the candidates, in whatever order the database returns them. */
    static method Slice(candidates: set<Id>) returns (batch: set<Id>)
      ensures batch <= candidates && |batch| == Min(|candidates|, BATCH)
    {
      batch := {};
      var rest := candidates;
      while rest != {} && |batch| < BATCH
        invariant batch <= candidates && rest == candidates - batch && |batch| <= BATCH
        decreases |rest|
      {
        var x :| x in rest;
        batch, rest := batch + {x}, rest - {x};
      }
      assert |candidates| == |batch| + |rest| by {
        assert candidates == batch + rest && batch !! rest;
      }
    }

    /** Replies among the comments being deleted make a comment wait; any other reply makes the delete fail. */
    method DeleteComments(ids: set<Id>) returns (r: Result<(), Failure>)
      requires Integral(rows)
      modifies this
      ensures r.Ok? <==> Deletable(old(rows), ids)
      ensures rows == if r.Ok? then Without(old(rows), ids) else old(rows)
    {
      ghost var before := rows;
      var saved := rows;
      var remaining := ids;
      ProgressStart(before, ids);
      while remaining != {}
        invariant remaining <= ids && Progress(before, ids, remaining, rows) && saved == before
        decreases |remaining|
      {
        var live := set x | x in remaining && x in rows;
        var waiting := set x | x in live && ReferencedFrom(rows, remaining, x);
        var leaves := Slice(live - waiting);
        if leaves == {} {
          if live != {} {
            assert live == waiting by { assert |live - waiting| == 0; }
            AllWaiting(before, ids, remaining, rows, live);
            rows := saved;
            return Err(Unable);
          }
          NoneLive(before, ids, remaining, rows, live);
          return Ok(());
        }
        var ok := Delete(leaves);
        if !ok {
          var x :| x in leaves && Referenced(rows, x);
          assert x in live && x !in waiting;
          ReferencedLeaf(before, ids, remaining, rows, x);
          rows := saved;
          return Err(Protected);
        }
        BatchProgress(before, ids, remaining, Without(before, ids - remaining), leaves);
        remaining := remaining - leaves;
      }
      ProgressDone(before, ids, remaining, rows);
      return Ok(());
    }

    /** Reversals of the given transactions go with them, one level deep; any reference makes a transaction wait. */
    method DeleteTransactions(ids: set<Id>) returns (r: Result<(), Failure>)
      requires Integral(rows)
      modifies this
      ensures r.Ok? <==> Deletable(old(rows), WithReversals(old(rows), ids))
      ensures rows == if r.Ok? then Without(old(rows), WithReversals(old(rows), ids)) else old(rows)
    {
      ghost var before := rows;
      var saved := rows;
      var pending := ids + set x | x in rows && rows[x].Some? && rows[x].value in ids;
      ghost var all := pending;
      assert all == WithReversals(before, ids);
      ProgressStart(before, all);
      while pending != {}
        invariant pending <= all && Progress(before, all, pending, rows) && saved == before
        decreases |pending|
      {
        var referenced := set x | x in rows && rows[x].Some? && rows[x].value in pending :: rows[x].value;
        var leaves := pending - referenced;
        if leaves == {} {
          forall x | x in pending ensures Referenced(rows, x) {
            assert x !in leaves && x in referenced;
          }
          AllReferenced(before, all, pending, rows);
          rows := saved;
          return Err(Unable);
        }
        assert forall r :: r in rows && rows[r].Some? && rows[r].value in pending ==> rows[r].value in referenced;
        assert forall x :: x in leaves ==> !Referenced(rows, x);
        var ok := Delete(leaves);
        BatchProgress(before, all, pending, Without(before, all - pending), leaves);
        pending := pending - leaves;
      }
      ProgressDone(before, all, pending, rows);
      return Ok(());
    }

    /** The comments of one execution; a reply from anywhere makes a comment wait. */
    method DeleteCommentTree(ids: set<Id>) returns (r: Result<(), Failure>)
      requires Integral(rows) && forall x :: x in ids ==> x in rows
      modifies this
      ensures r.Ok? <==> Deletable(old(rows), ids)
      ensures rows == if r.Ok? then Without(old(rows), ids) else old(rows)
    {
      ghost var before := rows;
      var saved := rows;
      ghost var left := ids;
      ProgressStart(before, ids);
      while true
        invariant left <= ids && Progress(before, ids, left, rows) && saved == before
        invariant forall x :: x in left <==> x in ids && x in rows
        decreases |left|
      {
        var childless := set x | x in ids && x in rows && !exists r :: r in rows && rows[r] == Some(x);
        var leaves := Slice(childless);
        if leaves == {} {
          if exists x :: x in ids && x in rows {
            assert |childless| == 0;
            forall x | x in left ensures Referenced(rows, x) {
              assert x !in childless;
            }
            AllReferenced(before, ids, left, rows);
            rows := saved;
            return Err(Unable);
          }
          ProgressDone(before, ids, left, rows);
          return Ok(());
        }
        var ok := Delete(leaves);
        BatchProgress(before, ids, left, Without(before, ids - left), leaves);
        left := left - leaves;
      }
    }
  }

  function WithReversals(rows: Rows, ids: set<Id>): set<Id> {
    ids + set x | x in rows && rows[x].Some? && rows[x].value in ids
  }

  /** When every row left is pointed at, it is from among them, or from outside. */
  lemma AllReferenced(before: Rows, ids: set<Id>, left: set<Id>, rows: Rows)
    requires Progress(before, ids, left, rows) && left != {}
    requires forall x :: x in left ==> Referenced(rows, x)
    ensures !Deletable(before, ids)
  {
    if forall x :: x in left ==> ReferencedFrom(rows, left, x) {
      NoLeafLeft(before, ids, left, rows, left);
    } else {
      var x :| x in left && !ReferencedFrom(rows, left, x);
      var r :| r in rows && rows[r] == Some(x);
      OutsidePoints(before, ids, left, rows, r, x);
    }
  }
}
