/** SQL conditions under three-valued logic, and lexicographic sort keys with nulls last. */
module Sql {
  import opened Core

  datatype Truth = Yes | No | Unknown

  function Both(a: Truth, b: Truth): Truth {
    if a == No || b == No then No else if a == Yes && b == Yes then Yes else Unknown
  }

  function Either(a: Truth, b: Truth): Truth {
    if a == Yes || b == Yes then Yes else if a == No && b == No then No else Unknown
  }

  function Not(a: Truth): Truth {
    match a
    case Yes => No
    case No => Yes
    case Unknown => Unknown
  }

  function Known(b: bool): Truth { if b then Yes else No }

  /** Comparing with a null is neither true nor false. */
  function LessThan(a: Option<int>, b: Option<int>): Truth {
    if a.None? || b.None? then Unknown else Known(a.value < b.value)
  }

  function Equal(a: Option<int>, b: Option<int>): Truth {
    if a.None? || b.None? then Unknown else Known(a.value == b.value)
  }

  function IsNull(a: Option<int>): Truth { Known(a.None?) }

  // ----- conditions built step by step -----

  datatype Lookup = Gt | Lt | Exact | Null

  /** `Empty` filters nothing and disappears when it is combined. */
  datatype Q<C> = Empty | Atom(column: C, lookup: Lookup, value: int) | And(l: Q<C>, r: Q<C>) | Or(l: Q<C>, r: Q<C>)

  function QAnd<C>(a: Q<C>, b: Q<C>): Q<C> {
    if a.Empty? then b else if b.Empty? then a else And(a, b)
  }

  function QOr<C>(a: Q<C>, b: Q<C>): Q<C> {
    if a.Empty? then b else if b.Empty? then a else Or(a, b)
  }

  function Eval<C>(q: Q<C>, row: C -> Option<int>): Truth {
    match q
    case Empty => Yes
    case Atom(c, lookup, value) =>
      (match lookup
       case Gt => LessThan(Some(value), row(c))
       case Lt => LessThan(row(c), Some(value))
       case Exact => Equal(row(c), Some(value))
       case Null => IsNull(row(c)))
    case And(l, r) => Both(Eval(l, row), Eval(r, row))
    case Or(l, r) => Either(Eval(l, row), Eval(r, row))
  }

  /** A `WHERE` keeps the rows whose condition is true, not those where it is unknown. */
  predicate Holds<C>(q: Q<C>, row: C -> Option<int>) {
    Eval(q, row) == Yes
  }

  lemma HoldsAnd<C>(a: Q<C>, b: Q<C>, row: C -> Option<int>)
    ensures Holds(QAnd(a, b), row) <==> Holds(a, row) && Holds(b, row)
  {
  }

  lemma HoldsOr<C>(a: Q<C>, b: Q<C>, row: C -> Option<int>)
    requires !b.Empty?
    ensures !QOr(a, b).Empty?
    ensures Holds(QOr(a, b), row) <==> (!a.Empty? && Holds(a, row)) || Holds(b, row)
  {
  }

  // ----- sort keys -----

  /** One entry per sort column, negated where the column sorts downwards. */
  type Key = seq<Option<int>>

  /** The entry of a column that sorts downwards. */
  function Down(v: int): Option<int> { Some(-v) }

  predicate Below(a: Option<int>, b: Option<int>) {
    a.Some? && (b.None? || a.value < b.value)
  }

  predicate Before(a: Key, b: Key)
    requires |a| == |b|
  {
    a != [] && (Below(a[0], b[0]) || (a[0] == b[0] && Before(a[1..], b[1..])))
  }

  lemma BeforeCons(x: Option<int>, xs: Key, y: Option<int>, ys: Key)
    requires |xs| == |ys|
    ensures Before([x] + xs, [y] + ys) <==> Below(x, y) || (x == y && Before(xs, ys))
  {
    assert ([x] + xs)[1..] == xs && ([y] + ys)[1..] == ys;
  }

  lemma {:induction false} BeforeTotal(a: Key, b: Key)
    requires |a| == |b|
    ensures a != b ==> Before(a, b) || Before(b, a)
    ensures Before(a, b) ==> !Before(b, a)
  {
    if a != [] {
      BeforeTotal(a[1..], b[1..]);
      assert a == [a[0]] + a[1..] && b == [b[0]] + b[1..];
    }
  }

  lemma {:induction false} BeforeSplits(a: Key, b: Key, c: Key)
    requires |a| == |b| == |c|
    requires Before(a, b)
    ensures Before(a, c) || Before(c, b)
  {
    if a[0] == b[0] == c[0] {
      BeforeSplits(a[1..], b[1..], c[1..]);
    }
  }
}
