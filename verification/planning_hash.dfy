/**
 The canonical form of a planning request, whose digest decides whether a repeated
 submission is the same one.
 */
module PlanningHash {
  import opened Core
  import opened Pagination

  datatype Json = Null | Bool(b: bool) | Text(text: string) | Number(n: int) | List(items: seq<Json>) | Obj(fields: Fields)

  type Fields = map<string, Json>

  // ----- text order and stable sorting -----

  predicate TextLess(a: string, b: string) {
    b != [] && (a == [] || a[0] < b[0] || (a[0] == b[0] && TextLess(a[1..], b[1..])))
  }

  lemma {:induction false} TextTotal(a: string, b: string)
    ensures TextLess(a, b) ==> !TextLess(b, a)
    ensures a != b ==> TextLess(a, b) || TextLess(b, a)
  {
    if a != [] && b != [] && a[0] == b[0] {
      TextTotal(a[1..], b[1..]);
      assert a == [a[0]] + a[1..] && b == [b[0]] + b[1..];
    }
  }

  lemma {:induction false} TextSplits(a: string, b: string, c: string)
    requires TextLess(a, b)
    ensures TextLess(a, c) || TextLess(c, b)
  {
    if a != [] && c != [] && a[0] == b[0] == c[0] {
      TextSplits(a[1..], b[1..], c[1..]);
    }
  }

  datatype SortKey = SortKey(first: string, second: string)

  predicate KeyLess(k: SortKey, l: SortKey) {
    TextLess(k.first, l.first) || (k.first == l.first && TextLess(k.second, l.second))
  }

  /** Rows compared by a key taken from each. */
  function Under<T>(key: T -> SortKey): Less<T> {
    (x, y) => KeyLess(key(x), key(y))
  }

  lemma UnderIsWeak<T(!new)>(key: T -> SortKey)
    ensures StrictWeak(Under(key))
  {
    var less := Under(key);
    forall x, y | less(x, y) ensures !less(y, x) {
      TextTotal(key(x).first, key(y).first);
      TextTotal(key(x).second, key(y).second);
    }
    forall x, y, z | less(x, y) ensures less(x, z) || less(z, y) {
      var k, l, m := key(x), key(y), key(z);
      TextTotal(k.first, m.first);
      TextTotal(m.first, l.first);
      if TextLess(k.first, l.first) {
        TextSplits(k.first, l.first, m.first);
      } else if m.first == k.first {
        TextSplits(k.second, l.second, m.second);
      }
    }
  }

  /** Before the first row that does not come earlier, so equal keys keep their order. */
  function Inserted<T>(list: seq<T>, x: T, less: Less<T>): seq<T> {
    if list == [] then [x]
    else if less(list[0], x) then [list[0]] + Inserted(list[1..], x, less) else [x] + list
  }

  function StableSort<T>(rows: seq<T>, less: Less<T>): seq<T> {
    if rows == [] then [] else Inserted(StableSort(rows[1..], less), rows[0], less)
  }

  lemma {:induction false} InsertedMembers<T(!new)>(list: seq<T>, x: T, less: Less<T>)
    ensures forall y :: y in Inserted(list, x, less) <==> y == x || y in list
  {
    if list != [] {
      assert list == [list[0]] + list[1..];
      if less(list[0], x) {
        InsertedMembers(list[1..], x, less);
      }
    }
  }

  lemma {:induction false} InsertedOrdered<T(!new)>(list: seq<T>, x: T, less: Less<T>)
    requires StrictWeak(less) && Ordered(list, less)
    requires forall i :: 0 <= i < |list| ==> less(x, list[i]) || less(list[i], x)
    ensures Ordered(Inserted(list, x, less), less)
  {
    if list != [] {
      if less(list[0], x) {
        InsertedOrdered(list[1..], x, less);
        InsertedMembers(list[1..], x, less);
        var rest := Inserted(list[1..], x, less);
        forall i | 0 <= i < |rest| ensures less(list[0], rest[i]) {
          assert rest[i] in rest;
          if rest[i] != x {
            var k :| 0 <= k < |list[1..]| && list[1..][k] == rest[i];
            assert list[k + 1] == rest[i];
          }
        }
      } else {
        forall i | 0 <= i < |list| ensures less(x, list[i]) {
          assert i == 0 || less(list[0], list[i]);
        }
      }
    }
  }

  lemma {:induction false} StableSortOrders<T(!new)>(rows: seq<T>, less: Less<T>)
    requires StrictWeak(less) && DistinctKeys(rows, less)
    ensures Ordered(StableSort(rows, less), less)
    ensures forall x :: x in StableSort(rows, less) <==> x in rows
  {
    if rows != [] {
      StableSortOrders(rows[1..], less);
      var rest := StableSort(rows[1..], less);
      forall i | 0 <= i < |rest| ensures less(rows[0], rest[i]) || less(rest[i], rows[0]) {
        assert rest[i] in rest;
        var k :| 0 <= k < |rows[1..]| && rows[1..][k] == rest[i];
        assert rows[k + 1] == rest[i];
      }
      InsertedOrdered(rest, rows[0], less);
      InsertedMembers(rest, rows[0], less);
      assert rows == [rows[0]] + rows[1..];
    }
  }

  /** Rows with distinct keys sort the same whatever order they come in. */
  lemma SortIgnoresOrder<T(!new)>(a: seq<T>, b: seq<T>, less: Less<T>)
    requires StrictWeak(less) && DistinctKeys(a, less) && DistinctKeys(b, less)
    requires forall x :: x in a <==> x in b
    ensures StableSort(a, less) == StableSort(b, less)
  {
    StableSortOrders(a, less);
    StableSortOrders(b, less);
    OrderedUnique(StableSort(a, less), StableSort(b, less), less);
  }

  // ----- canonical values -----

  predicate Truthy(v: Json) {
    match v
    case Null => false
    case Bool(b) => b
    case Text(t) => t != ""
    case Number(n) => n != 0
    case List(items) => items != []
    case Obj(fields) => fields != map[]
  }

  /** `show` is how a value that is not text is written as text. */
  function Shown(v: Json, show: Json -> string): string {
    if v.Text? then v.text else show(v)
  }

  function FieldText(fields: Fields, name: string, show: Json -> string): string {
    if name in fields && Truthy(fields[name]) then Shown(fields[name], show) else ""
  }

  function AssigneeKey(show: Json -> string): Json -> SortKey {
    (v: Json) => if v.Obj? then SortKey(FieldText(v.fields, "membership_id", show), FieldText(v.fields, "business_unit_id", show))
                 else SortKey("", "")
  }

  predicate StartsAssignees(items: seq<Json>) {
    items != [] && items[0].Obj? && "membership_id" in items[0].fields
  }

  /** Nothing comes back when sorting meets an assignee that is not an object. */
  function Canonical(v: Json, show: Json -> string): Option<Json> {
    match v
    case Obj(fields) =>
      if exists k :: k in fields && Canonical(fields[k], show).None? then None
      else Some(Obj(map k | k in fields :: Canonical(fields[k], show).value))
    case List(items) =>
      if exists i :: 0 <= i < |items| && items[i].Obj? && Canonical(items[i], show).None? then None
      else
        var each := seq(|items|, i requires 0 <= i < |items| => if items[i].Obj? then Canonical(items[i], show).value else items[i]);
        if !StartsAssignees(items) then Some(List(each))
        else if exists i :: 0 <= i < |items| && !items[i].Obj? then None
        else Some(List(StableSort(each, Under(AssigneeKey(show)))))
    case _ => Some(v)
  }

  // ----- canonical requests -----

  /** What is digested: equal digests are taken to mean equal bodies. */
  datatype Body = Body(shared: bool, items: seq<Fields>, requiresValidation: Option<bool>)

  function ItemKey(show: Json -> string): Fields -> SortKey {
    (item: Fields) => SortKey(FieldText(item, "item_id", show), "")
  }

  function TextKey(): string -> SortKey { (t: string) => SortKey(t, "") }

  function DayTexts(days: seq<Json>, show: Json -> string): seq<string> {
    seq(|days|, i requires 0 <= i < |days| => Shown(days[i], show))
  }

  function Texts(days: seq<string>): seq<Json> {
    seq(|days|, i requires 0 <= i < |days| => Text(days[i]))
  }

  function SortedDays(days: seq<Json>, show: Json -> string): seq<Json> {
    Texts(StableSort(DayTexts(days, show), Under(TextKey())))
  }

  function WithSortedDays(item: Fields, show: Json -> string): Fields {
    if "recurrence_days" in item && item["recurrence_days"].List?
    then item["recurrence_days" := List(SortedDays(item["recurrence_days"].items, show))] else item
  }

  function CanonicalItem(item: Fields, show: Json -> string): Option<Fields> {
    var v := Canonical(Obj(item), show);
    if v.Some? then Some(v.value.fields) else None
  }

  function CanonicalBody(shared: bool, items: seq<Fields>, requiresValidation: Option<bool>, show: Json -> string): Option<Body> {
    if exists i :: 0 <= i < |items| && CanonicalItem(items[i], show).None? then None
    else
      var each := seq(|items|, i requires 0 <= i < |items| => CanonicalItem(items[i], show).value);
      var sorted := StableSort(each, Under(ItemKey(show)));
      Some(Body(shared, seq(|sorted|, i requires 0 <= i < |sorted| => WithSortedDays(sorted[i], show)), requiresValidation))
  }

  method ComputeCanonicalBody(shared: bool, items: seq<Fields>, requiresValidation: Option<bool>, show: Json -> string)
    returns (r: Option<Body>)
    ensures r == CanonicalBody(shared, items, requiresValidation, show)
  {
    var each: seq<Fields> := [];
    for i := 0 to |items|
      invariant forall k :: 0 <= k < i ==> CanonicalItem(items[k], show).Some?
      invariant each == seq(i, k requires 0 <= k < i => CanonicalItem(items[k], show).value)
    {
      var item := CanonicalItem(items[i], show);
      if item.None? {
        return None;
      }
      each := each + [item.value];
    }
    var sorted := StableSort(each, Under(ItemKey(show)));
    var dated := sorted;
    for i := 0 to |dated|
      invariant |dated| == |sorted|
      invariant forall k :: 0 <= k < |sorted| ==> dated[k] == if k < i then WithSortedDays(sorted[k], show) else sorted[k]
    {
      if "recurrence_days" in dated[i] && dated[i]["recurrence_days"].List? {
        var days := SortedDays(dated[i]["recurrence_days"].items, show);
        dated := dated[i := dated[i]["recurrence_days" := List(days)]];
      }
    }
    assert dated == seq(|sorted|, i requires 0 <= i < |sorted| => WithSortedDays(sorted[i], show));
    return Some(Body(shared, dated, requiresValidation));
  }

  // ----- what the canonical form ignores -----

  /** Lists of assignees, all with a membership, told apart by membership and unit, that hold the same ones. */
  ghost predicate SameAssignees(a: seq<Json>, b: seq<Json>, show: Json -> string) {
    && AreAssignees(a, show) && AreAssignees(b, show) && (forall x :: x in a <==> x in b)
  }

  ghost predicate AreAssignees(a: seq<Json>, show: Json -> string) {
    && a != []
    && (forall i :: 0 <= i < |a| ==> a[i].Obj? && "membership_id" in a[i].fields && Flat(a[i].fields))
    && DistinctKeys(a, Under(AssigneeKey(show)))
  }

  /** No nested lists or objects. */
  predicate Flat(fields: Fields) {
    forall k :: k in fields ==> !fields[k].Obj? && !fields[k].List?
  }

  /** The same recurrence days, in another order. */
  ghost predicate SameDays(a: seq<Json>, b: seq<Json>) {
    && (forall i :: 0 <= i < |a| ==> !a[i].Obj?) && (forall i :: 0 <= i < |b| ==> !b[i].Obj?)
    && multiset(a) == multiset(b)
  }

  ghost predicate SameValue(name: string, a: Json, b: Json, show: Json -> string) {
    || a == b
    || (a.List? && b.List? && SameAssignees(a.items, b.items, show))
    || (name == "recurrence_days" && a.List? && b.List? && SameDays(a.items, b.items))
  }

  ghost predicate SameItem(a: Fields, b: Fields, show: Json -> string) {
    && (forall k :: k in a <==> k in b)
    && (forall k :: k in a ==> SameValue(k, a[k], b[k], show))
  }

  lemma FlatIsCanonical(fields: Fields, show: Json -> string)
    requires Flat(fields)
    ensures Canonical(Obj(fields), show) == Some(Obj(fields))
  {
    forall k | k in fields ensures Canonical(fields[k], show) == Some(fields[k]) {
    }
    var each := map k | k in fields :: Canonical(fields[k], show).value;
    assert Canonical(Obj(fields), show) == Some(Obj(each));
    assert each == fields;
  }

  lemma AssigneesSort(a: seq<Json>, show: Json -> string)
    requires AreAssignees(a, show)
    ensures Canonical(List(a), show) == Some(List(StableSort(a, Under(AssigneeKey(show)))))
  {
    forall i | 0 <= i < |a| ensures Canonical(a[i], show) == Some(a[i]) {
      FlatIsCanonical(a[i].fields, show);
    }
    assert seq(|a|, i requires 0 <= i < |a| => if a[i].Obj? then Canonical(a[i], show).value else a[i]) == a;
  }

  lemma PlainStays(a: seq<Json>, show: Json -> string)
    requires forall i :: 0 <= i < |a| ==> !a[i].Obj?
    ensures Canonical(List(a), show) == Some(List(a))
  {
    var each := Canonical(List(a), show).value.items;
    assert |each| == |a| && forall i :: 0 <= i < |a| ==> each[i] == a[i];
    assert each == a;
  }

  /** Outside the recurrence days, equal up to order means canonically equal. */
  lemma SameValueCanonical(name: string, a: Json, b: Json, show: Json -> string)
    requires SameValue(name, a, b, show)
    ensures Canonical(a, show) == Canonical(b, show)
            || (name == "recurrence_days" && a.List? && b.List? && SameDays(a.items, b.items)
                && Canonical(a, show) == Some(a) && Canonical(b, show) == Some(b))
  {
    if a != b && a.List? && b.List? {
      if SameAssignees(a.items, b.items, show) {
        AssigneesSort(a.items, show);
        AssigneesSort(b.items, show);
        UnderIsWeak(AssigneeKey(show));
        SortIgnoresOrder(a.items, b.items, Under(AssigneeKey(show)));
      } else {
        PlainStays(a.items, show);
        PlainStays(b.items, show);
      }
    }
  }

  // ----- sorted days -----

  predicate InOrder(a: seq<string>) {
    forall i, j :: 0 <= i < j < |a| ==> NotAfter(a[i], a[j])
  }

  lemma {:induction false} SortedDaysInOrder(days: seq<string>)
    ensures InOrder(StableSort(days, Under(TextKey())))
  {
    if days != [] {
      SortedDaysInOrder(days[1..]);
      InsertedInOrder(StableSort(days[1..], Under(TextKey())), days[0]);
    }
  }

  lemma {:induction false} SortKeepsRows<T(!new)>(rows: seq<T>, less: Less<T>)
    ensures multiset(StableSort(rows, less)) == multiset(rows)
  {
    if rows != [] {
      SortKeepsRows(rows[1..], less);
      InsertKeepsRows(StableSort(rows[1..], less), rows[0], less);
      assert rows == [rows[0]] + rows[1..];
    }
  }

  lemma {:induction false} InsertKeepsRows<T(!new)>(list: seq<T>, x: T, less: Less<T>)
    ensures multiset(Inserted(list, x, less)) == multiset(list) + multiset{x}
  {
    if list != [] {
      assert list == [list[0]] + list[1..];
      if less(list[0], x) {
        InsertKeepsRows(list[1..], x, less);
      }
    }
  }

  predicate NotAfter(x: string, y: string) { x == y || TextLess(x, y) }

  lemma InOrderCons(x: string, rest: seq<string>)
    requires InOrder(rest) && forall y :: y in rest ==> NotAfter(x, y)
    ensures InOrder([x] + rest)
  {
    var all := [x] + rest;
    forall i, j | 0 <= i < j < |all| ensures NotAfter(all[i], all[j]) {
      assert all[j] == rest[j - 1];
      if i > 0 {
        assert all[i] == rest[i - 1];
      }
    }
  }

  lemma InOrderTail(list: seq<string>)
    requires InOrder(list) && list != []
    ensures InOrder(list[1..])
  {
    var rest := list[1..];
    forall i, j | 0 <= i < j < |rest| ensures NotAfter(rest[i], rest[j]) {
      assert NotAfter(list[i + 1], list[j + 1]);
    }
  }

  lemma NotAfterTrans(x: string, y: string, z: string)
    requires NotAfter(x, y) && NotAfter(y, z)
    ensures NotAfter(x, z)
  {
    if x != y && y != z && x != z {
      TextSplits(y, z, x);
      TextTotal(x, y);
    }
  }

  lemma HeadFirst(list: seq<string>, y: string)
    requires InOrder(list) && y in list
    ensures NotAfter(list[0], y)
  {
    var k :| 0 <= k < |list| && list[k] == y;
    assert k == 0 || NotAfter(list[0], list[k]);
  }

  lemma UnderText(a: string, b: string)
    ensures Under(TextKey())(a, b) <==> TextLess(a, b)
  {
    assert !TextLess("", "");
    var key := TextKey();
    assert key(a) == SortKey(a, "") && key(b) == SortKey(b, "");
    assert Under(key)(a, b) == KeyLess(key(a), key(b));
  }

  lemma {:induction false} InsertedInOrder(list: seq<string>, x: string)
    requires InOrder(list)
    ensures InOrder(Inserted(list, x, Under(TextKey())))
  {
    if list != [] {
      TextTotal(list[0], x);
      UnderText(list[0], x);
      if TextLess(list[0], x) {
        InOrderTail(list);
        InsertedInOrder(list[1..], x);
        InsertedMembers(list[1..], x, Under(TextKey()));
        var rest := Inserted(list[1..], x, Under(TextKey()));
        forall y | y in rest ensures NotAfter(list[0], y) {
          if y != x {
            HeadFirst(list, y);
          }
        }
        InOrderCons(list[0], rest);
        assert Inserted(list, x, Under(TextKey())) == [list[0]] + rest;
      } else {
        forall y | y in list ensures NotAfter(x, y) {
          HeadFirst(list, y);
          NotAfterTrans(x, list[0], y);
        }
        InOrderCons(x, list);
        assert Inserted(list, x, Under(TextKey())) == [x] + list;
      }
    }
  }

  lemma {:induction false} InOrderUnique(a: seq<string>, b: seq<string>)
    requires InOrder(a) && InOrder(b) && multiset(a) == multiset(b)
    ensures a == b
  {
    assert |a| == |multiset(a)| && |b| == |multiset(b)|;
    if a != [] {
      assert a[0] in multiset(b) && b[0] in multiset(a);
      HeadFirst(a, b[0]);
      HeadFirst(b, a[0]);
      TextTotal(a[0], b[0]);
      TailRows(a);
      TailRows(b);
      InOrderTail(a);
      InOrderTail(b);
      InOrderUnique(a[1..], b[1..]);
      assert a == [a[0]] + a[1..] && b == [b[0]] + b[1..];
    }
  }

  lemma TailRows(a: seq<string>)
    requires a != []
    ensures multiset(a[1..]) == multiset(a) - multiset{a[0]}
  {
    assert a == [a[0]] + a[1..];
  }

  lemma DayTextsWithout(b: seq<Json>, i: nat, show: Json -> string)
    requires i < |b|
    ensures multiset(b[..i] + b[i + 1..]) == multiset(b) - multiset{b[i]}
    ensures multiset(DayTexts(b, show)) == multiset(DayTexts(b[..i] + b[i + 1..], show)) + multiset{Shown(b[i], show)}
  {
    assert b == b[..i] + [b[i]] + b[i + 1..];
    var early, late := DayTexts(b[..i], show), DayTexts(b[i + 1..], show);
    assert DayTexts(b[..i] + b[i + 1..], show) == early + late;
    assert DayTexts(b, show) == early + [Shown(b[i], show)] + late;
  }

  lemma {:induction false} SameDayTexts(a: seq<Json>, b: seq<Json>, show: Json -> string)
    requires multiset(a) == multiset(b)
    ensures multiset(DayTexts(a, show)) == multiset(DayTexts(b, show))
  {
    if a == [] {
      assert |multiset(b)| == 0;
    } else {
      var i := FirstAmong(a, b);
      var x, y := a[..0] + a[1..], b[..i] + b[i + 1..];
      DayTextsWithout(a, 0, show);
      DayTextsWithout(b, i, show);
      SameDayTexts(x, y, show);
    }
  }

  lemma FirstAmong(a: seq<Json>, b: seq<Json>) returns (i: nat)
    requires multiset(a) == multiset(b) && a != []
    ensures i < |b| && b[i] == a[0]
  {
    assert a[0] in multiset(b);
    i :| 0 <= i < |b| && b[i] == a[0];
  }

  /** Recurrence days sort the same whatever order they come in. */
  lemma DaysIgnoreOrder(a: seq<Json>, b: seq<Json>, show: Json -> string)
    requires multiset(a) == multiset(b)
    ensures SortedDays(a, show) == SortedDays(b, show)
  {
    SameDayTexts(a, b, show);
    var x, y := DayTexts(a, show), DayTexts(b, show);
    SortedDaysInOrder(x);
    SortedDaysInOrder(y);
    SortKeepsRows(x, Under(TextKey()));
    SortKeepsRows(y, Under(TextKey()));
    InOrderUnique(StableSort(x, Under(TextKey())), StableSort(y, Under(TextKey())));
  }

  // ----- whole requests -----

  ghost function Final(item: Fields, show: Json -> string): Option<Fields> {
    var c := CanonicalItem(item, show);
    if c.Some? then Some(WithSortedDays(c.value, show)) else None
  }

  /** Canonical items that differ in nothing but the order of their recurrence days. */
  ghost predicate SameButDays(c: Fields, d: Fields, show: Json -> string) {
    && (forall k :: k in c <==> k in d)
    && (forall k :: k in c && k != "recurrence_days" ==> c[k] == d[k])
    && ("recurrence_days" in c ==>
          || c["recurrence_days"] == d["recurrence_days"]
          || (c["recurrence_days"].List? && d["recurrence_days"].List?
              && SortedDays(c["recurrence_days"].items, show) == SortedDays(d["recurrence_days"].items, show)))
  }

  lemma SameButDaysFinal(c: Fields, d: Fields, show: Json -> string)
    requires SameButDays(c, d, show)
    ensures WithSortedDays(c, show) == WithSortedDays(d, show)
  {
  }

  lemma SameFieldCanonical(name: string, a: Json, b: Json, show: Json -> string)
    requires SameValue(name, a, b, show)
    ensures var c, d := Canonical(a, show), Canonical(b, show);
            || c == d
            || (name == "recurrence_days" && c.Some? && d.Some? && c.value.List? && d.value.List?
                && SortedDays(c.value.items, show) == SortedDays(d.value.items, show))
  {
    SameValueCanonical(name, a, b, show);
    if Canonical(a, show) != Canonical(b, show) {
      DaysIgnoreOrder(a.items, b.items, show);
    }
  }

  lemma SameItemCanonical(a: Fields, b: Fields, show: Json -> string)
    requires SameItem(a, b, show) && CanonicalItem(a, show).Some? && CanonicalItem(b, show).Some?
    ensures SameButDays(CanonicalItem(a, show).value, CanonicalItem(b, show).value, show)
  {
    var c, d := CanonicalItem(a, show).value, CanonicalItem(b, show).value;
    forall k | k in c
      ensures c[k] == d[k]
              || (k == "recurrence_days" && c[k].List? && d[k].List? && SortedDays(c[k].items, show) == SortedDays(d[k].items, show))
    {
      SameFieldCanonical(k, a[k], b[k], show);
    }
  }

  lemma SameItemFinal(a: Fields, b: Fields, show: Json -> string)
    requires SameItem(a, b, show) && Final(a, show).Some? && Final(b, show).Some?
    ensures Final(a, show) == Final(b, show)
  {
    SameItemCanonical(a, b, show);
    SameButDaysFinal(CanonicalItem(a, show).value, CanonicalItem(b, show).value, show);
  }

  lemma KeyIsKept(item: Fields, show: Json -> string)
    ensures ItemKey(show)(WithSortedDays(item, show)) == ItemKey(show)(item)
  {
  }

  ghost predicate CanonicalItems(items: seq<Fields>, show: Json -> string) {
    forall i :: 0 <= i < |items| ==> Final(items[i], show).Some?
  }

  ghost predicate DistinctItems(items: seq<Fields>, show: Json -> string) {
    forall i, j :: 0 <= i < j < |items| ==> FieldText(items[i], "item_id", show) != FieldText(items[j], "item_id", show)
  }

  /** Item ids are plain values. */
  ghost predicate PlainIds(items: seq<Fields>) {
    forall i :: 0 <= i < |items| && "item_id" in items[i] ==> !items[i]["item_id"].Obj? && !items[i]["item_id"].List?
  }

  ghost function Finals(items: seq<Fields>, show: Json -> string): seq<Fields>
    requires CanonicalItems(items, show)
  {
    seq(|items|, i requires 0 <= i < |items| => Final(items[i], show).value)
  }

  lemma FinalKey(item: Fields, show: Json -> string)
    requires Final(item, show).Some? && ("item_id" in item ==> !item["item_id"].Obj? && !item["item_id"].List?)
    ensures FieldText(Final(item, show).value, "item_id", show) == FieldText(item, "item_id", show)
    ensures FieldText(CanonicalItem(item, show).value, "item_id", show) == FieldText(item, "item_id", show)
  {
    var c := CanonicalItem(item, show).value;
    if "item_id" in item {
      assert Canonical(item["item_id"], show) == Some(item["item_id"]);
      assert c["item_id"] == item["item_id"];
    }
  }

  /** A list that holds some rows, in the order of their keys. */
  ghost predicate Listed<T(!new)>(list: seq<T>, rows: seq<T>, less: Less<T>) {
    Ordered(list, less) && forall x :: x in list <==> x in rows
  }

  function Mapped<T>(rows: seq<T>, f: T -> T): seq<T> {
    seq(|rows|, i requires 0 <= i < |rows| => f(rows[i]))
  }

  /** Sorting and then rewriting rows without touching their keys lists what rewriting them gives. */
  lemma SortThenRewrite<T(!new)>(rows: seq<T>, key: T -> SortKey, f: T -> T)
    requires DistinctKeys(rows, Under(key)) && forall x :: key(f(x)) == key(x)
    ensures Listed(Mapped(StableSort(rows, Under(key)), f), Mapped(rows, f), Under(key))
  {
    var less := Under(key);
    UnderIsWeak(key);
    StableSortOrders(rows, less);
    var sorted := StableSort(rows, less);
    var list, images := Mapped(sorted, f), Mapped(rows, f);
    forall i, j | 0 <= i < j < |list| ensures less(list[i], list[j]) {
      assert less(sorted[i], sorted[j]);
    }
    forall x | x in list ensures x in images {
      var i :| 0 <= i < |list| && list[i] == x;
      assert sorted[i] in sorted;
      var k :| 0 <= k < |rows| && rows[k] == sorted[i];
      assert images[k] == x;
    }
    forall x | x in images ensures x in list {
      var k :| 0 <= k < |images| && images[k] == x;
      assert rows[k] in rows && rows[k] in sorted;
      var i :| 0 <= i < |sorted| && sorted[i] == rows[k];
      assert list[i] == x;
    }
  }

  lemma SameListing<T(!new)>(x: seq<T>, y: seq<T>, a: seq<T>, b: seq<T>, less: Less<T>)
    requires StrictWeak(less) && Listed(x, a, less) && Listed(y, b, less)
    requires (forall r :: r in a ==> r in b) && (forall r :: r in b ==> r in a)
    ensures x == y
  {
    OrderedUnique(x, y, less);
  }

  ghost predicate IsBody(body: Option<Body>, shared: bool, finals: seq<Fields>, rv: Option<bool>, less: Less<Fields>) {
    && body.Some? && body.value.shared == shared && body.value.requiresValidation == rv
    && Listed(body.value.items, finals, less)
  }

  lemma SameBody(x: Option<Body>, y: Option<Body>, shared: bool, a: seq<Fields>, b: seq<Fields>, rv: Option<bool>, less: Less<Fields>)
    requires StrictWeak(less) && IsBody(x, shared, a, rv, less) && IsBody(y, shared, b, rv, less)
    requires (forall r :: r in a ==> r in b) && (forall r :: r in b ==> r in a)
    ensures x == y
  {
    SameListing(x.value.items, y.value.items, a, b, less);
  }

  function Rewriting(show: Json -> string): Fields -> Fields {
    (item: Fields) => WithSortedDays(item, show)
  }

  lemma CanonicalKeysDistinct(items: seq<Fields>, each: seq<Fields>, show: Json -> string)
    requires CanonicalItems(items, show) && DistinctItems(items, show) && PlainIds(items)
    requires |each| == |items| && forall i :: 0 <= i < |items| ==> each[i] == CanonicalItem(items[i], show).value
    ensures DistinctKeys(each, Under(ItemKey(show)))
  {
    forall i, j | 0 <= i < j < |each|
      ensures Under(ItemKey(show))(each[i], each[j]) || Under(ItemKey(show))(each[j], each[i])
    {
      FinalKey(items[i], show);
      FinalKey(items[j], show);
      TextTotal(FieldText(items[i], "item_id", show), FieldText(items[j], "item_id", show));
    }
  }

  /** The items of the canonical body are the canonical items, days sorted, in the order of their ids. */
  lemma BodyIsSortedFinals(shared: bool, items: seq<Fields>, rv: Option<bool>, show: Json -> string)
    requires CanonicalItems(items, show) && DistinctItems(items, show) && PlainIds(items)
    ensures IsBody(CanonicalBody(shared, items, rv, show), shared, Finals(items, show), rv, Under(ItemKey(show)))
  {
    var each := seq(|items|, i requires 0 <= i < |items| => CanonicalItem(items[i], show).value);
    CanonicalKeysDistinct(items, each, show);
    var f := Rewriting(show);
    forall x ensures ItemKey(show)(f(x)) == ItemKey(show)(x) {
      KeyIsKept(x, show);
    }
    SortThenRewrite(each, ItemKey(show), f);
    assert Mapped(each, f) == Finals(items, show);
    assert CanonicalBody(shared, items, rv, show).value.items == Mapped(StableSort(each, Under(ItemKey(show))), f);
  }

  /** Every item of one request is, up to order inside it, an item of the other. */
  ghost predicate Covered(a: seq<Fields>, b: seq<Fields>, show: Json -> string) {
    forall i :: 0 <= i < |a| ==> exists j :: 0 <= j < |b| && SameItem(a[i], b[j], show)
  }

  /** Two requests have the same canonical form exactly when their canonical items are the same. */
  lemma SameFormExactly(sharedA: bool, a: seq<Fields>, rvA: Option<bool>, sharedB: bool, b: seq<Fields>, rvB: Option<bool>,
                        show: Json -> string)
    requires CanonicalItems(a, show) && CanonicalItems(b, show)
    requires DistinctItems(a, show) && DistinctItems(b, show) && PlainIds(a) && PlainIds(b)
    ensures CanonicalBody(sharedA, a, rvA, show).Some?
    ensures CanonicalBody(sharedA, a, rvA, show) == CanonicalBody(sharedB, b, rvB, show)
            <==> sharedA == sharedB && rvA == rvB && SameRows(Finals(a, show), Finals(b, show))
  {
    BodyIsSortedFinals(sharedA, a, rvA, show);
    BodyIsSortedFinals(sharedB, b, rvB, show);
    UnderIsWeak(ItemKey(show));
    SameBodyExactly(CanonicalBody(sharedA, a, rvA, show), CanonicalBody(sharedB, b, rvB, show), sharedA, Finals(a, show), rvA,
                    sharedB, Finals(b, show), rvB, Under(ItemKey(show)));
  }

  ghost predicate AllIn(a: seq<Fields>, b: seq<Fields>) { forall r :: r in a ==> r in b }

  ghost predicate SameRows(a: seq<Fields>, b: seq<Fields>) { AllIn(a, b) && AllIn(b, a) }

  lemma SameBodyExactly(x: Option<Body>, y: Option<Body>, sharedA: bool, a: seq<Fields>, rvA: Option<bool>,
                        sharedB: bool, b: seq<Fields>, rvB: Option<bool>, less: Less<Fields>)
    requires StrictWeak(less) && IsBody(x, sharedA, a, rvA, less) && IsBody(y, sharedB, b, rvB, less)
    ensures x == y <==> sharedA == sharedB && rvA == rvB && SameRows(a, b)
  {
    if sharedA == sharedB && rvA == rvB && SameRows(a, b) {
      SameBody(x, y, sharedA, a, b, rvA, less);
    }
  }

  lemma FinalsCovered(a: seq<Fields>, b: seq<Fields>, show: Json -> string)
    requires Covered(a, b, show) && CanonicalItems(a, show) && CanonicalItems(b, show)
    ensures AllIn(Finals(a, show), Finals(b, show))
  {
    forall x | x in Finals(a, show) ensures x in Finals(b, show) {
      var i :| 0 <= i < |a| && Finals(a, show)[i] == x;
      var j :| 0 <= j < |b| && SameItem(a[i], b[j], show);
      SameItemFinal(a[i], b[j], show);
      assert Finals(b, show)[j] == x;
    }
  }

  /**
   Requests that differ only in the order of their items, of recurrence days and of assignees have the
   same canonical form, when items are told apart by their ids.
   */
  lemma OrderDoesNotMatter(shared: bool, a: seq<Fields>, b: seq<Fields>, rv: Option<bool>, show: Json -> string)
    requires Covered(a, b, show) && Covered(b, a, show)
    requires CanonicalItems(a, show) && CanonicalItems(b, show)
    requires DistinctItems(a, show) && DistinctItems(b, show) && PlainIds(a) && PlainIds(b)
    ensures CanonicalBody(shared, a, rv, show).Some? && CanonicalBody(shared, a, rv, show) == CanonicalBody(shared, b, rv, show)
  {
    FinalsCovered(a, b, show);
    FinalsCovered(b, a, show);
    SameFormExactly(shared, a, rv, shared, b, rv, show);
  }
}
