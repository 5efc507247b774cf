/** What the canonical form of a planning request is: a stable sort by text keys of values taken as they are. */
module HashLaws {
  import opened Core
  import opened Pagination
  import opened PlanningHash

  // ----- the order of texts -----

  /** At the first character in which they differ, or where the first one ends. */
  ghost predicate DiffersAt(a: string, b: string, n: nat) {
    && n <= |a| && n < |b| && a[..n] == b[..n]
    && (n == |a| || (n < |a| && a[n] < b[n]))
  }

  lemma {:induction false} TextLessExactly(a: string, b: string)
    ensures TextLess(a, b) <==> exists n: nat :: DiffersAt(a, b, n)
  {
    if b == [] {
    } else if a == [] || a[0] < b[0] {
      assert DiffersAt(a, b, 0);
    } else {
      var x, y := a[1..], b[1..];
      TextLessExactly(x, y);
      if a[0] == b[0] {
        if n: nat :| DiffersAt(x, y, n) {
          assert a[..n + 1] == [a[0]] + x[..n] && b[..n + 1] == [b[0]] + y[..n];
          assert DiffersAt(a, b, n + 1);
        }
        if n: nat :| DiffersAt(a, b, n) {
          assert n > 0 && x[..n - 1] == a[..n][1..] && y[..n - 1] == b[..n][1..];
          assert DiffersAt(x, y, n - 1);
        }
      } else {
        forall n: nat ensures !DiffersAt(a, b, n) {
          if 0 < n <= |a| && n <= |b| {
            assert a[..n][0] == a[0] && b[..n][0] == b[0];
          }
        }
      }
    }
  }

  lemma KeyLessExactly(k: SortKey, l: SortKey)
    ensures KeyLess(k, l) <==> TextLess(k.first, l.first) || (!TextLess(l.first, k.first) && TextLess(k.second, l.second))
  {
    TextTotal(k.first, l.first);
  }

  // ----- the sort -----

  /** No row comes before one that its key puts it after. */
  ghost predicate Sorted<T(!new)>(list: seq<T>, less: Less<T>) {
    forall i, j :: 0 <= i < j < |list| ==> !less(list[j], list[i])
  }

  lemma {:induction false} InsertedSorted<T(!new)>(list: seq<T>, x: T, less: Less<T>)
    requires StrictWeak(less) && Sorted(list, less)
    ensures Sorted(Inserted(list, x, less), less)
  {
    if list != [] {
      if less(list[0], x) {
        InsertedSorted(list[1..], x, less);
        InsertedMembers(list[1..], x, less);
        var rest := Inserted(list[1..], x, less);
        forall j | 0 <= j < |rest| ensures !less(rest[j], list[0]) {
          assert rest[j] in rest;
          if rest[j] != x {
            var k :| 0 <= k < |list[1..]| && list[1..][k] == rest[j];
            assert list[k + 1] == rest[j];
          }
        }
      } else {
        var first := list[0];
        forall j | 0 <= j < |list| ensures !less(list[j], x) {
          var y := list[j];
          assert !less(y, x) || less(y, first) || less(first, x);
        }
      }
    }
  }

  lemma {:induction false} SortIsSorted<T(!new)>(rows: seq<T>, less: Less<T>)
    requires StrictWeak(less)
    ensures Sorted(StableSort(rows, less), less)
  {
    if rows != [] {
      SortIsSorted(rows[1..], less);
      InsertedSorted(StableSort(rows[1..], less), rows[0], less);
    }
  }

  /** The rows with one key, in their order. */
  function WithKey<T>(rows: seq<T>, key: T -> SortKey, k: SortKey): seq<T> {
    Filter(rows, x => key(x) == k)
  }

  lemma NotBelowItself(k: SortKey)
    ensures !KeyLess(k, k)
  {
    TextTotal(k.first, k.first);
    TextTotal(k.second, k.second);
  }

  lemma {:induction false} InsertedWithKey<T(!new)>(list: seq<T>, x: T, key: T -> SortKey, k: SortKey)
    ensures WithKey(Inserted(list, x, Under(key)), key, k) == (if key(x) == k then [x] else []) + WithKey(list, key, k)
  {
    if list != [] && Under(key)(list[0], x) {
      NotBelowItself(key(x));
      InsertedWithKey(list[1..], x, key, k);
      var all := Inserted(list, x, Under(key));
      assert all[0] == list[0] && all[1..] == Inserted(list[1..], x, Under(key));
    } else {
      var all := Inserted(list, x, Under(key));
      assert all[0] == x && all[1..] == list;
    }
  }

  /** Sorting keeps the rows of every key, in the order they came in. */
  lemma {:induction false} SortIsStable<T(!new)>(rows: seq<T>, key: T -> SortKey, k: SortKey)
    ensures WithKey(StableSort(rows, Under(key)), key, k) == WithKey(rows, key, k)
  {
    if rows != [] {
      SortIsStable(rows[1..], key, k);
      InsertedWithKey(StableSort(rows[1..], Under(key)), rows[0], key, k);
    }
  }

  ghost predicate StablySorted<T(!new)>(sorted: seq<T>, rows: seq<T>, key: T -> SortKey) {
    Sorted(sorted, Under(key)) && forall k :: WithKey(sorted, key, k) == WithKey(rows, key, k)
  }

  lemma SortExactly<T(!new)>(rows: seq<T>, key: T -> SortKey)
    ensures StablySorted(StableSort(rows, Under(key)), rows, key)
  {
    UnderIsWeak(key);
    SortIsSorted(rows, Under(key));
    forall k ensures WithKey(StableSort(rows, Under(key)), key, k) == WithKey(rows, key, k) {
      SortIsStable(rows, key, k);
    }
  }

  // ----- keys -----

  predicate IsEmptyValue(v: Json) {
    v == Null || v == Bool(false) || v == Text("") || v == Number(0) || v == List([]) || v == Obj(map[])
  }

  /** An absent or empty field has no text; a text is its own, and another value is written as one. */
  lemma FieldTextExactly(fields: Fields, name: string, show: Json -> string)
    ensures name !in fields || IsEmptyValue(fields[name]) ==> FieldText(fields, name, show) == ""
    ensures name in fields && !IsEmptyValue(fields[name]) ==>
              FieldText(fields, name, show) == (if fields[name].Text? then fields[name].text else show(fields[name]))
  {
    if name in fields {
      match fields[name]
      case Obj(inner) => assert inner == map[] <==> fields[name] == Obj(map[]);
      case _ =>
    }
  }

  /** Assignees sort by member and then by unit, items by their id. */
  lemma KeysExactly(v: Json, item: Fields, show: Json -> string)
    ensures v.Obj? ==> AssigneeKey(show)(v) == SortKey(FieldText(v.fields, "membership_id", show), FieldText(v.fields, "business_unit_id", show))
    ensures ItemKey(show)(item) == SortKey(FieldText(item, "item_id", show), "")
  {
  }

  // ----- canonical values -----

  /** Each value of an object is made canonical; what fails in one of them fails. */
  lemma ObjectsExactly(fields: Fields, show: Json -> string)
    ensures var c := Canonical(Obj(fields), show);
            && (c.None? <==> exists k :: k in fields && Canonical(fields[k], show).None?)
            && (c.Some? ==> c.value.Obj? && (forall k :: k in c.value.fields <==> k in fields)
                            && forall k :: k in fields ==> Canonical(fields[k], show) == Some(c.value.fields[k]))
  {
  }

  /** The elements that are objects made canonical, the others as they are. */
  ghost predicate Elementwise(items: seq<Json>, each: seq<Json>, show: Json -> string) {
    && |each| == |items|
    && forall i :: 0 <= i < |items| ==> if items[i].Obj? then Canonical(items[i], show) == Some(each[i]) else each[i] == items[i]
  }

  /** Only a list that starts with an assignee is sorted, and it may hold nothing but objects. */
  ghost predicate IsCanonicalList(items: seq<Json>, c: seq<Json>, show: Json -> string) {
    exists each :: Elementwise(items, each, show) &&
      if items != [] && items[0].Obj? && "membership_id" in items[0].fields then StablySorted(c, each, AssigneeKey(show)) else c == each
  }

  ghost predicate FailsIn(items: seq<Json>, i: int, show: Json -> string)
    requires 0 <= i < |items|
  {
    if items[i].Obj? then Canonical(items[i], show).None?
    else items[0].Obj? && "membership_id" in items[0].fields
  }

  lemma ListsExactly(items: seq<Json>, show: Json -> string)
    ensures var c := Canonical(List(items), show);
            && (c.None? <==> exists i :: 0 <= i < |items| && FailsIn(items, i, show))
            && (c.Some? ==> c.value.List? && IsCanonicalList(items, c.value.items, show))
  {
    var c := Canonical(List(items), show);
    if c.None? {
      if i :| 0 <= i < |items| && items[i].Obj? && Canonical(items[i], show).None? {
        assert FailsIn(items, i, show);
      } else {
        var i :| 0 <= i < |items| && !items[i].Obj?;
        assert FailsIn(items, i, show);
      }
    } else {
      var each := seq(|items|, i requires 0 <= i < |items| => if items[i].Obj? then Canonical(items[i], show).value else items[i]);
      assert Elementwise(items, each, show);
      SortExactly(each, AssigneeKey(show));
    }
  }

  lemma ScalarsStay(v: Json, show: Json -> string)
    requires !v.Obj? && !v.List?
    ensures Canonical(v, show) == Some(v)
  {
  }

  // ----- canonical requests -----

  /** Recurrence days become their texts in order, each as often as it was given. */
  lemma DaysExactly(days: seq<Json>, show: Json -> string) returns (texts: seq<string>)
    ensures InOrder(texts) && multiset(texts) == multiset(DayTexts(days, show))
    ensures |DayTexts(days, show)| == |days|
    ensures forall i :: 0 <= i < |days| ==> DayTexts(days, show)[i] == if days[i].Text? then days[i].text else show(days[i])
    ensures |SortedDays(days, show)| == |texts| && forall i :: 0 <= i < |texts| ==> SortedDays(days, show)[i] == Text(texts[i])
  {
    texts := StableSort(DayTexts(days, show), Under(TextKey()));
    SortedDaysInOrder(DayTexts(days, show));
    SortKeepsRows(DayTexts(days, show), Under(TextKey()));
  }

  lemma InOrderExactly(texts: seq<string>)
    ensures InOrder(texts) <==> forall i, j :: 0 <= i < j < |texts| ==> !TextLess(texts[j], texts[i])
  {
    forall i, j | 0 <= i < j < |texts| ensures NotAfter(texts[i], texts[j]) <==> !TextLess(texts[j], texts[i]) {
      TextTotal(texts[i], texts[j]);
    }
  }

  /** Of a canonical item only the recurrence days change, and only when they are a list. */
  lemma ItemDaysExactly(item: Fields, show: Json -> string)
    ensures var r := WithSortedDays(item, show);
            && (forall k :: k in r <==> k in item) && (forall k :: k in item && k != "recurrence_days" ==> r[k] == item[k])
            && ("recurrence_days" in item ==>
                  r["recurrence_days"] == if item["recurrence_days"].List?
                                          then List(SortedDays(item["recurrence_days"].items, show)) else item["recurrence_days"])
  {
  }

  ghost predicate AreCanonical(items: seq<Fields>, each: seq<Fields>, show: Json -> string) {
    |each| == |items| && forall i :: 0 <= i < |items| ==> Canonical(Obj(items[i]), show) == Some(Obj(each[i]))
  }

  ghost predicate AreDated(sorted: seq<Fields>, dated: seq<Fields>, show: Json -> string) {
    |dated| == |sorted| && forall i :: 0 <= i < |sorted| ==> dated[i] == WithSortedDays(sorted[i], show)
  }

  /** The items of a canonical body: each canonical, stably sorted by id, their days sorted last. */
  ghost predicate AreBodyItems(items: seq<Fields>, dated: seq<Fields>, show: Json -> string) {
    exists each, sorted :: AreCanonical(items, each, show) && StablySorted(sorted, each, ItemKey(show)) && AreDated(sorted, dated, show)
  }

  /** A request has a body exactly when every item has a canonical form, repeated ids included. */
  lemma BodyExactly(shared: bool, items: seq<Fields>, rv: Option<bool>, show: Json -> string)
    ensures var body := CanonicalBody(shared, items, rv, show);
            && (body.None? <==> exists i :: 0 <= i < |items| && Canonical(Obj(items[i]), show).None?)
            && (body.Some? ==> body.value.shared == shared && body.value.requiresValidation == rv
                               && AreBodyItems(items, body.value.items, show))
  {
    var body := CanonicalBody(shared, items, rv, show);
    if body.None? {
      var i :| 0 <= i < |items| && CanonicalItem(items[i], show).None?;
      assert Canonical(Obj(items[i]), show).None?;
    } else {
      var each := seq(|items|, i requires 0 <= i < |items| => CanonicalItem(items[i], show).value);
      forall i | 0 <= i < |items| ensures Canonical(Obj(items[i]), show) == Some(Obj(each[i])) {
        assert CanonicalItem(items[i], show).Some?;
      }
      SortExactly(each, ItemKey(show));
      var sorted := StableSort(each, Under(ItemKey(show)));
      assert AreCanonical(items, each, show) && AreDated(sorted, body.value.items, show);
    }
  }
}
