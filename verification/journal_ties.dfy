/**
 What the two journal readers return when events share an instant.  Rows are fetched by
 instant alone and sorted by instant and type, so among events of one instant and one type
 any may come last: a reading is a choice among them.
 */
module JournalTies {
  import opened Core
  import opened Journal

  /** Which event comes last among those of one instant and one type. */
  type Choice = (Time, EventKind) -> Event

  ghost predicate Chooses(c: Choice, j: seq<Event>) {
    forall x {:trigger Chosen(c, x)} :: x in j ==> Chosen(c, x) in j && SameKey(Chosen(c, x), x)
  }

  predicate SameKey(x: Event, y: Event) { x.at == y.at && x.kind == y.kind }

  function Chosen(c: Choice, x: Event): Event { c(x.at, x.kind) }

  /** The last listed event of one instant and one type. */
  function LastAs(s: seq<Event>, t: Time, k: EventKind): Option<Event> {
    if s == [] then None
    else
      var last := s[|s| - 1];
      if last.at == t && last.kind == k then Some(last) else LastAs(s[..|s| - 1], t, k)
  }

  /** The choice that a listing makes. */
  function Listed(events: seq<Event>): Choice {
    (t, k) => var l := LastAs(events, t, k); if l.Some? then l.value else Event(k, t, map[])
  }

  // ----- readings by choice -----

  /** The last event before an instant, in the readers' order. */
  function Top(j: seq<Event>, at: Time, kinds: Kinds): Option<Event> {
    Last(Until(SortedEvents(j), at), kinds)
  }

  function Pick(j: seq<Event>, at: Time, kinds: Kinds, c: Choice): Option<Event> {
    var top := Top(j, at, kinds);
    if top.Some? then Some(Chosen(c, top.value)) else None
  }

  function PickedEnd(j: seq<Event>, at: Time, kinds: Kinds, c: Choice): Option<Time> {
    EndOfEvent(Pick(j, at, kinds, c))
  }

  function EndOfEvent(l: Option<Event>): Option<Time> { if l.Some? then EndOf(l.value) else None }

  /** Nothing recorded at the opening instant is told apart from the opening. */
  function StatusBy(j: seq<Event>, at: Time, c: Choice): Option<Status>
    requires j != []
  {
    StatusFrom(j[0], Pick(j, at, StatusKinds, c))
  }

  function StatusFrom(opening: Event, l: Option<Event>): Option<Status> {
    StatusOf(if l.Some? && opening.at < l.value.at then l.value else opening, None)
  }

  function EndBy(j: seq<Event>, at: Time, c: Choice): Option<Time>
    requires j != []
  {
    EndFrom(StatusBy(j, at, c), PickedEnd(j, at, TerminalKinds, c), PickedEnd(j, at, DeadlineKinds, c),
            PickedEnd(j, at, OpeningKinds, c))
  }

  function EndFrom(status: Option<Status>, terminal: Option<Time>, changed: Option<Time>, opening: Option<Time>): Option<Time> {
    if (status == Some(Done) || status == Some(Canceled)) && terminal.Some? then terminal
    else if changed.Some? then changed else opening
  }

  // ----- the sort is stable -----

  ghost predicate InOrder(s: seq<Event>) {
    forall i, j :: 0 <= i < j < |s| ==> SortsBefore(s[i], s[j])
  }

  lemma {:induction false} InsertInOrder(s: seq<Event>, ev: Event)
    requires InOrder(s)
    ensures InOrder(Insert(s, ev))
    ensures forall x :: x in Insert(s, ev) <==> x in s || x == ev
  {
    if s != [] && !SortsBefore(s[|s| - 1], ev) {
      var front, last := s[..|s| - 1], s[|s| - 1];
      InsertInOrder(front, ev);
      assert s == front + [last];
      var r := Insert(front, ev);
      forall i | 0 <= i < |r| ensures SortsBefore(r[i], last) {
        assert r[i] in r;
        assert r[i] in front ==> SortsBefore(r[i], last);
      }
    }
  }

  lemma {:induction false} SortedInOrder(s: seq<Event>)
    ensures InOrder(SortedEvents(s))
    ensures forall x :: x in SortedEvents(s) <==> x in s
  {
    if s != [] {
      SortedInOrder(s[..|s| - 1]);
      InsertInOrder(SortedEvents(s[..|s| - 1]), s[|s| - 1]);
      assert s == s[..|s| - 1] + [s[|s| - 1]];
    }
  }

  lemma LastAsAppend(s: seq<Event>, ev: Event, t: Time, k: EventKind)
    ensures LastAs(s + [ev], t, k) == if ev.at == t && ev.kind == k then Some(ev) else LastAs(s, t, k)
  {
    assert (s + [ev])[..|s|] == s;
  }

  lemma {:induction false} InsertIsStable(s: seq<Event>, ev: Event, t: Time, k: EventKind)
    ensures LastAs(Insert(s, ev), t, k) == if ev.at == t && ev.kind == k then Some(ev) else LastAs(s, t, k)
  {
    if s == [] || SortsBefore(s[|s| - 1], ev) {
      LastAsAppend(s, ev, t, k);
    } else {
      InsertIsStable(s[..|s| - 1], ev, t, k);
      LastAsAppend(Insert(s[..|s| - 1], ev), s[|s| - 1], t, k);
    }
  }

  lemma {:induction false} SortIsStable(s: seq<Event>, t: Time, k: EventKind)
    ensures LastAs(SortedEvents(s), t, k) == LastAs(s, t, k)
  {
    if s != [] {
      SortIsStable(s[..|s| - 1], t, k);
      InsertIsStable(SortedEvents(s[..|s| - 1]), s[|s| - 1], t, k);
    }
  }

  lemma {:induction false} LastIsLastAs(s: seq<Event>, at: Time, kinds: Kinds)
    requires Last(Until(s, at), kinds).Some?
    ensures var l := Last(Until(s, at), kinds).value; LastAs(s, l.at, l.kind) == Some(l) && kinds.Has(l.kind) && l.at < at
  {
    var front, last := s[..|s| - 1], s[|s| - 1];
    if last.at < at {
      assert (Until(front, at) + [last])[..|Until(front, at)|] == Until(front, at);
      if !kinds.Has(last.kind) {
        LastIsLastAs(front, at, kinds);
      }
    } else {
      assert Until(front, at) + [] == Until(front, at);
      LastIsLastAs(front, at, kinds);
    }
  }

  // ----- a listing reads by its choice -----

  lemma {:induction false} UntilInOrder(s: seq<Event>, at: Time)
    requires InOrder(s)
    ensures InOrder(Until(s, at)) && forall x :: x in Until(s, at) ==> x in s
  {
    if s != [] {
      var front, last := s[..|s| - 1], s[|s| - 1];
      UntilInOrder(front, at);
      assert forall x :: x in front ==> SortsBefore(x, last);
      assert s == front + [last];
    }
  }

  lemma {:induction false} LastOfOrder(s: seq<Event>, kinds: Kinds)
    requires InOrder(s)
    ensures var l := Last(s, kinds);
            && (l.Some? ==> l.value in s)
            && forall x :: x in s && kinds.Has(x.kind) ==> l.Some? && SortsBefore(x, l.value)
  {
    if s != [] {
      var front, last := s[..|s| - 1], s[|s| - 1];
      LastOfOrder(front, kinds);
      assert forall x :: x in front ==> SortsBefore(x, last);
      assert s == front + [last];
    }
  }

  lemma TopIsGreatest(j: seq<Event>, at: Time, kinds: Kinds)
    ensures var top := Top(j, at, kinds);
            && (top.Some? ==> top.value in j && kinds.Has(top.value.kind) && top.value.at < at)
            && (forall x :: x in j && kinds.Has(x.kind) && x.at < at ==> top.Some? && SortsBefore(x, top.value))
  {
    SortedInOrder(j);
    UntilInOrder(SortedEvents(j), at);
    UntilMembers(SortedEvents(j), at);
    LastOfOrder(Until(SortedEvents(j), at), kinds);
    if Top(j, at, kinds).Some? {
      LastIsLastAs(SortedEvents(j), at, kinds);
    }
  }

  /** The last instant and type depend on nothing but the events before the instant. */
  lemma SameTop(j: seq<Event>, k: seq<Event>, at: Time, kinds: Kinds)
    requires forall x: Event :: x.at < at ==> (x in j <==> x in k)
    ensures Top(j, at, kinds).Some? <==> Top(k, at, kinds).Some?
    ensures Top(j, at, kinds).Some? ==> SameKey(Top(j, at, kinds).value, Top(k, at, kinds).value)
  {
    TopIsGreatest(j, at, kinds);
    TopIsGreatest(k, at, kinds);
    if Top(j, at, kinds).Some? {
      assert SortsBefore(Top(j, at, kinds).value, Top(k, at, kinds).value);
    }
    if Top(k, at, kinds).Some? {
      assert SortsBefore(Top(k, at, kinds).value, Top(j, at, kinds).value);
    }
  }

  lemma PickOfListing(j: seq<Event>, events: seq<Event>, at: Time, kinds: Kinds)
    requires SameEvents(events, j)
    ensures Top(events, at, kinds) == Pick(j, at, kinds, Listed(events))
  {
    SameTop(j, events, at, kinds);
    if Top(events, at, kinds).Some? {
      var l := Top(events, at, kinds).value;
      LastIsLastAs(SortedEvents(events), at, kinds);
      SortIsStable(events, l.at, l.kind);
    }
  }

  /** The status read is the chosen one. */
  lemma StatusReadsChoice(j: seq<Event>, events: seq<Event>, at: Time, reliableFrom: Time)
    requires WellFormed(j) && Chronological(j) && SameEvents(events, j)
    requires reliableFrom <= at && j[0].at < at
    ensures StatusAt(at, reliableFrom, events) == StatusBy(j, at, Listed(events))
  {
    var ordered := SortedEvents(events);
    SortedIsSame(j, events);
    ReadsFromOpening(j, ordered, at);
    PickOfListing(j, events, at, StatusKinds);
    UntilMembers(ordered, at);
    UntilKeepsOrder(ordered, at);
    FoldReadsChoice(j, Until(ordered, at), at, Listed(events));
  }

  lemma ReadsFromOpening(j: seq<Event>, ordered: seq<Event>, at: Time)
    requires WellFormed(j) && Chronological(j) && SameEvents(ordered, j) && j[0].at < at
    ensures StatusIn(ordered, at) == FoldStatus(Until(ordered, at), j[0].at, StatusOf(j[0], Some(Scheduled)))
  {
    OnlyOrigin(j);
    FirstOriginExists(ordered, at, j[0]);
  }

  lemma FoldReadsChoice(j: seq<Event>, seen: seq<Event>, at: Time, c: Choice)
    requires WellFormed(j) && Chronological(j) && Chronological(seen) && forall x :: x in seen ==> x in j
    requires Last(seen, StatusKinds) == Pick(j, at, StatusKinds, c)
    ensures FoldStatus(seen, j[0].at, StatusOf(j[0], Some(Scheduled))) == StatusBy(j, at, c)
  {
    AllReadable(j, seen);
    FoldStatusIsLast(seen, j[0].at, StatusOf(j[0], None));
    OpeningTells(j);
  }

  lemma OpeningTells(j: seq<Event>)
    requires WellFormed(j)
    ensures StatusOf(j[0], Some(Scheduled)) == StatusOf(j[0], None)
  {
    assert j[0] in j && StatusKinds.Has(j[0].kind);
  }

  lemma AllReadable(j: seq<Event>, seen: seq<Event>)
    requires WellFormed(j) && Chronological(j) && forall x :: x in seen ==> x in j
    ensures forall i :: 0 <= i < |seen| ==> Readable(seen[i], j[0].at)
  {
    OnlyOrigin(j);
    forall i | 0 <= i < |seen| ensures Readable(seen[i], j[0].at) {
      assert seen[i] in j;
    }
  }

  /** So is the deadline read. */
  lemma EndReadsChoice(j: seq<Event>, events: seq<Event>, at: Time, reliableFrom: Time)
    requires WellFormed(j) && Chronological(j) && SameEvents(events, j)
    requires reliableFrom <= at && j[0].at < at
    ensures EndAtAt(at, reliableFrom, events) == EndBy(j, at, Listed(events))
  {
    StatusReadsChoice(j, events, at, reliableFrom);
    SortedIsSame(j, events);
    WellFormedTells(j, SortedEvents(events), at);
    PickOfListing(j, events, at, TerminalKinds);
    PickOfListing(j, events, at, DeadlineKinds);
    PickOfListing(j, events, at, OpeningKinds);
    EndFromLasts(j, Until(SortedEvents(events), at), at, Listed(events));
  }

  lemma EndFromLasts(j: seq<Event>, seen: seq<Event>, at: Time, c: Choice)
    requires j != []
    requires Last(seen, TerminalKinds) == Pick(j, at, TerminalKinds, c)
    requires Last(seen, DeadlineKinds) == Pick(j, at, DeadlineKinds, c)
    requires Last(seen, OpeningKinds) == Pick(j, at, OpeningKinds, c)
    ensures EndIn(seen, StatusBy(j, at, c)) == EndBy(j, at, c)
  {
  }

  // ----- every choice is made by some listing -----

  lemma {:induction false} LastAsExists(s: seq<Event>, t: Time, k: EventKind)
    ensures LastAs(s, t, k).Some? ==> LastAs(s, t, k).value in s && SameKey(LastAs(s, t, k).value, Event(k, t, map[]))
    ensures (exists x :: x in s && x.at == t && x.kind == k) ==> LastAs(s, t, k).Some?
  {
    if s != [] {
      LastAsExists(s[..|s| - 1], t, k);
      assert s == s[..|s| - 1] + [s[|s| - 1]];
    }
  }

  lemma ListingChooses(j: seq<Event>, events: seq<Event>)
    requires SameEvents(events, j)
    ensures Chooses(Listed(events), j)
  {
    forall x | x in j ensures Chosen(Listed(events), x) in j && SameKey(Chosen(Listed(events), x), x) {
      LastAsExists(events, x.at, x.kind);
    }
  }

  /** The same rows, in any order. */
  ghost predicate Relists(events: seq<Event>, j: seq<Event>) {
    multiset(events) == multiset(j)
  }

  lemma RelistsSame(events: seq<Event>, j: seq<Event>)
    requires Relists(events, j)
    ensures SameEvents(events, j)
  {
    forall x ensures x in events <==> x in j {
      assert x in multiset(events) <==> x in multiset(j);
    }
  }

  /** Whether an event is the one chosen of its instant and type. */
  function IsChosen(c: Choice): Event -> bool { (x: Event) => Chosen(c, x) == x }

  function IsOther(c: Choice): Event -> bool { (x: Event) => Chosen(c, x) != x }

  lemma SplitKeepsRows(j: seq<Event>, c: Choice)
    ensures multiset(Those(j, IsOther(c))) + multiset(Those(j, IsChosen(c))) == multiset(j)
  {
    forall x ensures multiset(Those(j, IsOther(c)))[x] + multiset(Those(j, IsChosen(c)))[x] == multiset(j)[x] {
      ThoseCount(j, IsOther(c), x);
      ThoseCount(j, IsChosen(c), x);
    }
    CountsJoin(multiset(Those(j, IsOther(c))), multiset(Those(j, IsChosen(c))), multiset(j));
  }

  lemma CountsJoin(a: multiset<Event>, b: multiset<Event>, all: multiset<Event>)
    requires forall x :: a[x] + b[x] == all[x]
    ensures a + b == all
  {
  }

  lemma {:induction false} LastAsOfHeads(s: seq<Event>, heads: seq<Event>, c: Choice, x: Event)
    requires forall h :: h in heads ==> Chosen(c, h) == h
    requires Chosen(c, x) in heads && SameKey(Chosen(c, x), x)
    ensures LastAs(s + heads, x.at, x.kind) == Some(Chosen(c, x))
  {
    var front, last := heads[..|heads| - 1], heads[|heads| - 1];
    assert s + heads == (s + front) + [last];
    LastAsAppend(s + front, last, x.at, x.kind);
    assert last in heads;
    if !SameKey(last, x) {
      assert heads == front + [last];
      LastAsOfHeads(s, front, c, x);
    }
  }

  lemma ChoiceIsListed(j: seq<Event>, c: Choice) returns (events: seq<Event>)
    requires Chooses(c, j)
    ensures Relists(events, j)
    ensures forall x :: x in j ==> Chosen(Listed(events), x) == Chosen(c, x)
  {
    var others, heads := Those(j, IsOther(c)), Those(j, IsChosen(c));
    events := others + heads;
    SplitKeepsRows(j, c);
    ThoseMembers(j, IsChosen(c));
    forall x | x in j ensures Chosen(Listed(events), x) == Chosen(c, x) {
      assert Chosen(c, x) in j && SameKey(Chosen(c, x), x);
      LastAsOfHeads(others, heads, c, x);
    }
  }

  lemma SameChoicesSameReadings(j: seq<Event>, at: Time, c: Choice, d: Choice)
    requires j != [] && forall x :: x in j ==> Chosen(c, x) == Chosen(d, x)
    ensures StatusBy(j, at, c) == StatusBy(j, at, d) && EndBy(j, at, c) == EndBy(j, at, d)
  {
    TopIsGreatest(j, at, StatusKinds);
    TopIsGreatest(j, at, TerminalKinds);
    TopIsGreatest(j, at, DeadlineKinds);
    TopIsGreatest(j, at, OpeningKinds);
  }

  // ----- exactly when the readings do not depend on the ties -----

  ghost predicate AlwaysReadsStatus(j: seq<Event>, at: Time, reliableFrom: Time, status: Option<Status>) {
    forall events :: Relists(events, j) ==> StatusAt(at, reliableFrom, events) == status
  }

  ghost predicate AlwaysReadsEnd(j: seq<Event>, at: Time, reliableFrom: Time, endAt: Option<Time>) {
    forall events :: Relists(events, j) ==> EndAtAt(at, reliableFrom, events) == endAt
  }

  ghost predicate EveryChoiceTellsStatus(j: seq<Event>, at: Time, status: Option<Status>)
    requires j != []
  {
    forall c: Choice :: Chooses(c, j) ==> StatusBy(j, at, c) == status
  }

  ghost predicate EveryChoiceTellsEnd(j: seq<Event>, at: Time, endAt: Option<Time>)
    requires j != []
  {
    forall c: Choice :: Chooses(c, j) ==> EndBy(j, at, c) == endAt
  }

  /** However the rows are fetched the status read is the same, exactly when every choice among tied events tells it. */
  lemma StatusReadsExactly(j: seq<Event>, at: Time, reliableFrom: Time, status: Option<Status>)
    requires WellFormed(j) && Chronological(j) && reliableFrom <= at && j[0].at < at
    ensures AlwaysReadsStatus(j, at, reliableFrom, status) <==> EveryChoiceTellsStatus(j, at, status)
  {
    forall events | Relists(events, j)
      ensures StatusAt(at, reliableFrom, events) == StatusBy(j, at, Listed(events)) && Chooses(Listed(events), j) {
      RelistsSame(events, j);
      StatusReadsChoice(j, events, at, reliableFrom);
      ListingChooses(j, events);
    }
    forall c: Choice | Chooses(c, j)
      ensures exists events :: Relists(events, j) && StatusAt(at, reliableFrom, events) == StatusBy(j, at, c) {
      var events := ChoiceIsListed(j, c);
      RelistsSame(events, j);
      SameChoicesSameReadings(j, at, Listed(events), c);
    }
  }

  /** The same for the deadline. */
  lemma EndReadsExactly(j: seq<Event>, at: Time, reliableFrom: Time, endAt: Option<Time>)
    requires WellFormed(j) && Chronological(j) && reliableFrom <= at && j[0].at < at
    ensures AlwaysReadsEnd(j, at, reliableFrom, endAt) <==> EveryChoiceTellsEnd(j, at, endAt)
  {
    forall events | Relists(events, j)
      ensures EndAtAt(at, reliableFrom, events) == EndBy(j, at, Listed(events)) && Chooses(Listed(events), j) {
      RelistsSame(events, j);
      EndReadsChoice(j, events, at, reliableFrom);
      ListingChooses(j, events);
    }
    forall c: Choice | Chooses(c, j)
      ensures exists events :: Relists(events, j) && EndAtAt(at, reliableFrom, events) == EndBy(j, at, c) {
      var events := ChoiceIsListed(j, c);
      RelistsSame(events, j);
      SameChoicesSameReadings(j, at, Listed(events), c);
    }
  }

  /** A status event of the greatest instant and type before the one asked about. */
  ghost predicate Greatest(j: seq<Event>, at: Time, h: Event) {
    && h in j && StatusKinds.Has(h.kind) && h.at < at
    && forall x :: x in j && StatusKinds.Has(x.kind) && x.at < at ==> SortsBefore(x, h)
  }

  ghost predicate MovedSince(j: seq<Event>, at: Time)
    requires j != []
  {
    exists x :: x in j && StatusKinds.Has(x.kind) && j[0].at < x.at < at
  }

  /** What a caller can see in the journal: all the greatest events tell the status, or the opening does if nothing follows it. */
  ghost predicate GreatestTell(j: seq<Event>, at: Time, status: Option<Status>)
    requires j != []
  {
    if MovedSince(j, at) then forall h :: Greatest(j, at, h) ==> StatusOf(h, None) == status
    else StatusOf(j[0], None) == status
  }

  lemma ChosenIsGreatest(j: seq<Event>, at: Time, c: Choice, top: Event)
    requires Chooses(c, j) && Greatest(j, at, top)
    ensures Greatest(j, at, Chosen(c, top)) && SameKey(Chosen(c, top), top)
  {
    var h := Chosen(c, top);
    assert h in j && SameKey(h, top);
    forall x | x in j && StatusKinds.Has(x.kind) && x.at < at ensures SortsBefore(x, h) {
      assert SortsBefore(x, top);
    }
  }

  lemma MovedChoice(j: seq<Event>, at: Time, c: Choice) returns (h: Event)
    requires j != [] && Chooses(c, j) && MovedSince(j, at)
    ensures Greatest(j, at, h) && StatusBy(j, at, c) == StatusOf(h, None)
  {
    var x :| x in j && StatusKinds.Has(x.kind) && j[0].at < x.at < at;
    TopStatusIsGreatest(j, at, x);
    var top := Top(j, at, StatusKinds).value;
    assert SortsBefore(x, top);
    ChosenIsGreatest(j, at, c, top);
    h := Chosen(c, top);
  }

  lemma UnmovedChoice(j: seq<Event>, at: Time, c: Choice)
    requires j != [] && Chooses(c, j) && !MovedSince(j, at)
    ensures StatusBy(j, at, c) == StatusOf(j[0], None)
  {
    TopIsGreatest(j, at, StatusKinds);
    var top := Top(j, at, StatusKinds);
    if top.Some? {
      assert SameKey(Chosen(c, top.value), top.value);
    }
  }

  /** The choice of a listing, but for one event that is preferred to those it is tied with. */
  function Preferring(j: seq<Event>, h: Event): Choice {
    (t, k) => if t == h.at && k == h.kind then h else Listed(j)(t, k)
  }

  lemma PreferringChooses(j: seq<Event>, h: Event)
    requires h in j
    ensures Chooses(Preferring(j, h), j)
  {
    ListingChooses(j, j);
    forall x | x in j ensures Chosen(Preferring(j, h), x) in j && SameKey(Chosen(Preferring(j, h), x), x) {
      assert Chosen(Listed(j), x) in j && SameKey(Chosen(Listed(j), x), x);
    }
  }

  lemma TopHasKeyOf(j: seq<Event>, at: Time, h: Event)
    requires Greatest(j, at, h)
    ensures Top(j, at, StatusKinds).Some? && SameKey(Top(j, at, StatusKinds).value, h)
  {
    TopStatusIsGreatest(j, at, h);
    SameKeys(j, at, Top(j, at, StatusKinds).value, h);
  }

  lemma TopStatusIsGreatest(j: seq<Event>, at: Time, x: Event)
    requires x in j && StatusKinds.Has(x.kind) && x.at < at
    ensures Top(j, at, StatusKinds).Some? && Greatest(j, at, Top(j, at, StatusKinds).value)
  {
    TopIsGreatest(j, at, StatusKinds);
  }

  lemma SameKeys(j: seq<Event>, at: Time, g: Event, h: Event)
    requires Greatest(j, at, g) && Greatest(j, at, h)
    ensures SameKey(g, h)
  {
    assert SortsBefore(g, h) && SortsBefore(h, g);
  }

  lemma GreatestAreChosen(j: seq<Event>, at: Time, h: Event)
    requires j != [] && MovedSince(j, at) && Greatest(j, at, h)
    ensures Chooses(Preferring(j, h), j) && StatusBy(j, at, Preferring(j, h)) == StatusOf(h, None)
  {
    PreferringChooses(j, h);
    PreferredIsPicked(j, at, h);
    GreatestIsAfter(j, at, h);
  }

  lemma PreferredIsPicked(j: seq<Event>, at: Time, h: Event)
    requires Greatest(j, at, h)
    ensures Pick(j, at, StatusKinds, Preferring(j, h)) == Some(h)
  {
    TopHasKeyOf(j, at, h);
  }

  lemma GreatestIsAfter(j: seq<Event>, at: Time, h: Event)
    requires j != [] && MovedSince(j, at) && Greatest(j, at, h)
    ensures j[0].at < h.at
  {
    var x :| x in j && StatusKinds.Has(x.kind) && j[0].at < x.at < at;
    assert SortsBefore(x, h);
  }

  /** The condition on the status, on events alone. */
  lemma StatusReadsByGreatest(j: seq<Event>, at: Time, status: Option<Status>)
    requires j != []
    ensures EveryChoiceTellsStatus(j, at, status) <==> GreatestTell(j, at, status)
  {
    if MovedSince(j, at) {
      forall c: Choice | Chooses(c, j) ensures exists h :: Greatest(j, at, h) && StatusBy(j, at, c) == StatusOf(h, None) {
        var h := MovedChoice(j, at, c);
      }
      forall h | Greatest(j, at, h) ensures exists c: Choice :: Chooses(c, j) && StatusBy(j, at, c) == StatusOf(h, None) {
        GreatestAreChosen(j, at, h);
      }
    } else {
      forall c: Choice | Chooses(c, j) ensures StatusBy(j, at, c) == StatusOf(j[0], None) {
        UnmovedChoice(j, at, c);
      }
      ListingChooses(j, j);
    }
  }

  // ----- what is recorded later does not matter -----

  lemma {:induction false} UntilKeepsFirst(s: seq<Event>, at: Time)
    requires s != [] && s[0].at < at
    ensures Until(s, at) != [] && Until(s, at)[0] == s[0]
  {
    if |s| > 1 {
      UntilKeepsFirst(s[..|s| - 1], at);
    }
  }

  lemma PastPick(j: seq<Event>, at: Time, kinds: Kinds, c: Choice)
    ensures Pick(Until(j, at), at, kinds, c) == Pick(j, at, kinds, c)
  {
    UntilMembers(j, at);
    SameTop(j, Until(j, at), at, kinds);
  }

  lemma PastReads(j: seq<Event>, at: Time, c: Choice)
    requires j != [] && j[0].at < at
    ensures Until(j, at) != []
    ensures StatusBy(Until(j, at), at, c) == StatusBy(j, at, c) && EndBy(Until(j, at), at, c) == EndBy(j, at, c)
  {
    UntilKeepsFirst(j, at);
    PastPick(j, at, StatusKinds, c);
    PastPick(j, at, TerminalKinds, c);
    PastPick(j, at, DeadlineKinds, c);
    PastPick(j, at, OpeningKinds, c);
    SamePicksSameReadings(Until(j, at), j, at, c);
  }

  lemma SamePicksSameReadings(j: seq<Event>, k: seq<Event>, at: Time, c: Choice)
    requires j != [] && k != [] && j[0] == k[0]
    requires Pick(j, at, StatusKinds, c) == Pick(k, at, StatusKinds, c)
    requires Pick(j, at, TerminalKinds, c) == Pick(k, at, TerminalKinds, c)
    requires Pick(j, at, DeadlineKinds, c) == Pick(k, at, DeadlineKinds, c)
    requires Pick(j, at, OpeningKinds, c) == Pick(k, at, OpeningKinds, c)
    ensures StatusBy(j, at, c) == StatusBy(k, at, c) && EndBy(j, at, c) == EndBy(k, at, c)
  {
  }

  /** A choice among the past events, completed with one among the later ones. */
  function Completed(c: Choice, j: seq<Event>, at: Time): Choice {
    (t, k) => if t < at then c(t, k) else Listed(j)(t, k)
  }

  lemma CompletedChooses(c: Choice, j: seq<Event>, at: Time)
    requires Chooses(c, Until(j, at))
    ensures Chooses(Completed(c, j, at), j)
    ensures forall x :: x in Until(j, at) ==> Chosen(Completed(c, j, at), x) == Chosen(c, x)
  {
    UntilMembers(j, at);
    ListingChooses(j, j);
    var d := Completed(c, j, at);
    forall x | x in j ensures Chosen(d, x) in j && SameKey(Chosen(d, x), x) {
      if x.at < at {
        assert Chosen(d, x) == Chosen(c, x);
      } else {
        assert Chosen(d, x) == Chosen(Listed(j), x);
      }
    }
  }

  lemma RestrictedChooses(c: Choice, j: seq<Event>, at: Time)
    requires Chooses(c, j)
    ensures Chooses(c, Until(j, at))
  {
    UntilMembers(j, at);
  }

  /** Only choices among the events before the instant count. */
  lemma PastDecides(j: seq<Event>, at: Time, status: Option<Status>, endAt: Option<Time>)
    requires j != [] && j[0].at < at
    ensures Until(j, at) != []
    ensures EveryChoiceTellsStatus(Until(j, at), at, status) <==> EveryChoiceTellsStatus(j, at, status)
    ensures EveryChoiceTellsEnd(Until(j, at), at, endAt) <==> EveryChoiceTellsEnd(j, at, endAt)
  {
    UntilKeepsFirst(j, at);
    var past := Until(j, at);
    forall c: Choice | Chooses(c, j)
      ensures Chooses(c, past) && StatusBy(past, at, c) == StatusBy(j, at, c) && EndBy(past, at, c) == EndBy(j, at, c) {
      RestrictedChooses(c, j, at);
      PastReads(j, at, c);
    }
    forall c: Choice | Chooses(c, past)
      ensures exists d: Choice :: Chooses(d, j) && StatusBy(past, at, c) == StatusBy(j, at, d) && EndBy(past, at, c) == EndBy(j, at, d) {
      var d := Completed(c, j, at);
      CompletedChooses(c, j, at);
      PastReads(j, at, d);
      SameChoicesSameReadings(past, at, c, d);
    }
  }
}
