/** What the readers make of a part of a journal. */
module JournalParts {
  import opened Core
  import opened Journal
  import opened JournalTies

  lemma ThoseRelist(s: seq<Event>, t: seq<Event>, keep: Event -> bool)
    requires Relists(s, t)
    ensures Relists(Those(s, keep), Those(t, keep))
  {
    forall x ensures multiset(Those(s, keep))[x] == multiset(Those(t, keep))[x] {
      ThoseCount(s, keep, x);
      ThoseCount(t, keep, x);
    }
  }

  // ----- sorting and cutting keep the part apart -----

  lemma SortsTransitively(a: Event, b: Event, c: Event)
    requires SortsBefore(a, b) && SortsBefore(b, c)
    ensures SortsBefore(a, c)
  {
  }

  lemma {:induction false} InsertThose(s: seq<Event>, ev: Event, keep: Event -> bool)
    requires InOrder(s)
    ensures Those(Insert(s, ev), keep) == if keep(ev) then Insert(Those(s, keep), ev) else Those(s, keep)
  {
    if s == [] || SortsBefore(s[|s| - 1], ev) {
      assert (s + [ev])[..|s|] == s && Those(s, keep) + [] == Those(s, keep);
      if keep(ev) && Those(s, keep) != [] {
        LastOfPartSorts(s, ev, keep);
      }
    } else {
      var front, last := s[..|s| - 1], s[|s| - 1];
      InsertThose(front, ev, keep);
      var r := Insert(front, ev);
      assert (r + [last])[..|r|] == r;
      var part := Those(front, keep);
      assert (part + [last])[..|part|] == part;
      assert part + [] == part && Those(r, keep) + [] == Those(r, keep);
    }
  }

  lemma LastOfPartSorts(s: seq<Event>, ev: Event, keep: Event -> bool)
    requires InOrder(s) && s != [] && SortsBefore(s[|s| - 1], ev) && Those(s, keep) != []
    ensures var part := Those(s, keep); SortsBefore(part[|part| - 1], ev)
  {
    ThoseMembers(s, keep);
    var part := Those(s, keep);
    var x := part[|part| - 1];
    assert x in part;
    var i :| 0 <= i < |s| && s[i] == x;
    assert SortsBefore(x, s[|s| - 1]);
    SortsTransitively(x, s[|s| - 1], ev);
  }

  lemma {:induction false} SortThose(s: seq<Event>, keep: Event -> bool)
    ensures SortedEvents(Those(s, keep)) == Those(SortedEvents(s), keep)
  {
    if s != [] {
      var front, last := s[..|s| - 1], s[|s| - 1];
      SortThose(front, keep);
      SortedInOrder(front);
      InsertThose(SortedEvents(front), last, keep);
      var part := Those(front, keep);
      assert (part + [last])[..|part|] == part;
      assert part + [] == part;
    }
  }

  lemma {:induction false} UntilThose(s: seq<Event>, keep: Event -> bool, at: Time)
    ensures Until(Those(s, keep), at) == Those(Until(s, at), keep)
  {
    if s != [] {
      var front, last := s[..|s| - 1], s[|s| - 1];
      UntilThose(front, keep, at);
      var part, past := Those(front, keep), Until(front, at);
      assert (part + [last])[..|part|] == part && (past + [last])[..|past|] == past;
      assert part + [] == part && past + [] == past;
    }
  }

  lemma {:induction false} TellingThose(s: seq<Event>, keep: Event -> bool)
    ensures Telling(Those(s, keep)) == Those(Telling(s), keep)
  {
    if s != [] {
      var front, last := s[..|s| - 1], s[|s| - 1];
      TellingThose(front, keep);
      var part, told := Those(front, keep), Telling(front);
      assert (part + [last])[..|part|] == part && (told + [last])[..|told|] == told;
      assert part + [] == part && told + [] == told;
    }
  }

  lemma {:induction false} TellingMembers(s: seq<Event>)
    ensures forall x :: x in Telling(s) <==> x in s && RecordsDeadline(x)
  {
    if s != [] {
      TellingMembers(s[..|s| - 1]);
      assert s == s[..|s| - 1] + [s[|s| - 1]];
    }
  }

  lemma {:induction false} TellingKeepsOrder(s: seq<Event>)
    requires Chronological(s)
    ensures Chronological(Telling(s))
  {
    if s != [] {
      var front, last := s[..|s| - 1], s[|s| - 1];
      TellingKeepsOrder(front);
      TellingMembers(front);
      forall i | 0 <= i < |Telling(front)| ensures Telling(front)[i].at <= last.at {
        assert Telling(front)[i] in front;
      }
    }
  }

  /** A part that holds the last event of some kinds, if there is one, ends the same way. */
  lemma {:induction false} LastThose(s: seq<Event>, keep: Event -> bool, kinds: Kinds)
    requires Last(s, kinds).Some? ==> keep(Last(s, kinds).value)
    ensures Last(Those(s, keep), kinds) == Last(s, kinds)
  {
    if s != [] {
      var front, last := s[..|s| - 1], s[|s| - 1];
      var part := Those(front, keep);
      assert (part + [last])[..|part|] == part;
      assert part + [] == part;
      if !kinds.Has(last.kind) {
        LastThose(front, keep, kinds);
      }
    }
  }

  // ----- the opening event -----

  /** An opening event that sorts before every other one. */
  ghost predicate Opens(s: seq<Event>, origin: Event) {
    && origin in s && OriginKinds.Has(origin.kind)
    && forall x :: x in s && OriginKinds.Has(x.kind) && x != origin ==> !SortsBefore(x, origin)
  }

  lemma {:induction false} FirstOriginIs(s: seq<Event>, at: Time, origin: Event)
    requires InOrder(s) && Opens(s, origin) && origin.at <= at
    ensures FirstOrigin(s, at) == Some(origin)
  {
    assert s[0] in s && s == [s[0]] + s[1..];
    if s[0] != origin {
      assert SortsBefore(s[0], origin);
      forall x | x in s[1..] ensures x in s {}
      FirstOriginIs(s[1..], at, origin);
    }
  }

  lemma StatusFromOpening(events: seq<Event>, at: Time, reliableFrom: Time, origin: Event)
    requires reliableFrom <= at && Opens(events, origin) && origin.at <= at && (origin.kind == Created ==> origin.at < at)
    ensures StatusAt(at, reliableFrom, events)
            == FoldStatus(Until(SortedEvents(events), at), origin.at, StatusOf(origin, Some(Scheduled)))
  {
    SortedInOrder(events);
    FirstOriginIs(SortedEvents(events), at, origin);
  }

  lemma {:induction false} FoldThose(s: seq<Event>, keep: Event -> bool, after: Time, start: Option<Status>)
    requires forall x :: x in s && !keep(x) && StatusKinds.Has(x.kind) ==> x.at <= after || OriginKinds.Has(x.kind)
    ensures FoldStatus(Those(s, keep), after, start) == FoldStatus(s, after, start)
  {
    if s != [] {
      var front, last := s[..|s| - 1], s[|s| - 1];
      forall x | x in front ensures x in s {}
      FoldThose(front, keep, after, start);
      assert last in s;
      var part := Those(front, keep);
      assert (part + [last])[..|part|] == part;
      assert part + [] == part;
    }
  }

  predicate IsMove(x: Event) { StatusKinds.Has(x.kind) && !OriginKinds.Has(x.kind) }

  /** The last change of status after an instant. */
  function LastMove(s: seq<Event>, after: Time): Option<Event> {
    if s == [] then None
    else if IsMove(s[|s| - 1]) && s[|s| - 1].at > after then Some(s[|s| - 1])
    else LastMove(s[..|s| - 1], after)
  }

  lemma {:induction false} LastMoveIsLatest(s: seq<Event>, after: Time)
    requires Chronological(s)
    ensures LastMove(s, after).None? <==> forall x :: x in s && IsMove(x) ==> x.at <= after
    ensures LastMove(s, after).Some? ==>
              var m := LastMove(s, after).value;
              m in s && IsMove(m) && m.at > after && forall x :: x in s && IsMove(x) ==> x.at <= m.at
  {
    if s != [] {
      var front, last := s[..|s| - 1], s[|s| - 1];
      LastMoveIsLatest(front, after);
      assert s == front + [last];
      EndsLatest(s);
    }
  }

  lemma EndsLatest(s: seq<Event>)
    requires Chronological(s) && s != []
    ensures forall x :: x in s ==> x.at <= s[|s| - 1].at
  {
    forall x | x in s ensures x.at <= s[|s| - 1].at {
      var i :| 0 <= i < |s| && s[i] == x;
    }
  }

  lemma KnownStatus(ev: Event, fallback: Option<Status>)
    requires StatusOf(ev, None).Some?
    ensures StatusOf(ev, fallback) == StatusOf(ev, None)
  {
  }

  /** The status read is what that change says. */
  lemma {:induction false} FoldIsLastMove(s: seq<Event>, after: Time, start: Option<Status>)
    requires forall x :: x in s && IsMove(x) ==> StatusOf(x, None).Some?
    ensures FoldStatus(s, after, start) == if LastMove(s, after).None? then start else StatusOf(LastMove(s, after).value, None)
  {
    if s != [] {
      var front, last := s[..|s| - 1], s[|s| - 1];
      forall x | x in front ensures x in s {}
      FoldIsLastMove(front, after, start);
      if IsMove(last) && last.at > after {
        assert last in s;
        KnownStatus(last, FoldStatus(front, after, start));
      }
    }
  }

  /** What the status reader skips may be left out of the listing. */
  lemma StatusOfPart(events: seq<Event>, keep: Event -> bool, at: Time, reliableFrom: Time, origin: Event)
    requires reliableFrom <= at && Opens(events, origin) && origin.at <= at && (origin.kind == Created ==> origin.at < at)
    requires keep(origin)
    requires forall x :: x in events && !keep(x) && StatusKinds.Has(x.kind) ==> x.at <= origin.at || OriginKinds.Has(x.kind)
    ensures StatusAt(at, reliableFrom, Those(events, keep)) == StatusAt(at, reliableFrom, events)
  {
    var ordered := SortedEvents(events);
    ThoseMembers(events, keep);
    StatusFromOpening(events, at, reliableFrom, origin);
    StatusFromOpening(Those(events, keep), at, reliableFrom, origin);
    SortThose(events, keep);
    UntilThose(ordered, keep, at);
    SortedInOrder(events);
    UntilMembers(ordered, at);
    FoldThose(Until(ordered, at), keep, origin.at, StatusOf(origin, Some(Scheduled)));
  }

  /** The events before an instant that tell a deadline, as the deadline reader goes through them. */
  function Seen(events: seq<Event>, at: Time): seq<Event> { Telling(Until(SortedEvents(events), at)) }

  lemma SeenEvents(events: seq<Event>, at: Time)
    ensures Chronological(Seen(events, at))
    ensures forall x :: x in Seen(events, at) <==> x in events && x.at < at && RecordsDeadline(x)
  {
    var ordered := SortedEvents(events);
    SortedEventsOrder(events);
    UntilMembers(ordered, at);
    UntilKeepsOrder(ordered, at);
    TellingMembers(Until(ordered, at));
    TellingKeepsOrder(Until(ordered, at));
  }

  lemma SeenOfPart(events: seq<Event>, keep: Event -> bool, at: Time)
    ensures Seen(Those(events, keep), at) == Those(Seen(events, at), keep)
  {
    SortThose(events, keep);
    UntilThose(SortedEvents(events), keep, at);
    TellingThose(Until(SortedEvents(events), at), keep);
  }
}
