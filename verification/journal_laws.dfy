/** What the journal stores and its readers look at, event by event. */
module JournalLaws {
  import opened Core
  import opened Journal

  // ----- events -----

  /** The status an event tells: its target, else its initial status, else what its type means. */
  predicate Shows(ev: Event, s: Status) {
    if ToStatus in ev.meta && ev.meta[ToStatus].StatusText? then ev.meta[ToStatus].status == s
    else if InitialStatus in ev.meta && ev.meta[InitialStatus].StatusText? then ev.meta[InitialStatus].status == s
    else
      || (s == InProgress && (ev.kind.Started? || ev.kind.Reopened?))
      || (s == Done && (ev.kind.Validated? || ev.kind.MarkedDone?))
      || (s == Canceled && ev.kind.CanceledEvent?)
  }

  /** An event that tells no status passes the fallback on. */
  lemma StatusOfExactly(ev: Event, fallback: Option<Status>, s: Status)
    ensures Shows(ev, s) ==> StatusOf(ev, fallback) == Some(s)
    ensures (forall t :: !Shows(ev, t)) ==> StatusOf(ev, fallback) == fallback
  {
    if forall t :: !Shows(ev, t) {
      assert !Shows(ev, InProgress) && !Shows(ev, Done) && !Shows(ev, Canceled);
      if ToStatus in ev.meta && ev.meta[ToStatus].StatusText? {
        assert Shows(ev, ev.meta[ToStatus].status);
      } else if InitialStatus in ev.meta && ev.meta[InitialStatus].StatusText? {
        assert Shows(ev, ev.meta[InitialStatus].status);
      }
    }
  }

  /** A changed deadline is told by its target, every other event by the deadline it stores. */
  lemma EndOfExactly(ev: Event, t: Time)
    ensures EndOf(ev) == Some(t) <==>
            if ev.kind == DeadlineChanged then ToEndAt in ev.meta && ev.meta[ToEndAt] == Moment(t)
            else EndAt in ev.meta && ev.meta[EndAt] == Moment(t)
  {
  }

  /** What each reader selects by. */
  lemma KindsExactly(k: EventKind, kind: EventKind)
    ensures StatusKinds.Has(k) <==> k != DeadlineChanged
    ensures OriginKinds.Has(k) <==> k == Created || k == HistoryBaseline
    ensures OpeningKinds.Has(k) <==> k == Created || k == HistoryBaseline || k == Started
    ensures DeadlineKinds.Has(k) <==> k == DeadlineChanged
    ensures TerminalKinds.Has(k) <==> k == MarkedDone || k == Validated || k == CanceledEvent
    ensures Only(kind).Has(k) <==> k == kind
    ensures !(OpeningKinds.Has(k) && TerminalKinds.Has(k))
  {
  }

  /** Stored of a metadata dictionary: the allowlisted keys with their plain values, null only where a time may be missing. */
  lemma SanitizedExactly(meta: Meta, k: MetaKey)
    ensures k in Sanitized(meta) <==>
            && k in meta && !k.OtherKey? && !meta[k].Nested?
            && (meta[k].Null? ==> k == EndAt || k == StartAt || k == FromEndAt || k == ToEndAt)
    ensures k in Sanitized(meta) ==> Sanitized(meta)[k] == meta[k]
  {
  }

  /** A moved deadline is recorded with both its ends, one that stays is not. */
  lemma DeadlineEventsExactly(fromEnd: Option<Time>, toEnd: Option<Time>, at: Time)
    ensures fromEnd == toEnd ==> DeadlineEvents(fromEnd, toEnd, at) == []
    ensures fromEnd != toEnd ==>
              var events := DeadlineEvents(fromEnd, toEnd, at);
              && |events| == 1 && events[0].kind == DeadlineChanged && events[0].at == at
              && EndOf(events[0]) == toEnd && TimeOf(events[0].meta, FromEndAt) == fromEnd
  {
  }

  /** An opening or terminal event without the deadline key has no say in the deadline. */
  lemma TellingExactly(ev: Event)
    ensures !RecordsDeadline(ev) <==>
            && EndAt !in ev.meta
            && (ev.kind == Created || ev.kind == HistoryBaseline || ev.kind == Started
                || ev.kind == MarkedDone || ev.kind == Validated || ev.kind == CanceledEvent)
  {
  }

  // ----- the status reader -----

  /** The first opening event not after the instant. */
  ghost predicate OpensAt(ordered: seq<Event>, i: nat, at: Time) {
    && i < |ordered| && IsOrigin(ordered[i]) && ordered[i].at <= at
    && forall k :: 0 <= k < i ==> !(IsOrigin(ordered[k]) && ordered[k].at <= at)
  }

  predicate IsOrigin(ev: Event) { ev.kind == Created || ev.kind == HistoryBaseline }

  /** A move between the opening and the instant that tells a status. */
  ghost predicate MovesIn(ev: Event, after: Time, at: Time) {
    ev.kind != DeadlineChanged && !IsOrigin(ev) && after < ev.at < at && exists s :: Shows(ev, s)
  }

  ghost predicate LastMoveAt(ordered: seq<Event>, j: nat, after: Time, at: Time) {
    j < |ordered| && MovesIn(ordered[j], after, at) && forall k :: j < k < |ordered| ==> !MovesIn(ordered[k], after, at)
  }

  lemma MoveShows(ev: Event, prior: Option<Status>)
    ensures (exists s :: Shows(ev, s)) ==> StatusOf(ev, prior).Some? && Shows(ev, StatusOf(ev, prior).value)
    ensures !(exists s :: Shows(ev, s)) ==> StatusOf(ev, prior) == prior
  {
    if s :| Shows(ev, s) {
      StatusOfExactly(ev, prior, s);
    } else {
      StatusOfExactly(ev, prior, Done);
    }
  }

  lemma UntilLast(front: seq<Event>, ev: Event, at: Time)
    ensures Until(front + [ev], at) == Until(front, at) + if ev.at < at then [ev] else []
  {
    var next := front + [ev];
    assert next[..|next| - 1] == front;
  }

  lemma FoldLast(seen: seq<Event>, ev: Event, after: Time, start: Option<Status>)
    ensures var prior := FoldStatus(seen, after, start);
            FoldStatus(seen + [ev], after, start) ==
            if ev.kind != DeadlineChanged && !IsOrigin(ev) && after < ev.at then StatusOf(ev, prior) else prior
  {
    var next := seen + [ev];
    assert next[..|next| - 1] == seen;
  }

  lemma UntilNext(front: seq<Event>, ev: Event, after: Time, at: Time, start: Option<Status>)
    ensures var prior := FoldStatus(Until(front, at), after, start);
            FoldStatus(Until(front + [ev], at), after, start) ==
            if ev.kind != DeadlineChanged && !IsOrigin(ev) && after < ev.at < at then StatusOf(ev, prior) else prior
  {
    var early := Until(front, at);
    UntilLast(front, ev, at);
    FoldLast(early, ev, after, start);
    assert early + [] == early;
  }

  lemma FoldNext(front: seq<Event>, ev: Event, after: Time, at: Time, start: Option<Status>)
    ensures var prior, r := FoldStatus(Until(front, at), after, start), FoldStatus(Until(front + [ev], at), after, start);
            if MovesIn(ev, after, at) then r.Some? && Shows(ev, r.value) else r == prior
  {
    UntilNext(front, ev, after, at, start);
    MoveShows(ev, FoldStatus(Until(front, at), after, start));
  }

  /** Folding events among which nothing moved leaves the status it started from. */
  lemma {:induction false} FoldStays(ordered: seq<Event>, after: Time, at: Time, start: Option<Status>)
    requires forall k :: 0 <= k < |ordered| ==> !MovesIn(ordered[k], after, at)
    ensures FoldStatus(Until(ordered, at), after, start) == start
  {
    if ordered != [] {
      var n := |ordered| - 1;
      FoldStays(ordered[..n], after, at, start);
      FoldNext(ordered[..n], ordered[n], after, at, start);
      assert ordered == ordered[..n] + [ordered[n]];
    }
  }

  /** Otherwise it leaves the status of the last move. */
  lemma {:induction false} FoldMoves(ordered: seq<Event>, j: nat, after: Time, at: Time, start: Option<Status>)
    requires LastMoveAt(ordered, j, after, at)
    ensures ShowsSome(ordered[j], FoldStatus(Until(ordered, at), after, start))
  {
    var n := |ordered| - 1;
    FoldNext(ordered[..n], ordered[n], after, at, start);
    assert ordered == ordered[..n] + [ordered[n]];
    if j < n {
      assert ordered[..n][j] == ordered[j] && !MovesIn(ordered[n], after, at);
      FoldMoves(ordered[..n], j, after, at, start);
    }
  }

  predicate ShowsSome(ev: Event, r: Option<Status>) { r.Some? && Shows(ev, r.value) }

  lemma {:induction false} FirstOriginExactly(ordered: seq<Event>, at: Time)
    ensures FirstOrigin(ordered, at).None? ==> forall i: nat :: !OpensAt(ordered, i, at)
    ensures forall i: nat :: OpensAt(ordered, i, at) ==> FirstOrigin(ordered, at) == Some(ordered[i])
  {
    if ordered != [] {
      var rest := ordered[1..];
      FirstOriginExactly(rest, at);
      forall i: nat | OpensAt(ordered, i, at) && i > 0 ensures OpensAt(rest, i - 1, at) {
        assert forall k :: 0 <= k < i - 1 ==> rest[k] == ordered[k + 1];
      }
    }
  }

  lemma {:induction false} OriginOpens(ordered: seq<Event>, at: Time)
    requires FirstOrigin(ordered, at).Some?
    ensures exists k: nat :: OpensAt(ordered, k, at)
  {
    if IsOrigin(ordered[0]) && ordered[0].at <= at {
      assert OpensAt(ordered, 0, at);
    } else {
      OriginOpens(ordered[1..], at);
      var k: nat :| OpensAt(ordered[1..], k, at);
      assert forall m :: 0 < m < k + 1 ==> ordered[m] == ordered[1..][m - 1];
      assert OpensAt(ordered, k + 1, at);
    }
  }

  ghost predicate IsStatusAt(ordered: seq<Event>, i: nat, at: Time, r: Option<Status>)
    requires i < |ordered|
  {
    var origin := ordered[i];
    if origin.kind == Created && origin.at == at then r.None?
    else
      && (forall j: nat :: LastMoveAt(ordered, j, origin.at, at) ==> ShowsSome(ordered[j], r))
      && ((forall k :: 0 <= k < |ordered| ==> !MovesIn(ordered[k], origin.at, at)) ==>
            ShowsSome(origin, r) || (r == Some(Scheduled) && forall s :: !Shows(origin, s)))
  }

  /** Read at an instant after the opening: the status of the last move, or else the one the row opened with. */
  lemma OpenedReadsExactly(at: Time, reliableFrom: Time, events: seq<Event>, i: nat)
    requires reliableFrom <= at && OpensAt(SortedEvents(events), i, at)
    ensures IsStatusAt(SortedEvents(events), i, at, StatusAt(at, reliableFrom, events))
  {
    OrderedReadsExactly(SortedEvents(events), i, at);
  }

  lemma OrderedReadsExactly(ordered: seq<Event>, i: nat, at: Time)
    requires OpensAt(ordered, i, at)
    ensures IsStatusAt(ordered, i, at, StatusIn(ordered, at))
  {
    var after, start := ordered[i].at, StatusOf(ordered[i], Some(Scheduled));
    FirstOriginExactly(ordered, at);
    MoveShows(ordered[i], Some(Scheduled));
    forall j: nat | LastMoveAt(ordered, j, after, at)
      ensures ShowsSome(ordered[j], FoldStatus(Until(ordered, at), after, start)) {
      FoldMoves(ordered, j, after, at, start);
    }
    if forall k :: 0 <= k < |ordered| ==> !MovesIn(ordered[k], after, at) {
      FoldStays(ordered, after, at, start);
    }
  }

  /** Nothing is read before the journal is reliable, and no status without an opening event by then. */
  lemma NothingReadExactly(at: Time, reliableFrom: Time, events: seq<Event>)
    ensures at < reliableFrom ==> StatusAt(at, reliableFrom, events).None? && EndAtAt(at, reliableFrom, events).None?
    ensures (forall k: nat :: !OpensAt(SortedEvents(events), k, at)) ==> StatusAt(at, reliableFrom, events).None?
  {
    var ordered := SortedEvents(events);
    if FirstOrigin(ordered, at).Some? {
      OriginOpens(ordered, at);
    }
  }
}
