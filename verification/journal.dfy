/**
 The append-only lifecycle journal: what is stored for one event, and the two
 readers that rebuild an execution's past status and deadline from it.
 */
module Journal {
  import opened Core

  datatype EventKind =
    | Created | Started | HistoryBaseline | DeadlineChanged | MarkedDone
    | Validated | CanceledEvent | Reopened | Reactivated

  datatype MetaKey =
    | InitialStatus | CancelOriginKey | ReactivationOrigin | ToStatus
    | EndAt | StartAt | FromEndAt | ToEndAt | OtherKey(name: string)

  datatype MetaValue =
    | Null | StatusText(status: Status) | OriginText(origin: CancelOrigin)
    | Moment(time: Time) | Nested

  type Meta = map<MetaKey, MetaValue>

  datatype Event = Event(kind: EventKind, at: Time, meta: Meta)

  // ----- what a row of the journal may hold -----

  predicate Nullable(k: MetaKey) { k.EndAt? || k.StartAt? || k.FromEndAt? || k.ToEndAt? }

  predicate Kept(k: MetaKey, v: MetaValue) {
    !k.OtherKey? && (v.Null? ==> Nullable(k)) && !v.Nested?
  }

  function Sanitized(meta: Meta): Meta {
    map k | k in meta && Kept(k, meta[k]) :: meta[k]
  }

  /** Keeps the allowlisted structured keys, one dictionary item at a time. */
  method SanitizeMetadata(meta: Meta) returns (safe: Meta)
    ensures safe == Sanitized(meta)
  {
    safe := map[];
    var pending := meta.Keys;
    while pending != {}
      invariant pending <= meta.Keys
      invariant safe.Keys == set k | k in meta && k !in pending && Kept(k, meta[k])
      invariant forall k :: k in safe ==> safe[k] == meta[k]
      decreases pending
    {
      var k :| k in pending;
      pending := pending - {k};
      if k.OtherKey? {
        continue;
      }
      if meta[k].Null? {
        if Nullable(k) {
          safe := safe[k := Null];
        }
        continue;
      }
      if !meta[k].Nested? {
        safe := safe[k := meta[k]];
      }
    }
  }

  function MomentOf(t: Option<Time>): MetaValue {
    if t.Some? then Moment(t.value) else Null
  }

  function TransitionMeta(status: Status, endAt: Option<Time>): Meta {
    map[ToStatus := StatusText(status), EndAt := MomentOf(endAt)]
  }

  function DeadlineMeta(fromEnd: Option<Time>, toEnd: Option<Time>): Meta {
    map[FromEndAt := MomentOf(fromEnd), ToEndAt := MomentOf(toEnd)]
  }

  function Recorded(kind: EventKind, at: Time, meta: Meta): Event {
    Event(kind, at, Sanitized(meta))
  }

  function DeadlineEvents(fromEnd: Option<Time>, toEnd: Option<Time>, at: Time): seq<Event> {
    if fromEnd == toEnd then [] else [Recorded(DeadlineChanged, at, DeadlineMeta(fromEnd, toEnd))]
  }

  // ----- reading one event -----

  function TimeOf(meta: Meta, k: MetaKey): Option<Time> {
    if k in meta && meta[k].Moment? then Some(meta[k].time) else None
  }

  function EndOf(ev: Event): Option<Time> {
    TimeOf(ev.meta, if ev.kind.DeadlineChanged? then ToEndAt else EndAt)
  }

  /** The status an event moved its execution to, or the fallback. */
  function StatusOf(ev: Event, fallback: Option<Status>): Option<Status> {
    if ToStatus in ev.meta && ev.meta[ToStatus].StatusText? then Some(ev.meta[ToStatus].status)
    else if InitialStatus in ev.meta && ev.meta[InitialStatus].StatusText? then
      Some(ev.meta[InitialStatus].status)
    else match ev.kind
      case Started => Some(InProgress)
      case Validated => Some(Done)
      case CanceledEvent => Some(Canceled)
      case Reopened => Some(InProgress)
      case MarkedDone => Some(Done)
      case _ => fallback
  }

  /** The groups of event types the readers select by. */
  datatype Kinds = StatusKinds | OriginKinds | OpeningKinds | DeadlineKinds | TerminalKinds | Only(kind: EventKind) {
    predicate Has(k: EventKind) {
      match this
      case StatusKinds => !k.DeadlineChanged?
      case OriginKinds => k.Created? || k.HistoryBaseline?
      case OpeningKinds => k.Created? || k.HistoryBaseline? || k.Started?
      case DeadlineKinds => k.DeadlineChanged?
      case TerminalKinds => k.MarkedDone? || k.Validated? || k.CanceledEvent?
      case Only(kind) => k == kind
    }
  }

  /** Survives sanitizing: the target status and the deadline, even when the deadline is null. */
  lemma TransitionSurvives(kind: EventKind, at: Time, status: Status, endAt: Option<Time>, extra: Meta)
    requires StatusKinds.Has(kind)
    requires ToStatus !in extra && EndAt !in extra
    ensures var ev := Recorded(kind, at, extra + TransitionMeta(status, endAt));
            StatusOf(ev, None) == Some(status) && EndOf(ev) == endAt && EndAt in ev.meta
  {
  }

  // ----- orders on journals -----

  predicate Chronological(s: seq<Event>) {
    forall i, j :: 0 <= i < j < |s| ==> s[i].at <= s[j].at
  }

  /** Events before an instant, in the order they are listed. */
  function Until(s: seq<Event>, at: Time): seq<Event> {
    if s == [] then []
    else Until(s[..|s| - 1], at) + if s[|s| - 1].at < at then [s[|s| - 1]] else []
  }

  /** The last listed event of the given kinds. */
  function Last(s: seq<Event>, kinds: Kinds): Option<Event> {
    if s == [] then None
    else if kinds.Has(s[|s| - 1].kind) then Some(s[|s| - 1])
    else Last(s[..|s| - 1], kinds)
  }

  /** Alphabetical order of the stored event types, the readers' tie break. */
  function TypeRank(k: EventKind): int {
    match k
    case CanceledEvent => 0
    case Created => 1
    case DeadlineChanged => 2
    case HistoryBaseline => 3
    case MarkedDone => 4
    case Reactivated => 5
    case Reopened => 6
    case Started => 7
    case Validated => 8
  }

  predicate SortsBefore(a: Event, b: Event) {
    a.at < b.at || (a.at == b.at && TypeRank(a.kind) <= TypeRank(b.kind))
  }

  /** Stable insertion of one event, and the sort the readers apply first. */
  function Insert(s: seq<Event>, ev: Event): seq<Event> {
    if s == [] || SortsBefore(s[|s| - 1], ev) then s + [ev]
    else Insert(s[..|s| - 1], ev) + [s[|s| - 1]]
  }

  function SortedEvents(s: seq<Event>): seq<Event> {
    if s == [] then [] else Insert(SortedEvents(s[..|s| - 1]), s[|s| - 1])
  }

  lemma {:induction false} InsertKeepsOrder(s: seq<Event>, ev: Event)
    requires Chronological(s)
    ensures Chronological(Insert(s, ev))
    ensures forall x :: x in Insert(s, ev) <==> x in s || x == ev
  {
    if s != [] && !SortsBefore(s[|s| - 1], ev) {
      var front := s[..|s| - 1];
      InsertKeepsOrder(front, ev);
      assert s == front + [s[|s| - 1]];
      var r := Insert(front, ev);
      forall i | 0 <= i < |r| ensures r[i].at <= s[|s| - 1].at {
        assert r[i] in r;
      }
    }
  }

  lemma {:induction false} SortedEventsOrder(s: seq<Event>)
    ensures Chronological(SortedEvents(s))
    ensures forall x :: x in SortedEvents(s) <==> x in s
  {
    if s != [] {
      SortedEventsOrder(s[..|s| - 1]);
      InsertKeepsOrder(SortedEvents(s[..|s| - 1]), s[|s| - 1]);
      assert s == s[..|s| - 1] + [s[|s| - 1]];
    }
  }

  lemma {:induction false} UntilMembers(s: seq<Event>, at: Time)
    ensures forall x :: x in Until(s, at) <==> x in s && x.at < at
  {
    if s != [] {
      var front, last := s[..|s| - 1], s[|s| - 1];
      UntilMembers(front, at);
      assert s == front + [last];
    }
  }

  lemma {:induction false} UntilKeepsOrder(s: seq<Event>, at: Time)
    requires Chronological(s)
    ensures Chronological(Until(s, at))
    ensures forall i :: 0 <= i < |Until(s, at)| ==> s != [] && Until(s, at)[i].at <= s[|s| - 1].at
  {
    if s != [] {
      UntilKeepsOrder(s[..|s| - 1], at);
    }
  }

  /** On a chronological list a loop may stop at the first event that is too late. */
  lemma {:induction false} UntilIsPrefix(s: seq<Event>, n: nat, at: Time)
    requires n <= |s|
    requires forall i :: 0 <= i < n ==> s[i].at < at
    requires forall i :: n <= i < |s| ==> s[i].at >= at
    ensures Until(s, at) == s[..n]
  {
    if s != [] {
      var front := s[..|s| - 1];
      if n == |s| {
        UntilIsPrefix(front, n - 1, at);
        assert s[..n] == front + [s[n - 1]];
        assert front[..n - 1] == front;
      } else {
        UntilIsPrefix(front, n, at);
        assert front[..n] == s[..n];
      }
    }
  }

  lemma {:induction false} UntilAppend(s: seq<Event>, t: seq<Event>, at: Time)
    ensures Until(s + t, at) == Until(s, at) + Until(t, at)
  {
    if t == [] {
      assert s + t == s;
    } else {
      var front := t[..|t| - 1];
      assert (s + t)[..|s + t| - 1] == s + front;
      UntilAppend(s, front, at);
    }
  }

  lemma {:induction false} LastAppend(s: seq<Event>, t: seq<Event>, kinds: Kinds)
    ensures Last(s + t, kinds) == if Last(t, kinds).Some? then Last(t, kinds) else Last(s, kinds)
  {
    if t == [] {
      assert s + t == s;
    } else {
      var front := t[..|t| - 1];
      assert (s + t)[..|s + t| - 1] == s + front;
      LastAppend(s, front, kinds);
    }
  }

  lemma {:induction false} LastIsLatest(s: seq<Event>, kinds: Kinds)
    requires Chronological(s)
    ensures Last(s, kinds).None? <==> forall x :: x in s ==> !kinds.Has(x.kind)
    ensures Last(s, kinds).Some? ==>
              var l := Last(s, kinds).value;
              l in s && kinds.Has(l.kind) && forall x :: x in s && kinds.Has(x.kind) ==> x.at <= l.at
  {
    if s != [] {
      var front, last := s[..|s| - 1], s[|s| - 1];
      LastIsLatest(front, kinds);
      assert s == front + [last];
      if kinds.Has(last.kind) {
        forall x | x in s ensures x.at <= last.at {
          var i :| 0 <= i < |s| && s[i] == x;
        }
      }
    }
  }

  // ----- a part of a listing -----

  /** The events a test keeps, in the order they are listed. */
  function Those(s: seq<Event>, keep: Event -> bool): seq<Event> {
    if s == [] then []
    else Those(s[..|s| - 1], keep) + if keep(s[|s| - 1]) then [s[|s| - 1]] else []
  }

  lemma {:induction false} ThoseMembers(s: seq<Event>, keep: Event -> bool)
    ensures forall x :: x in Those(s, keep) <==> x in s && keep(x)
  {
    if s != [] {
      ThoseMembers(s[..|s| - 1], keep);
      assert s == s[..|s| - 1] + [s[|s| - 1]];
    }
  }

  lemma {:induction false} ThoseAppend(s: seq<Event>, t: seq<Event>, keep: Event -> bool)
    ensures Those(s + t, keep) == Those(s, keep) + Those(t, keep)
  {
    if t == [] {
      assert s + t == s;
    } else {
      var front := t[..|t| - 1];
      assert (s + t)[..|s + t| - 1] == s + front;
      ThoseAppend(s, front, keep);
    }
  }

  lemma {:induction false} ThoseAll(s: seq<Event>, keep: Event -> bool)
    requires forall x :: x in s ==> keep(x)
    ensures Those(s, keep) == s
  {
    if s != [] {
      var front := s[..|s| - 1];
      forall x | x in front ensures x in s {}
      ThoseAll(front, keep);
      assert s[|s| - 1] in s && s == front + [s[|s| - 1]];
    }
  }

  lemma {:induction false} ThoseNone(s: seq<Event>, keep: Event -> bool)
    requires forall x :: x in s ==> !keep(x)
    ensures Those(s, keep) == []
  {
    if s != [] {
      var front := s[..|s| - 1];
      forall x | x in front ensures x in s {}
      ThoseNone(front, keep);
      assert s[|s| - 1] in s;
    }
  }

  lemma CountGrows(front: seq<Event>, last: Event, all: seq<Event>, x: Event)
    requires all == front + [last]
    ensures multiset(all)[x] == multiset(front)[x] + if x == last then 1 else 0
  {
  }

  lemma {:induction false} ThoseCount(s: seq<Event>, keep: Event -> bool, x: Event)
    ensures multiset(Those(s, keep))[x] == if keep(x) then multiset(s)[x] else 0
  {
    if s != [] {
      var front, last := s[..|s| - 1], s[|s| - 1];
      ThoseCount(front, keep, x);
      CountGrows(front, last, s, x);
      if keep(last) {
        CountGrows(Those(front, keep), last, Those(s, keep), x);
      } else {
        assert Those(s, keep) == Those(front, keep);
      }
    }
  }

  // ----- the status reader -----

  /** Two lists of the same events, in any chronological order. */
  ghost predicate SameEvents(s: seq<Event>, t: seq<Event>) {
    forall x :: x in s <==> x in t
  }

  /** Events recorded at one instant tell the same story. */
  ghost predicate Agreeing(s: seq<Event>) {
    forall x, y :: x in s && y in s && x.at == y.at ==> Agree(x, y)
  }

  predicate Agree(x: Event, y: Event) {
    EndOf(x) == EndOf(y) &&
    (StatusKinds.Has(x.kind) && StatusKinds.Has(y.kind) ==> StatusOf(x, None) == StatusOf(y, None))
  }

  lemma AgreeingWithin(s: seq<Event>, t: seq<Event>)
    requires Agreeing(t) && forall x :: x in s ==> x in t
    ensures Agreeing(s)
  {
  }

  /** One opening event, a creation or a baseline, first; every event carries what the readers look for. */
  ghost predicate WellFormed(s: seq<Event>) {
    && s != []
    && OriginKinds.Has(s[0].kind)
    && (forall i :: 0 < i < |s| ==> !OriginKinds.Has(s[i].kind))
    && (forall x :: x in s && StatusKinds.Has(x.kind) ==> StatusOf(x, None).Some? && EndAt in x.meta)
  }

  function StatusAt(at: Time, reliableFrom: Time, events: seq<Event>): Option<Status> {
    if at < reliableFrom then None else StatusIn(SortedEvents(events), at)
  }

  function StatusIn(ordered: seq<Event>, at: Time): Option<Status> {
    match FirstOrigin(ordered, at)
    case None => None
    case Some(origin) =>
      if origin.kind == Created && origin.at >= at then None
      else FoldStatus(Until(ordered, at), origin.at, StatusOf(origin, Some(Scheduled)))
  }

  function FirstOrigin(s: seq<Event>, at: Time): Option<Event> {
    if s == [] then None
    else if OriginKinds.Has(s[0].kind) && s[0].at <= at then Some(s[0])
    else FirstOrigin(s[1..], at)
  }

  function FoldStatus(s: seq<Event>, after: Time, start: Option<Status>): Option<Status> {
    if s == [] then start
    else
      var ev := s[|s| - 1];
      var prior := FoldStatus(s[..|s| - 1], after, start);
      if !StatusKinds.Has(ev.kind) || ev.at <= after || OriginKinds.Has(ev.kind) then prior
      else StatusOf(ev, prior)
  }

  lemma {:induction false} FirstOriginAt(s: seq<Event>, i: nat, at: Time)
    requires i <= |s|
    requires forall k :: 0 <= k < i ==> !(OriginKinds.Has(s[k].kind) && s[k].at <= at)
    ensures FirstOrigin(s, at) == FirstOrigin(s[i..], at)
  {
    if i > 0 {
      FirstOriginAt(s[1..], i - 1, at);
      assert s[1..][i - 1..] == s[i..];
    }
  }

  method ExecutionStatusAt(at: Time, reliableFrom: Time, events: seq<Event>) returns (status: Option<Status>)
    ensures status == StatusAt(at, reliableFrom, events)
  {
    if at < reliableFrom {
      return None;
    }
    SortedEventsOrder(events);
    status := ReadStatus(SortedEvents(events), at);
  }

  method ReadStatus(ordered: seq<Event>, at: Time) returns (status: Option<Status>)
    requires Chronological(ordered)
    ensures status == StatusIn(ordered, at)
  {
    var found := ReadOrigin(ordered, at);
    if found.None? {
      return None;
    }
    var origin := found.value;
    if origin.kind == Created && origin.at >= at {
      return None;
    }
    status := ReadStatusAfter(ordered, origin, at);
  }

  method ReadOrigin(ordered: seq<Event>, at: Time) returns (origin: Option<Event>)
    ensures origin == FirstOrigin(ordered, at)
  {
    var i := 0;
    while i < |ordered| && !(OriginKinds.Has(ordered[i].kind) && ordered[i].at <= at)
      invariant 0 <= i <= |ordered|
      invariant forall k :: 0 <= k < i ==> !(OriginKinds.Has(ordered[k].kind) && ordered[k].at <= at)
    {
      i := i + 1;
    }
    FirstOriginAt(ordered, i, at);
    origin := if i == |ordered| then None else Some(ordered[i]);
  }

  method ReadStatusAfter(ordered: seq<Event>, origin: Event, at: Time) returns (status: Option<Status>)
    requires Chronological(ordered)
    ensures status == FoldStatus(Until(ordered, at), origin.at, StatusOf(origin, Some(Scheduled)))
  {
    var start := StatusOf(origin, Some(Scheduled));
    status := start;
    var n := 0;
    while n < |ordered| && ordered[n].at < at
      invariant 0 <= n <= |ordered|
      invariant forall k :: 0 <= k < n ==> ordered[k].at < at
      invariant status == FoldStatus(ordered[..n], origin.at, start)
    {
      var ev := ordered[n];
      assert ordered[..n + 1][..n] == ordered[..n];
      if StatusKinds.Has(ev.kind) && ev.at > origin.at && !OriginKinds.Has(ev.kind) {
        status := StatusOf(ev, status);
      }
      n := n + 1;
    }
    UntilIsPrefix(ordered, n, at);
  }

  // ----- the deadline reader -----

  function EndAtAt(at: Time, reliableFrom: Time, events: seq<Event>): Option<Time> {
    if at < reliableFrom then None
    else EndIn(Telling(Until(SortedEvents(events), at)), StatusAt(at, reliableFrom, events))
  }

  /** An opening or terminal event stored without the deadline key tells nothing. */
  predicate RecordsDeadline(ev: Event) {
    OpeningKinds.Has(ev.kind) || TerminalKinds.Has(ev.kind) ==> EndAt in ev.meta
  }

  function Telling(s: seq<Event>): seq<Event> {
    if s == [] then []
    else Telling(s[..|s| - 1]) + if RecordsDeadline(s[|s| - 1]) then [s[|s| - 1]] else []
  }

  lemma {:induction false} AllTelling(s: seq<Event>)
    requires forall x :: x in s ==> RecordsDeadline(x)
    ensures Telling(s) == s
  {
    if s != [] {
      var front := s[..|s| - 1];
      forall x | x in front ensures x in s {}
      AllTelling(front);
      assert s[|s| - 1] in s && s == front + [s[|s| - 1]];
    }
  }

  function EndIn(seen: seq<Event>, status: Option<Status>): Option<Time> {
    var terminal := LastEnd(seen, TerminalKinds);
    if (status == Some(Done) || status == Some(Canceled)) && terminal.Some? then terminal
    else PlannedEnd(seen)
  }

  /** The last recorded change of deadline, unless it is null; else the deadline at opening. */
  function PlannedEnd(seen: seq<Event>): Option<Time> {
    var changed := LastEnd(seen, DeadlineKinds);
    if changed.Some? then changed else LastEnd(seen, OpeningKinds)
  }

  function LastEnd(seen: seq<Event>, kinds: Kinds): Option<Time> {
    var l := Last(seen, kinds);
    if l.Some? then EndOf(l.value) else None
  }

  method ExecutionEndAtAt(at: Time, reliableFrom: Time, events: seq<Event>) returns (endAt: Option<Time>)
    ensures endAt == EndAtAt(at, reliableFrom, events)
  {
    if at < reliableFrom {
      return None;
    }
    SortedEventsOrder(events);
    var status := ExecutionStatusAt(at, reliableFrom, events);
    endAt := ReadEnd(SortedEvents(events), at, status);
  }

  lemma TellingNext(s: seq<Event>, n: nat, kinds: Kinds)
    requires n < |s|
    ensures Last(Telling(s[..n + 1]), kinds) ==
            if RecordsDeadline(s[n]) && kinds.Has(s[n].kind) then Some(s[n]) else Last(Telling(s[..n]), kinds)
  {
    var next, told := s[..n + 1], Telling(s[..n]);
    assert next[..|next| - 1] == s[..n];
    assert Telling(next) == told + if RecordsDeadline(s[n]) then [s[n]] else [];
    assert told + [] == told && (told + [s[n]])[..|told|] == told;
  }

  method ReadEnd(ordered: seq<Event>, at: Time, status: Option<Status>) returns (endAt: Option<Time>)
    requires Chronological(ordered)
    ensures endAt == EndIn(Telling(Until(ordered, at)), status)
  {
    var originEndAt: Option<Time>, lastDeadlineTo: Option<Time>, terminalEndAt: Option<Time> := None, None, None;
    var terminalOccurredAt: Option<Time> := None;
    var n := 0;
    while n < |ordered| && ordered[n].at < at
      invariant 0 <= n <= |ordered|
      invariant forall k :: 0 <= k < n ==> ordered[k].at < at
      invariant originEndAt == LastEnd(Telling(ordered[..n]), OpeningKinds)
      invariant lastDeadlineTo == LastEnd(Telling(ordered[..n]), DeadlineKinds)
      invariant terminalEndAt == LastEnd(Telling(ordered[..n]), TerminalKinds)
      invariant terminalOccurredAt.None? ==> terminalEndAt.None?
    {
      var ev := ordered[n];
      TellingNext(ordered, n, OpeningKinds);
      TellingNext(ordered, n, DeadlineKinds);
      TellingNext(ordered, n, TerminalKinds);
      if OpeningKinds.Has(ev.kind) {
        var parsed := TimeOf(ev.meta, EndAt);
        if parsed.Some? || EndAt in ev.meta {
          originEndAt := parsed;
        }
      } else if ev.kind.DeadlineChanged? {
        lastDeadlineTo := TimeOf(ev.meta, ToEndAt);
      } else if TerminalKinds.Has(ev.kind) {
        var parsed := TimeOf(ev.meta, EndAt);
        if parsed.Some? || EndAt in ev.meta {
          terminalEndAt := parsed;
          terminalOccurredAt := Some(ev.at);
        }
      }
      n := n + 1;
    }
    UntilIsPrefix(ordered, n, at);
    if (status == Some(Done) || status == Some(Canceled)) && terminalOccurredAt.Some? {
      endAt := if terminalEndAt.Some? then terminalEndAt
               else if lastDeadlineTo.Some? then lastDeadlineTo else originEndAt;
      return;
    }
    if lastDeadlineTo.Some? {
      return lastDeadlineTo;
    }
    return originEndAt;
  }

  // ----- the readers do not depend on how equal instants are listed -----

  lemma {:induction false} SameLast(s: seq<Event>, t: seq<Event>, kinds: Kinds)
    requires Chronological(s) && Chronological(t) && SameEvents(s, t) && Agreeing(t)
    ensures Last(s, kinds).Some? == Last(t, kinds).Some?
    ensures LastEnd(s, kinds) == LastEnd(t, kinds)
    ensures Last(s, kinds).Some? && kinds.StatusKinds? ==>
              StatusOf(Last(s, kinds).value, None) == StatusOf(Last(t, kinds).value, None)
  {
    LastIsLatest(s, kinds);
    LastIsLatest(t, kinds);
  }

  predicate Readable(ev: Event, after: Time) {
    (StatusKinds.Has(ev.kind) ==> StatusOf(ev, None).Some?) && (OriginKinds.Has(ev.kind) ==> ev.at <= after)
  }

  lemma {:induction false} FoldStatusIsLast(s: seq<Event>, after: Time, start: Option<Status>)
    requires forall i :: 0 <= i < |s| ==> Readable(s[i], after)
    requires Chronological(s)
    ensures var l := Last(s, StatusKinds);
            FoldStatus(s, after, start) ==
            if l.None? || l.value.at <= after then start else StatusOf(l.value, None)
  {
    if s != [] {
      var front, last := s[..|s| - 1], s[|s| - 1];
      FoldStatusIsLast(front, after, start);
      LastIsLatest(front, StatusKinds);
      assert Readable(last, after);
      var l := Last(front, StatusKinds);
      if l.Some? {
        var i :| 0 <= i < |front| && front[i] == l.value;
        assert s[i].at <= last.at;
      }
    }
  }

  lemma {:induction false} FirstOriginExists(s: seq<Event>, at: Time, origin: Event)
    requires origin in s && OriginKinds.Has(origin.kind) && origin.at <= at
    requires forall x :: x in s && OriginKinds.Has(x.kind) ==> x == origin
    ensures FirstOrigin(s, at) == Some(origin)
  {
    if s[0] != origin {
      assert s[0] in s;
      assert s == [s[0]] + s[1..];
      forall x | x in s[1..] ensures x in s {}
      FirstOriginExists(s[1..], at, origin);
    }
  }

  /** Cutting two listings of the same events at one instant leaves two listings of the same events. */
  lemma SameUntil(journal: seq<Event>, ordered: seq<Event>, at: Time)
    requires Chronological(journal) && Chronological(ordered) && SameEvents(ordered, journal)
    ensures var seen, past := Until(ordered, at), Until(journal, at);
            Chronological(seen) && Chronological(past) && SameEvents(seen, past)
    ensures forall x :: x in Until(journal, at) <==> x in journal && x.at < at
    ensures Agreeing(journal) ==> Agreeing(Until(journal, at))
  {
    UntilMembers(ordered, at);
    UntilMembers(journal, at);
    UntilKeepsOrder(ordered, at);
    UntilKeepsOrder(journal, at);
    if Agreeing(journal) {
      AgreeingWithin(Until(journal, at), journal);
    }
  }

  lemma FoldOverSame(seen: seq<Event>, past: seq<Event>, origin: Event, start: Option<Status>)
    requires Chronological(seen) && Chronological(past) && SameEvents(seen, past) && Agreeing(past)
    requires forall x :: x in past && StatusKinds.Has(x.kind) ==> StatusOf(x, None).Some?
    requires forall x :: x in past && OriginKinds.Has(x.kind) ==> x == origin
    requires origin in past && StatusKinds.Has(origin.kind) && start == StatusOf(origin, None)
    requires forall x :: x in past ==> origin.at <= x.at
    ensures Last(past, StatusKinds).Some?
    ensures FoldStatus(seen, origin.at, start) == StatusOf(Last(past, StatusKinds).value, None)
  {
    SameLast(seen, past, StatusKinds);
    forall i | 0 <= i < |seen| ensures Readable(seen[i], origin.at) {
      assert seen[i] in past;
    }
    FoldStatusIsLast(seen, origin.at, start);
    LastIsLatest(seen, StatusKinds);
    var l := Last(seen, StatusKinds).value;
    if l.at <= origin.at {
      assert Agree(l, origin);
    }
  }

  lemma OnlyOrigin(journal: seq<Event>)
    requires WellFormed(journal) && Chronological(journal)
    ensures journal[0] in journal
    ensures forall x :: x in journal ==> journal[0].at <= x.at
    ensures forall x :: x in journal && OriginKinds.Has(x.kind) ==> x == journal[0]
  {
  }

  /** The latest status event of a well-formed journal decides what the reader returns. */
  lemma StatusInIsLastStatus(journal: seq<Event>, ordered: seq<Event>, at: Time)
    requires WellFormed(journal) && Chronological(journal) && Agreeing(journal)
    requires SameEvents(ordered, journal) && Chronological(ordered)
    requires journal[0].at < at
    ensures Last(Until(journal, at), StatusKinds).Some?
    ensures StatusIn(ordered, at) == StatusOf(Last(Until(journal, at), StatusKinds).value, None)
  {
    var origin := journal[0];
    OnlyOrigin(journal);
    FirstOriginExists(ordered, at, origin);
    SameUntil(journal, ordered, at);
    FoldOverSame(Until(ordered, at), Until(journal, at), origin, StatusOf(origin, Some(Scheduled)));
  }

  lemma SortedIsSame(journal: seq<Event>, events: seq<Event>)
    requires SameEvents(events, journal)
    ensures SameEvents(SortedEvents(events), journal) && Chronological(SortedEvents(events))
  {
    SortedEventsOrder(events);
  }

  /**
   The status reader returns what the last status event before the instant says, whatever order
   the rows were fetched in.
   */
  lemma StatusReaderIsLastStatus(journal: seq<Event>, events: seq<Event>, at: Time, reliableFrom: Time)
    requires WellFormed(journal) && Chronological(journal) && Agreeing(journal)
    requires SameEvents(events, journal)
    requires reliableFrom <= at && journal[0].at < at
    ensures Last(Until(journal, at), StatusKinds).Some?
    ensures StatusAt(at, reliableFrom, events) == StatusOf(Last(Until(journal, at), StatusKinds).value, None)
  {
    SortedIsSame(journal, events);
    StatusInIsLastStatus(journal, SortedEvents(events), at);
  }

  lemma WellFormedTells(journal: seq<Event>, ordered: seq<Event>, at: Time)
    requires WellFormed(journal) && SameEvents(ordered, journal)
    ensures Telling(Until(ordered, at)) == Until(ordered, at)
  {
    UntilMembers(ordered, at);
    forall x | x in Until(ordered, at) ensures RecordsDeadline(x) {
      assert x in journal;
      assert StatusKinds.Has(x.kind) ==> EndAt in x.meta;
    }
    AllTelling(Until(ordered, at));
  }

  /** The deadline reader, in the same terms. */
  lemma EndReaderIsLastEnds(journal: seq<Event>, events: seq<Event>, at: Time, reliableFrom: Time)
    requires WellFormed(journal) && Chronological(journal) && Agreeing(journal)
    requires SameEvents(events, journal)
    requires reliableFrom <= at && journal[0].at < at
    ensures Last(Until(journal, at), StatusKinds).Some?
    ensures EndAtAt(at, reliableFrom, events) ==
            EndIn(Until(journal, at), StatusOf(Last(Until(journal, at), StatusKinds).value, None))
  {
    StatusReaderIsLastStatus(journal, events, at, reliableFrom);
    SortedIsSame(journal, events);
    WellFormedTells(journal, SortedEvents(events), at);
    SameEnds(journal, SortedEvents(events), at);
  }

  lemma SameEnds(journal: seq<Event>, ordered: seq<Event>, at: Time)
    requires Chronological(journal) && Agreeing(journal) && SameEvents(ordered, journal) && Chronological(ordered)
    ensures forall status :: EndIn(Until(ordered, at), status) == EndIn(Until(journal, at), status)
  {
    SameUntil(journal, ordered, at);
    SameEndsOf(Until(ordered, at), Until(journal, at));
  }

  lemma SameEndsOf(seen: seq<Event>, past: seq<Event>)
    requires Chronological(seen) && Chronological(past) && SameEvents(seen, past) && Agreeing(past)
    ensures forall status :: EndIn(seen, status) == EndIn(past, status)
  {
    SameLast(seen, past, TerminalKinds);
    SameLast(seen, past, DeadlineKinds);
    SameLast(seen, past, OpeningKinds);
  }
}
