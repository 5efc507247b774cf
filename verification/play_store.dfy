/**
 Asking for store access: one record per user carries a frozen mail and the key it is
 sent under.  Submissions, address changes, retries and deletions interleave between
 the transactions; the provider is outside.
 */
module PlayStore {
  import opened Core

  /** Twenty-four hours, in microseconds. */
  const WINDOW: Time := 86_400_000_000

  datatype Subject = Request | Correction | Retransmission

  /** What a mail is made of; equal mails have equal text. */
  datatype Mail = Mail(to: Id, from: Id, subject: Subject, address: string, establishment: Id, on: Time)

  datatype Record = Record(pk: Id, address: string, key: Id, keyCreatedAt: Time, acceptedAt: Option<Time>,
                           correction: bool, mail: Mail)

  datatype Prepared = Prepared(pk: Id, key: Id, mail: Mail, skip: bool)

  datatype Failure = Unavailable | NotAccepted | Superseded | Missing

  /** The delivery settings; without them nothing new can be frozen. */
  datatype Mailer = Mailer(operator: Id, from: Id, establishment: Id)

  type Records = map<Id, Record>

  // ----- preparing, under the lock on the record -----

  function Freeze(m: Option<Mailer>, address: string, now: Time, correction: bool, retransmission: bool): Option<Mail> {
    if m.None? then None
    else
      var subject := if correction then Correction else if retransmission then Retransmission else Request;
      Some(Mail(m.value.operator, m.value.from, subject, address, m.value.establishment, now))
  }

  predicate KeyIsCurrent(r: Record, now: Time) { now - r.keyCreatedAt < WINDOW }

  function Snapshot(r: Record, skip: bool): Prepared { Prepared(r.pk, r.key, r.mail, skip) }

  /** The record as preparing leaves it; `pk` and `key` are the new identifiers it may use. */
  function PreparedRecord(held: Option<Record>, address: string, m: Option<Mailer>, pk: Id, key: Id, now: Time)
    : Result<Record, Failure> {
    var mail := Freeze(m, address, now, held.Some? && held.value.address != address, held.Some? && held.value.address == address);
    if address == "" then Err(Unavailable)
    else if held.None? then
      if mail.None? then Err(Unavailable) else Ok(Record(pk, address, key, now, None, false, mail.value))
    else if held.value.address == address && (held.value.acceptedAt.Some? || KeyIsCurrent(held.value, now)) then Ok(held.value)
    else if mail.None? then Err(Unavailable)
    else Ok(Record(held.value.pk, address, key, now, None, held.value.address != address, mail.value))
  }

  /** Nothing is sent for an accepted record whose address has not changed. */
  predicate Skips(held: Option<Record>, address: string) {
    held.Some? && held.value.address == address && held.value.acceptedAt.Some?
  }

  class Requests {
    var records: Records

    constructor ()
      ensures records == map[]
    {
      records := map[];
    }

    method Prepare(user: Id, address: string, m: Option<Mailer>, pk: Id, key: Id, now: Time)
      returns (r: Result<Prepared, Failure>)
      modifies this
      ensures var held := Lookup(old(records), user);
              match PreparedRecord(held, address, m, pk, key, now) {
                case Err(f) => r == Err(f) && records == old(records)
                case Ok(next) => r == Ok(Snapshot(next, Skips(held, address))) && records == old(records)[user := next]
              }
    {
      if address == "" {
        return Err(Unavailable);
      }
      if user !in records {
        var mail := Freeze(m, address, now, false, false);
        if mail.None? {
          return Err(Unavailable);
        }
        records := records[user := Record(pk, address, key, now, None, false, mail.value)];
        return Ok(Snapshot(records[user], false));
      }
      var record := records[user];
      assert records[user := record] == records;
      var sameAddress := record.address == address;
      if sameAddress && record.acceptedAt.Some? {
        return Ok(Snapshot(record, true));
      }
      if sameAddress && KeyIsCurrent(record, now) {
        return Ok(Snapshot(record, false));
      }
      var mail := Freeze(m, address, now, !sameAddress, sameAddress);
      if mail.None? {
        return Err(Unavailable);
      }
      record := record.(address := address, key := key, keyCreatedAt := now, acceptedAt := None,
                        correction := !sameAddress, mail := mail.value);
      records := records[user := record];
      return Ok(Snapshot(record, false));
    }

    /** Compare and set: only the record that still carries the sent key is marked. */
    method MarkAccepted(user: Id, sent: Prepared, now: Time) returns (updated: bool)
      modifies this
      ensures updated == Carries(old(records), user, sent)
      ensures records == if updated then old(records)[user := old(records)[user].(acceptedAt := Some(now))] else old(records)
    {
      updated := user in records && records[user].pk == sent.pk && records[user].key == sent.key;
      if updated {
        records := records[user := records[user].(acceptedAt := Some(now))];
      }
    }

    /** The record a submission returns, or the error it raises. */
    method ReadBack(user: Id, sent: Prepared, updated: bool) returns (r: Result<Record, Failure>)
      ensures r == Readback(records, user, sent, updated)
    {
      if user !in records || records[user].pk != sent.pk {
        return Err(if sent.skip then Missing else Superseded);
      }
      var current := records[user];
      if !sent.skip && (!updated || current.key != sent.key) {
        return Err(Superseded);
      }
      return Ok(current);
    }
  }

  function Lookup(records: Records, user: Id): Option<Record> {
    if user in records then Some(records[user]) else None
  }

  predicate Carries(records: Records, user: Id, sent: Prepared) {
    user in records && records[user].pk == sent.pk && records[user].key == sent.key
  }

  function Readback(records: Records, user: Id, sent: Prepared, updated: bool): Result<Record, Failure> {
    if user !in records || records[user].pk != sent.pk then Err(if sent.skip then Missing else Superseded)
    else if !sent.skip && (!updated || records[user].key != sent.key) then Err(Superseded)
    else Ok(records[user])
  }

  // ----- interleaved submissions -----

  /** Where a submission stands between its transactions. */
  datatype Process =
    | Ready(user: Id, sent: Prepared)
    | Delivered(user: Id, sent: Prepared)
    | Marked(user: Id, sent: Prepared, updated: bool)
    | Finished(user: Id, sent: Prepared, outcome: Result<Record, Failure>)
    | Refused

  datatype Send = Send(key: Id, mail: Mail, preparedAt: Time)

  /** What a key was created with. */
  datatype Stamp = Stamp(user: Id, pk: Id, mail: Mail, createdAt: Time)

  /** `sends`, `accepted`, `stamps` and `marked` only record what has happened. */
  datatype World = World(
    records: Records,
    processes: map<Id, Process>,
    preparedAt: map<Id, Time>,
    sends: seq<Send>,
    accepted: set<Id>,
    stamps: map<Id, Stamp>,
    marked: set<Id>)

  datatype Action =
    | Submit(p: Id, user: Id, address: string, mailer: Option<Mailer>, pk: Id, key: Id)
    | Deliver(p: Id, reached: bool, confirmed: bool)
    | Mark(p: Id)
    | Finish(p: Id)
    | Remove(user: Id)

  /** Process numbers and keys are never used twice; a confirmed mail has reached the provider. */
  ghost predicate Enabled(w: World, a: Action) {
    match a
    case Submit(p, _, _, _, _, key) => p !in w.processes && key !in w.stamps
    case Deliver(p, reached, confirmed) =>
      p in w.processes && w.processes[p].Ready? && !w.processes[p].sent.skip && (confirmed ==> reached)
    case Mark(p) => p in w.processes && w.processes[p].Delivered?
    case Finish(p) => p in w.processes && (w.processes[p].Marked? || (w.processes[p].Ready? && w.processes[p].sent.skip))
    case Remove(_) => true
  }

  function Submitted(w: World, p: Id, user: Id, address: string, m: Option<Mailer>, pk: Id, key: Id, now: Time): World {
    var held := Lookup(w.records, user);
    match PreparedRecord(held, address, m, pk, key, now)
    case Err(_) => w.(processes := w.processes[p := Refused])
    case Ok(next) =>
      w.(records := w.records[user := next],
         processes := w.processes[p := Ready(user, Snapshot(next, Skips(held, address)))],
         preparedAt := w.preparedAt[p := now],
         stamps := if next.key == key then w.stamps[key := Stamp(user, next.pk, next.mail, now)] else w.stamps)
  }

  function Step(w: World, a: Action, now: Time): World
    requires Enabled(w, a)
  {
    match a
    case Submit(p, user, address, m, pk, key) => Submitted(w, p, user, address, m, pk, key, now)
    case Deliver(p, reached, confirmed) =>
      var s := w.processes[p];
      w.(sends := w.sends + [Send(s.sent.key, s.sent.mail, if p in w.preparedAt then w.preparedAt[p] else now)],
         accepted := if reached then w.accepted + {s.sent.key} else w.accepted,
         processes := w.processes[p := if confirmed then Delivered(s.user, s.sent) else Finished(s.user, s.sent, Err(NotAccepted))])
    case Mark(p) =>
      var s := w.processes[p];
      var updated := Carries(w.records, s.user, s.sent);
      w.(records := if updated then w.records[s.user := w.records[s.user].(acceptedAt := Some(now))] else w.records,
         marked := if updated then w.marked + {s.sent.key} else w.marked,
         processes := w.processes[p := Marked(s.user, s.sent, updated)])
    case Finish(p) =>
      var s := w.processes[p];
      w.(processes := w.processes[p := Finished(s.user, s.sent, Readback(w.records, s.user, s.sent, s.Marked? && s.updated))])
    case Remove(user) => w.(records := w.records - {user})
  }

  // ----- what every interleaving keeps -----

  ghost predicate RecordInv(w: World, user: Id) {
    user in w.records ==>
      var r := w.records[user];
      && r.key in w.stamps && w.stamps[r.key] == Stamp(user, r.pk, r.mail, r.keyCreatedAt)
      && (r.acceptedAt.Some? <==> r.key in w.marked)
  }

  ghost predicate SentInv(w: World, p: Id, user: Id, s: Prepared) {
    && s.key in w.stamps && s.mail == w.stamps[s.key].mail && s.pk == w.stamps[s.key].pk && w.stamps[s.key].user == user
    && p in w.preparedAt && (s.skip ==> s.key in w.marked)
    && (!s.skip ==> w.preparedAt[p] - w.stamps[s.key].createdAt < WINDOW)
  }

  ghost predicate OutcomeInv(w: World, s: Prepared, r: Record) {
    && (r.acceptedAt.Some? ==> r.key in w.accepted)
    && (!s.skip ==> r.key == s.key)
    && (r.key == s.key ==> r.acceptedAt.Some?)
  }

  ghost predicate ProcessInv(w: World, p: Id) {
    p in w.processes ==>
      match w.processes[p]
      case Ready(u, s) => SentInv(w, p, u, s)
      case Delivered(u, s) => SentInv(w, p, u, s) && !s.skip && s.key in w.accepted
      case Marked(u, s, updated) => SentInv(w, p, u, s) && !s.skip && s.key in w.accepted && (updated ==> s.key in w.marked)
      case Finished(u, s, outcome) => SentInv(w, p, u, s) && (outcome.Ok? ==> OutcomeInv(w, s, outcome.value))
      case Refused => true
  }

  ghost predicate SendInv(w: World, i: nat) {
    i < |w.sends| ==>
      && w.sends[i].key in w.stamps && w.sends[i].mail == w.stamps[w.sends[i].key].mail
      && w.sends[i].preparedAt - w.stamps[w.sends[i].key].createdAt < WINDOW
  }

  ghost predicate Inv(w: World) {
    && (forall user :: RecordInv(w, user))
    && (forall p :: ProcessInv(w, p))
    && (forall i: nat :: SendInv(w, i))
    && w.marked <= w.accepted
    && (forall k :: k in w.marked ==> k in w.stamps)
  }

  lemma SubmitKeepsRecord(w: World, a: Action, now: Time, user: Id)
    requires Inv(w) && Enabled(w, a) && a.Submit?
    ensures RecordInv(Step(w, a, now), user)
  {
    assert RecordInv(w, user) && RecordInv(w, a.user);
  }

  lemma SubmitKeepsProcess(w: World, a: Action, now: Time, p: Id)
    requires Inv(w) && Enabled(w, a) && a.Submit? && p != a.p
    ensures ProcessInv(Step(w, a, now), p)
  {
    assert ProcessInv(w, p);
  }

  lemma SubmitStartsProcess(w: World, a: Action, now: Time)
    requires Inv(w) && Enabled(w, a) && a.Submit?
    ensures ProcessInv(Step(w, a, now), a.p)
  {
    assert RecordInv(w, a.user);
  }

  lemma SubmitKeepsInv(w: World, a: Action, now: Time)
    requires Inv(w) && Enabled(w, a) && a.Submit?
    ensures Inv(Step(w, a, now))
  {
    var v := Step(w, a, now);
    forall user ensures RecordInv(v, user) {
      SubmitKeepsRecord(w, a, now, user);
    }
    forall p ensures ProcessInv(v, p) {
      if p == a.p {
        SubmitStartsProcess(w, a, now);
      } else {
        SubmitKeepsProcess(w, a, now, p);
      }
    }
    forall i: nat ensures SendInv(v, i) {
      assert SendInv(w, i);
    }
  }

  lemma OtherStepKeepsInv(w: World, a: Action, now: Time)
    requires Inv(w) && Enabled(w, a) && (a.Deliver? || a.Mark? || a.Remove?)
    ensures Inv(Step(w, a, now))
  {
    var v := Step(w, a, now);
    assert !a.Remove? ==> ProcessInv(w, a.p);
    forall user ensures RecordInv(v, user) {
      assert RecordInv(w, user);
    }
    forall p ensures ProcessInv(v, p) {
      assert ProcessInv(w, p);
    }
    forall i: nat ensures SendInv(v, i) {
      assert SendInv(w, i);
    }
  }

  lemma FinishKeepsInv(w: World, a: Action, now: Time)
    requires Inv(w) && Enabled(w, a) && a.Finish?
    ensures Inv(Step(w, a, now))
  {
    var v := Step(w, a, now);
    assert ProcessInv(w, a.p) && RecordInv(w, w.processes[a.p].user);
    forall user ensures RecordInv(v, user) {
      assert RecordInv(w, user);
    }
    forall p ensures ProcessInv(v, p) {
      assert ProcessInv(w, p);
    }
    forall i: nat ensures SendInv(v, i) {
      assert SendInv(w, i);
    }
  }

  datatype Event = Event(action: Action, now: Time)

  function Start(): World { World(map[], map[], map[], [], {}, map[], {}) }

  /** The world after a run, if every step of it can be taken. */
  ghost function After(events: seq<Event>): Option<World> {
    if events == [] then Some(Start())
    else
      var prior, last := After(events[..|events| - 1]), events[|events| - 1];
      if prior.Some? && Enabled(prior.value, last.action) then Some(Step(prior.value, last.action, last.now)) else None
  }

  ghost predicate Runs(events: seq<Event>, w: World) { After(events) == Some(w) }

  lemma {:induction false} RunKeepsInv(events: seq<Event>, w: World)
    requires Runs(events, w)
    ensures Inv(w)
  {
    if events != [] {
      var last := events[|events| - 1];
      var prior := After(events[..|events| - 1]).value;
      RunKeepsInv(events[..|events| - 1], prior);
      match last.action
      case Submit(_, _, _, _, _, _) => SubmitKeepsInv(prior, last.action, last.now);
      case Finish(_) => FinishKeepsInv(prior, last.action, last.now);
      case _ => OtherStepKeepsInv(prior, last.action, last.now);
    }
  }

  // ----- what the protocol promises -----

  /** In every interleaving, all mails sent under one key are the same mail. */
  lemma OneMailPerKey(events: seq<Event>, w: World, i: nat, j: nat)
    requires Runs(events, w) && i < |w.sends| && j < |w.sends| && w.sends[i].key == w.sends[j].key
    ensures w.sends[i].mail == w.sends[j].mail
  {
    RunKeepsInv(events, w);
    assert SendInv(w, i) && SendInv(w, j);
  }

  /** A mail is only sent under a key that was less than a day old when the submission was prepared. */
  lemma SentWhileFresh(events: seq<Event>, w: World, i: nat)
    requires Runs(events, w) && i < |w.sends|
    ensures w.sends[i].key in w.stamps && w.sends[i].preparedAt - w.stamps[w.sends[i].key].createdAt < WINDOW
  {
    RunKeepsInv(events, w);
    assert SendInv(w, i);
  }

  /** A record is marked accepted only if the provider accepted its current key. */
  lemma MarkedWasAccepted(events: seq<Event>, w: World, user: Id)
    requires Runs(events, w) && user in w.records && w.records[user].acceptedAt.Some?
    ensures w.records[user].key in w.accepted
  {
    RunKeepsInv(events, w);
    assert RecordInv(w, user);
  }

  /** A submission that sent its mail and returns, returns a record whose key the provider accepted. */
  lemma ReturnAfterSendIsAccepted(events: seq<Event>, w: World, p: Id)
    requires Runs(events, w) && p in w.processes && w.processes[p].Finished? && w.processes[p].outcome.Ok?
    requires !w.processes[p].sent.skip
    ensures var r := w.processes[p].outcome.value;
            r.key == w.processes[p].sent.key && r.key in w.accepted && r.acceptedAt.Some?
  {
    RunKeepsInv(events, w);
    assert ProcessInv(w, p);
  }

  // ----- what a skipped send returns -----

  function SentBy(w: Option<World>, q: Id): Option<Prepared> {
    if w.Some? && q in w.value.processes && !w.value.processes[q].Refused? then Some(w.value.processes[q].sent) else None
  }

  /** Event `i`: a mail of submission `q`, under the given key, reaches the provider. */
  ghost predicate DeliveredAt(events: seq<Event>, i: nat, q: Id, key: Id) {
    && i < |events| && events[i].action.Deliver? && events[i].action.p == q && events[i].action.reached
    && SentBy(After(events[..i]), q).Some? && SentBy(After(events[..i]), q).value.key == key
  }

  /** Event `i`: submission `q` marks the record that carries the given key. */
  ghost predicate MarkedAt(events: seq<Event>, i: nat, q: Id, key: Id) {
    && i < |events| && events[i].action == Mark(q)
    && SentBy(After(events[..i]), q).Some? && SentBy(After(events[..i]), q).value.key == key
    && Carries(After(events[..i]).value.records, After(events[..i]).value.processes[q].user, SentBy(After(events[..i]), q).value)
  }

  lemma PrefixOfFront(events: seq<Event>, i: nat)
    requires i < |events|
    ensures events[..|events| - 1][..i] == events[..i]
    ensures i < |events| - 1 ==> events[..|events| - 1][i] == events[i]
  {
  }

  /** The provider has accepted exactly the keys under which a mail has reached it. */
  lemma {:induction false} AcceptedIsDelivered(events: seq<Event>, w: World, key: Id)
    requires Runs(events, w)
    ensures key in w.accepted <==> exists i: nat, q :: DeliveredAt(events, i, q, key)
  {
    if events != [] {
      var n := |events| - 1;
      var front, prior := events[..n], After(events[..n]).value;
      AcceptedIsDelivered(front, prior, key);
      forall i: nat, q | i < n ensures DeliveredAt(front, i, q, key) <==> DeliveredAt(events, i, q, key) {
        PrefixOfFront(events, i);
      }
      if key in prior.accepted {
        var i: nat, q :| DeliveredAt(front, i, q, key);
        assert DeliveredAt(events, i, q, key);
      } else if key in w.accepted {
        assert DeliveredAt(events, n, events[n].action.p, key);
      }
    }
  }

  /** A key has been marked exactly when a submission that sent it found the record still carrying it. */
  lemma {:induction false} MarkedIsMark(events: seq<Event>, w: World, key: Id)
    requires Runs(events, w)
    ensures key in w.marked <==> exists i: nat, q :: MarkedAt(events, i, q, key)
  {
    if events != [] {
      var n := |events| - 1;
      var front, prior := events[..n], After(events[..n]).value;
      MarkedIsMark(front, prior, key);
      forall i: nat, q | i < n ensures MarkedAt(front, i, q, key) <==> MarkedAt(events, i, q, key) {
        PrefixOfFront(events, i);
      }
      if key in prior.marked {
        var i: nat, q :| MarkedAt(front, i, q, key);
        assert MarkedAt(events, i, q, key);
      } else if key in w.marked {
        assert MarkedAt(events, n, events[n].action.p, key);
      }
    }
  }

  lemma {:induction false} PrefixRuns(events: seq<Event>, k: nat)
    requires k <= |events| && After(events).Some?
    ensures After(events[..k]).Some?
  {
    if k == |events| {
      assert events[..k] == events;
    } else {
      PrefixRuns(events[..|events| - 1], k);
      PrefixOfFront(events, k);
    }
  }

  /** A submission keeps its user and what it has frozen, and a refused one stays refused. */
  ghost predicate SameSubmission(early: World, w: World, p: Id) {
    p in early.processes ==>
      && p in w.processes && (w.processes[p].Refused? <==> early.processes[p].Refused?)
      && (!w.processes[p].Refused? ==>
            w.processes[p].user == early.processes[p].user && w.processes[p].sent == early.processes[p].sent)
  }

  /** What one step leaves of the keys: no key disappears, and a record changes its key only for a new one. */
  lemma StepMovesKeys(w: World, a: Action, now: Time, user: Id, p: Id)
    requires Inv(w) && Enabled(w, a)
    ensures var v := Step(w, a, now);
            && (forall k :: k in w.stamps ==> k in v.stamps && v.stamps[k] == w.stamps[k])
            && (user in v.records && v.records[user].key in w.stamps ==>
                  user in w.records && w.records[user].key == v.records[user].key)
            && SameSubmission(w, v, p)
  {
    assert RecordInv(w, user);
  }

  /** The same from any point of a run to its end. */
  lemma {:induction false} KeysMove(events: seq<Event>, k: nat, early: World, w: World, user: Id, p: Id)
    requires k <= |events| && Runs(events, w) && Runs(events[..k], early)
    ensures forall x :: x in early.stamps ==> x in w.stamps && w.stamps[x] == early.stamps[x]
    ensures user in w.records && w.records[user].key in early.stamps ==>
              user in early.records && early.records[user].key == w.records[user].key
    ensures SameSubmission(early, w, p)
  {
    if k == |events| {
      assert events[..k] == events;
    } else {
      var n := |events| - 1;
      var front, prior := events[..n], After(events[..n]).value;
      PrefixOfFront(events, k);
      KeysMove(front, k, early, prior, user, p);
      RunKeepsInv(front, prior);
      StepMovesKeys(prior, events[n].action, events[n].now, user, p);
    }
  }

  /** Event `j`: a submission of the user creates or rewrites its record under the given key. */
  ghost predicate WrittenAt(events: seq<Event>, j: nat, user: Id, key: Id) {
    j < |events| && events[j].action.Submit? && events[j].action.user == user && events[j].action.key == key
  }

  /** A key that exists at the end and did not exist earlier was written by a submission in between. */
  lemma {:induction false} NewKeyIsWritten(events: seq<Event>, k: nat, early: World, w: World, key: Id)
    requires k <= |events| && Runs(events, w) && Runs(events[..k], early)
    requires key in w.stamps && key !in early.stamps
    ensures exists j: nat :: k <= j && WrittenAt(events, j, w.stamps[key].user, key)
  {
    assert events[..|events|] == events;
    if k < |events| {
      var n := |events| - 1;
      var front, prior := events[..n], After(events[..n]).value;
      PrefixOfFront(events, k);
      if key in prior.stamps {
        NewKeyIsWritten(front, k, early, prior, key);
        RunKeepsInv(front, prior);
        StepMovesKeys(prior, events[n].action, events[n].now, 0, 0);
        var j: nat :| k <= j && WrittenAt(front, j, prior.stamps[key].user, key);
        assert WrittenAt(events, j, w.stamps[key].user, key);
      } else {
        assert WrittenAt(events, n, w.stamps[key].user, key);
      }
    }
  }

  /** A key that has been delivered or marked by some event exists from then on. */
  lemma EventKeyExists(events: seq<Event>, i: nat, q: Id, key: Id, k: nat, early: World)
    requires DeliveredAt(events, i, q, key) || MarkedAt(events, i, q, key)
    requires i < k <= |events| && After(events).Some? && Runs(events[..k], early)
    ensures key in early.stamps
  {
    var before := After(events[..i]).value;
    RunKeepsInv(events[..i], before);
    assert ProcessInv(before, q);
    assert events[..k][..i] == events[..i];
    KeysMove(events[..k], i, before, early, 0, 0);
  }

  /** A submission that is not refused remembers the key of the record it leaves. */
  lemma SubmitRemembersKey(events: seq<Event>, early: World, p: Id)
    requires events != [] && Runs(events, early)
    requires events[|events| - 1].action.Submit? && events[|events| - 1].action.p == p
    ensures p in early.processes
    ensures !early.processes[p].Refused? ==>
              var user := early.processes[p].user;
              user in early.records && early.processes[p].sent.key == early.records[user].key
  {
  }

  /**
   A submission that skips the send reads the record again without asking which key it carries.  The
   provider has accepted the key it returns exactly when the record still carries the one it had when the
   submission was prepared, or a mail under the new key has reached the provider since; the record says
   so exactly when, in the same case, the new key has been marked since.  The key is another one exactly
   when a later submission of the same user has rewritten the record.
   */
  lemma ReturnAfterSkip(events: seq<Event>, w: World, p: Id, k: nat)
    requires Runs(events, w) && k < |events| && events[k].action.Submit? && events[k].action.p == p
    requires p in w.processes && w.processes[p].Ready? && w.processes[p].sent.skip
    requires Readback(w.records, w.processes[p].user, w.processes[p].sent, false).Ok?
    ensures var sent := w.processes[p].sent;
            var r := Readback(w.records, w.processes[p].user, sent, false).value;
            && (r.key in w.accepted <==> r.key == sent.key || exists i: nat, q :: k < i && DeliveredAt(events, i, q, r.key))
            && (r.acceptedAt.Some? <==> r.key == sent.key || exists i: nat, q :: k < i && MarkedAt(events, i, q, r.key))
            && (r.key != sent.key <==> exists j: nat :: k < j && WrittenAt(events, j, w.processes[p].user, r.key))
  {
    ReturnedRecord(events, w, p);
    SkipAccepted(events, w, p, k);
    SkipMarked(events, w, p, k);
    SkipRewritten(events, w, p, k);
  }

  /** The point at which a submission that skips the send reads the record again and finds it. */
  ghost predicate ReadsAgain(events: seq<Event>, w: World, p: Id, k: nat) {
    && Runs(events, w) && k < |events| && events[k].action.Submit? && events[k].action.p == p
    && p in w.processes && w.processes[p].Ready? && w.processes[p].sent.skip && w.processes[p].user in w.records
  }

  lemma ReturnedRecord(events: seq<Event>, w: World, p: Id)
    requires Runs(events, w) && p in w.processes && w.processes[p].Ready? && w.processes[p].user in w.records
    ensures var r := w.records[w.processes[p].user];
            && (r.acceptedAt.Some? <==> r.key in w.marked)
            && (w.processes[p].sent.skip && r.key == w.processes[p].sent.key ==> r.key in w.marked)
            && (r.key in w.marked ==> r.key in w.accepted)
            && r.key in w.stamps && w.stamps[r.key].user == w.processes[p].user
  {
    RunKeepsInv(events, w);
    assert ProcessInv(w, p) && RecordInv(w, w.processes[p].user);
  }

  lemma SkipAccepted(events: seq<Event>, w: World, p: Id, k: nat)
    requires ReadsAgain(events, w, p, k)
    ensures var key := w.records[w.processes[p].user].key;
            key in w.accepted <==> key == w.processes[p].sent.key || exists i: nat, q :: k < i && DeliveredAt(events, i, q, key)
  {
    var key := w.records[w.processes[p].user].key;
    ReturnedRecord(events, w, p);
    AcceptedIsDelivered(events, w, key);
    var early := KeptSince(events, w, p, k);
    forall i: nat, q | DeliveredAt(events, i, q, key) ensures k < i || key == w.processes[p].sent.key {
      if i <= k {
        EventKeyExists(events, i, q, key, k + 1, early);
      }
    }
  }

  lemma SkipMarked(events: seq<Event>, w: World, p: Id, k: nat)
    requires ReadsAgain(events, w, p, k)
    ensures var key := w.records[w.processes[p].user].key;
            key in w.marked <==> key == w.processes[p].sent.key || exists i: nat, q :: k < i && MarkedAt(events, i, q, key)
  {
    var key := w.records[w.processes[p].user].key;
    ReturnedRecord(events, w, p);
    MarkedIsMark(events, w, key);
    var early := KeptSince(events, w, p, k);
    forall i: nat, q | MarkedAt(events, i, q, key) ensures k < i || key == w.processes[p].sent.key {
      if i <= k {
        EventKeyExists(events, i, q, key, k + 1, early);
      }
    }
  }

  lemma SkipRewritten(events: seq<Event>, w: World, p: Id, k: nat)
    requires ReadsAgain(events, w, p, k)
    ensures var key := w.records[w.processes[p].user].key;
            key != w.processes[p].sent.key <==> exists j: nat :: k < j && WrittenAt(events, j, w.processes[p].user, key)
  {
    var user := w.processes[p].user;
    var key := w.records[user].key;
    ReturnedRecord(events, w, p);
    var early := KeptSince(events, w, p, k);
    if key !in early.stamps {
      NewKeyIsWritten(events, k + 1, early, w, key);
    }
    forall j: nat | k < j && WrittenAt(events, j, user, key) ensures key !in early.stamps {
      WrittenKeysAreNew(events, j, user, key, k + 1, early);
    }
  }

  lemma WrittenKeysAreNew(events: seq<Event>, j: nat, user: Id, key: Id, k: nat, early: World)
    requires k <= j && WrittenAt(events, j, user, key) && After(events).Some? && Runs(events[..k], early)
    ensures key !in early.stamps
  {
    PrefixRuns(events, j + 1);
    assert events[..j + 1][..j] == events[..j];
    var before := After(events[..j]).value;
    assert events[..j][..k] == events[..k];
    KeysMove(events[..j], k, early, before, 0, 0);
  }

  /** A key the record already had when the submission was prepared is the key it was prepared with. */
  lemma KeptSince(events: seq<Event>, w: World, p: Id, k: nat) returns (early: World)
    requires Runs(events, w) && k < |events| && events[k].action.Submit? && events[k].action.p == p
    requires p in w.processes && w.processes[p].Ready? && w.processes[p].user in w.records
    ensures Runs(events[..k + 1], early)
    ensures w.records[w.processes[p].user].key in early.stamps <==> w.records[w.processes[p].user].key == w.processes[p].sent.key
  {
    PrefixRuns(events, k + 1);
    early := After(events[..k + 1]).value;
    KeysMove(events, k + 1, early, w, w.processes[p].user, p);
    SubmitRemembersKey(events[..k + 1], early, p);
    RunKeepsInv(events[..k + 1], early);
    assert RecordInv(early, w.processes[p].user);
  }

  lemma OneMore(events: seq<Event>, w: World, e: Event) returns (more: seq<Event>, next: World)
    requires Runs(events, w) && Enabled(w, e.action)
    ensures more == events + [e] && next == Step(w, e.action, e.now) && Runs(more, next)
  {
    more, next := events + [e], Step(w, e.action, e.now);
    assert more[..|events|] == events;
  }

  /**
   The condition matters: a second submission of an accepted address skips the send, the address is then
   changed by a third, and the second returns the rewritten record, whose key nobody has accepted.
   */
  lemma SkipCanReturnUnaccepted() returns (events: seq<Event>, w: World, p: Id)
    ensures Runs(events, w) && p in w.processes && w.processes[p].Finished?
    ensures w.processes[p].sent.skip && w.processes[p].outcome.Ok?
    ensures w.processes[p].outcome.value.acceptedAt.None? && w.processes[p].outcome.value.key !in w.accepted
  {
    var m := Some(Mailer(1, 2, 3));
    events, w := FirstAccepted(m);
    events, w := OneMore(events, w, Event(Submit(2, 7, "a", m, 20, 200), 3));
    assert w.processes[2] == Ready(7, Snapshot(w.records[7], true));
    events, w := OneMore(events, w, Event(Submit(3, 7, "b", m, 30, 300), 4));
    assert w.records[7].key == 300 && w.records[7].pk == 10 && w.accepted == {100};
    events, w := OneMore(events, w, Event(Finish(2), 5));
    p := 2;
  }

  lemma FirstSubmitted(m: Option<Mailer>) returns (events: seq<Event>, w: World)
    requires m.Some?
    ensures Runs(events, w)
    ensures 7 in w.records && w.records[7].pk == 10 && w.records[7].address == "a"
    ensures w.processes == map[1 := Ready(7, Snapshot(w.records[7], false))]
    ensures w.accepted == {} && (forall k :: k in w.stamps <==> k == 100) && w.records[7].key == 100
  {
    events, w := [], Start();
    events, w := OneMore(events, w, Event(Submit(1, 7, "a", m, 10, 100), 0));
  }

  lemma FirstAccepted(m: Option<Mailer>) returns (events: seq<Event>, w: World)
    requires m.Some?
    ensures Runs(events, w)
    ensures 7 in w.records && w.records[7].pk == 10 && w.records[7].address == "a" && w.records[7].acceptedAt.Some?
    ensures w.accepted == {100} && (forall k :: k in w.stamps <==> k == 100) && (forall p :: p in w.processes <==> p == 1)
  {
    events, w := FirstSubmitted(m);
    events, w := OneMore(events, w, Event(Deliver(1, true, true), 1));
    assert w.accepted == {100};
    events, w := OneMore(events, w, Event(Mark(1), 2));
  }
}
