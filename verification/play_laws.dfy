/** What a request for store access freezes and returns, field by field, and that every mail sent is about the address asked for. */
module PlayLaws {
  import opened Core
  import opened PlayStore

  const DAY: Time := 24 * 60 * 60 * 1_000_000

  // ----- preparing -----

  /** The frozen mail: to the operator, about the address, telling a first request, a correction and a repetition apart. */
  predicate IsAbout(mail: Mail, m: Mailer, held: Option<Record>, address: string, now: Time) {
    && mail.to == m.operator && mail.from == m.from && mail.establishment == m.establishment
    && mail.address == address && mail.on == now
    && mail.subject == (if held.None? then Request else if held.value.address == address then Retransmission else Correction)
  }

  /** A new key and a new mail, nothing accepted yet; an existing record keeps its identity. */
  predicate IsRenewed(held: Option<Record>, r: Record, address: string, m: Mailer, pk: Id, key: Id, now: Time) {
    && r.pk == (if held.Some? then held.value.pk else pk)
    && r.address == address && r.key == key && r.keyCreatedAt == now && r.acceptedAt.None?
    && (r.correction <==> held.Some? && held.value.address != address)
    && IsAbout(r.mail, m, held, address, now)
  }

  /** The same address, accepted already or under a key less than a day old, is left as it is. */
  predicate Stands(held: Option<Record>, address: string, now: Time) {
    held.Some? && held.value.address == address && (held.value.acceptedAt.Some? || now < held.value.keyCreatedAt + DAY)
  }

  lemma PrepareTable(held: Option<Record>, address: string, m: Option<Mailer>, pk: Id, key: Id, now: Time)
    ensures var r := PreparedRecord(held, address, m, pk, key, now);
            if address == "" then r == Err(Unavailable)
            else if Stands(held, address, now) then r == Ok(held.value)
            else if m.None? then r == Err(Unavailable)
            else r.Ok? && IsRenewed(held, r.value, address, m.value, pk, key, now)
  {
  }

  /** A submission remembers the record it left, and sends nothing exactly for an accepted address. */
  lemma PreparedTable(held: Option<Record>, address: string, m: Option<Mailer>, pk: Id, key: Id, now: Time)
    requires PreparedRecord(held, address, m, pk, key, now).Ok?
    ensures var r := PreparedRecord(held, address, m, pk, key, now).value;
            var sent := Snapshot(r, Skips(held, address));
            && sent.pk == r.pk && sent.key == r.key && sent.mail == r.mail
            && (sent.skip <==> held.Some? && held.value.address == address && held.value.acceptedAt.Some?)
  {
  }

  /** What a submission returns, and which error it raises. */
  lemma ReadbackTable(records: Records, user: Id, sent: Prepared, updated: bool)
    ensures var r := Readback(records, user, sent, updated);
            var found := user in records && records[user].pk == sent.pk;
            if found && (sent.skip || (updated && records[user].key == sent.key)) then r == Ok(records[user])
            else r == Err(if sent.skip then Missing else Superseded)
  {
  }

  // ----- one step -----

  predicate OneMoreSend(v: World, w: World, send: Send) { w.sends == v.sends + [send] }

  /** A delivery sends the frozen mail under its key; only an answer lets the submission go on. */
  lemma DeliverTable(w: World, p: Id, reached: bool, confirmed: bool, now: Time)
    requires Enabled(w, Deliver(p, reached, confirmed)) && p in w.preparedAt
    ensures var before, v := w.processes[p], Step(w, Deliver(p, reached, confirmed), now);
            && OneMoreSend(w, v, Send(before.sent.key, before.sent.mail, w.preparedAt[p]))
            && (forall k :: k in v.accepted <==> k in w.accepted || (reached && k == before.sent.key))
            && (if confirmed then v.processes[p] == Delivered(before.user, before.sent)
                else v.processes[p] == Finished(before.user, before.sent, Err(NotAccepted)))
            && v.records == w.records && v.marked == w.marked && v.stamps == w.stamps
            && OthersStay(w, v, p)
  {
  }

  ghost predicate OthersStay(w: World, v: World, p: Id) {
    forall q: Id :: q != p ==> (q in v.processes <==> q in w.processes) && (q in w.processes ==> v.processes[q] == w.processes[q])
  }

  ghost predicate OtherRecordsStay(w: World, v: World, user: Id) {
    forall u: Id :: u != user ==> (u in v.records <==> u in w.records) && (u in w.records ==> v.records[u] == w.records[u])
  }

  /** Marking writes the acceptance into the record that still carries the sent key, and nowhere else. */
  lemma MarkTable(w: World, p: Id, now: Time)
    requires Enabled(w, Mark(p))
    ensures var s, v := w.processes[p], Step(w, Mark(p), now);
            var carries := s.user in w.records && w.records[s.user].pk == s.sent.pk && w.records[s.user].key == s.sent.key;
            && v.processes[p] == Marked(s.user, s.sent, carries)
            && (if carries then s.user in v.records && v.records[s.user] == w.records[s.user].(acceptedAt := Some(now))
                else v.records == w.records)
            && (forall k :: k in v.marked <==> k in w.marked || (carries && k == s.sent.key))
            && v.sends == w.sends && v.accepted == w.accepted && v.stamps == w.stamps
            && OthersStay(w, v, p) && OtherRecordsStay(w, v, s.user)
  {
  }

  /** Reading back changes nothing but the submission; a removal takes the record and nothing else. */
  lemma FinishTable(w: World, p: Id, now: Time)
    requires Enabled(w, Finish(p))
    ensures var s, v := w.processes[p], Step(w, Finish(p), now);
            && v.processes[p] == Finished(s.user, s.sent, Readback(w.records, s.user, s.sent, s.Marked? && s.updated))
            && v == w.(processes := v.processes) && OthersStay(w, v, p)
  {
  }

  lemma RemoveTable(w: World, user: Id, now: Time)
    ensures var v := Step(w, Remove(user), now);
            user !in v.records && OtherRecordsStay(w, v, user) && v == w.(records := v.records)
  {
  }

  // ----- every run -----

  /** A stored mail is about the address of its record, and says truly whether it corrects another. */
  ghost predicate Addressed(r: Record) {
    && r.mail.address == r.address && r.address != ""
    && (r.correction <==> r.mail.subject == Correction) && r.mail.on == r.keyCreatedAt
  }

  ghost predicate AllAddressed(w: World) {
    forall user: Id :: user in w.records ==> Addressed(w.records[user])
  }

  lemma StepKeepsAddressed(w: World, a: Action, now: Time)
    requires Enabled(w, a) && AllAddressed(w)
    ensures AllAddressed(Step(w, a, now))
  {
    if a.Submit? {
      PrepareTable(Lookup(w.records, a.user), a.address, a.mailer, a.pk, a.key, now);
    }
  }

  /** In every interleaving every stored mail is about the address of its record. */
  lemma {:induction false} RecordsAreAddressed(events: seq<Event>, w: World)
    requires Runs(events, w)
    ensures AllAddressed(w)
  {
    if events != [] {
      var n := |events| - 1;
      RecordsAreAddressed(events[..n], After(events[..n]).value);
      StepKeepsAddressed(After(events[..n]).value, events[n].action, events[n].now);
    }
  }

  ghost predicate AsksFor(events: seq<Event>, k: nat, p: Id, address: string) {
    k < |events| && events[k].action.Submit? && events[k].action.p == p && events[k].action.address == address
  }

  /** What a submission sends is a mail about the address it asked for, whatever happens in between. */
  lemma {:induction false} SentForItsAddress(events: seq<Event>, w: World, p: Id)
    requires Runs(events, w) && p in w.processes && !w.processes[p].Refused?
    ensures exists k: nat :: AsksFor(events, k, p, w.processes[p].sent.mail.address)
  {
    var n := |events| - 1;
    var front, last := events[..n], events[n];
    var prior := After(front).value;
    if p in prior.processes {
      StepMovesKeysOnce(front, prior, last, p);
      SentForItsAddress(front, prior, p);
      var k: nat :| AsksFor(front, k, p, prior.processes[p].sent.mail.address);
      assert AsksFor(events, k, p, w.processes[p].sent.mail.address);
    } else {
      RecordsAreAddressed(front, prior);
      PrepareTable(Lookup(prior.records, last.action.user), last.action.address, last.action.mailer,
                   last.action.pk, last.action.key, last.now);
      assert AsksFor(events, n, p, w.processes[p].sent.mail.address);
    }
  }

  lemma StepMovesKeysOnce(front: seq<Event>, prior: World, last: Event, p: Id)
    requires Runs(front, prior) && Enabled(prior, last.action) && p in prior.processes
    ensures SameSubmission(prior, Step(prior, last.action, last.now), p)
  {
    RunKeepsInv(front, prior);
    StepMovesKeys(prior, last.action, last.now, 0, p);
  }

  /** Every mail that is ever sent is about an address that some submission asked for. */
  lemma {:induction false} MailsAreAsked(events: seq<Event>, w: World, i: nat)
    requires Runs(events, w) && i < |w.sends|
    ensures exists k: nat, p: Id :: AsksFor(events, k, p, w.sends[i].mail.address)
  {
    var n := |events| - 1;
    var front, last := events[..n], events[n];
    var prior := After(front).value;
    if i < |prior.sends| {
      MailsAreAsked(front, prior, i);
      var k: nat, p: Id :| AsksFor(front, k, p, prior.sends[i].mail.address);
      assert AsksFor(events, k, p, w.sends[i].mail.address);
    } else {
      var p := last.action.p;
      SentForItsAddress(front, prior, p);
      var k: nat :| AsksFor(front, k, p, prior.processes[p].sent.mail.address);
      assert AsksFor(events, k, p, w.sends[i].mail.address);
    }
  }
}
