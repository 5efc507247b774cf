/** What the outbox does with one entry, field by field, and exactly when it can be claimed again. */
module OutboxLaws {
  import opened Core
  import opened PlanningOutbox

  /** Seconds until the next attempt, by the attempts made so far; after the eighth there is no other. */
  function DelayAfter(attempts: nat): nat {
    match attempts
    case 0 => 1
    case 1 => 1
    case 2 => 2
    case 3 => 4
    case 4 => 8
    case 5 => 16
    case 6 => 32
    case 7 => 64
    case _ => 0
  }

  predicate IsClaimable(e: Entry, now: Time) {
    match e.status
    case Pending => e.availableAt <= now
    case Processing => e.leaseExpiresAt.Some? && e.leaseExpiresAt.value < now
    case Failed => e.availableAt <= now && e.attempts < 8
    case Processed => false
  }

  lemma ClaimableExactly(e: Entry, now: Time)
    ensures Eligible(e, now) <==> IsClaimable(e, now)
  {
  }

  /** A claim counts an attempt and leases the entry for two minutes. */
  lemma ClaimTable(e: Entry, now: Time)
    ensures var c := Claimed(e, now);
            && c.status == Processing && c.attempts == e.attempts + 1 && c.leaseExpiresAt == Some(now + 120 * 1_000_000)
            && c.availableAt == e.availableAt && c.createdAt == e.createdAt && c.processedAt == e.processedAt
    ensures forall later :: IsClaimable(Claimed(e, now), later) <==> now + 120 * 1_000_000 < later
  {
  }

  lemma DelayExactly(attempts: nat)
    requires attempts < 8
    ensures BackoffSeconds(attempts) == DelayAfter(attempts)
  {
    assert Pow2(2) == 4 && Pow2(4) == 4 * Pow2(2) && Pow2(6) == 4 * Pow2(4);
    assert Pow2(3) == 2 * Pow2(2) && Pow2(5) == 2 * Pow2(4);
  }

  /** Asked for more attempts than there are, the delay stops at five minutes. */
  lemma DelayIsCapped(attempts: nat)
    requires attempts >= 10
    ensures BackoffSeconds(attempts) == 5 * 60
  {
    BackoffShape(attempts, attempts);
  }

  /** Success is final; a failure puts the entry off by the delay of its attempts. */
  lemma FinalizeTable(e: Entry, success: bool, attempts: nat, now: Time)
    ensures var f := Finalized(e, success, attempts, now);
            && f.status == (if success then Processed else Failed) && f.leaseExpiresAt.None?
            && f.processedAt == (if success then Some(now) else e.processedAt)
            && f.availableAt == (if success then e.availableAt else now + DelayAfter(attempts) * 1_000_000)
            && f.attempts == e.attempts && f.createdAt == e.createdAt
  {
    if attempts < 8 {
      DelayExactly(attempts);
    }
  }

  /** A failed entry with attempts left can be claimed again exactly once its delay has passed, one without never. */
  lemma RetriedExactly(e: Entry, attempts: nat, now: Time, later: Time)
    ensures Eligible(Finalized(e, false, attempts, now), later) <==>
            e.attempts < 8 && now + DelayAfter(attempts) * 1_000_000 <= later
    ensures !Eligible(Finalized(e, true, attempts, now), later)
  {
    FinalizeTable(e, false, attempts, now);
  }

  /** An entry in processing is either leased or can be taken over. */
  lemma LeasedOrClaimable(e: Entry, now: Time)
    ensures LiveLease(e, now) <==> e.status == Processing && !IsClaimable(e, now)
  {
  }

  predicate ComesLater(x: Entry, y: Entry) {
    y.availableAt < x.availableAt || (x.availableAt == y.availableAt && y.createdAt < x.createdAt)
  }

  /** A batch is taken in the order entries became available, the older first among those that did together. */
  lemma SoonerExactly(entries: Entries, a: Id, b: Id)
    ensures Sooner(entries, a, b) <==> a in entries && b in entries && !ComesLater(entries[a], entries[b])
  {
  }

  function DeliveredOf(ids: seq<Id>, delivered: Id -> bool): set<Id> { set i | i in ids && delivered(i) }

  lemma OneMoreDelivered(front: seq<Id>, last: Id, delivered: Id -> bool)
    requires last !in front
    ensures |DeliveredOf(front + [last], delivered)| == |DeliveredOf(front, delivered)| + if delivered(last) then 1 else 0
  {
    var early := DeliveredOf(front, delivered);
    if delivered(last) {
      assert DeliveredOf(front + [last], delivered) == early + {last};
    } else {
      assert DeliveredOf(front + [last], delivered) == early;
    }
  }

  /** The number a batch returns is of the entries it delivered. */
  lemma {:induction false} SuccessesExactly(ids: seq<Id>, delivered: Id -> bool)
    requires forall i, j :: 0 <= i < j < |ids| ==> ids[i] != ids[j]
    ensures Successes(ids, delivered) == |DeliveredOf(ids, delivered)|
  {
    if ids == [] {
      assert DeliveredOf(ids, delivered) == {};
    } else {
      var n := |ids| - 1;
      SuccessesExactly(ids[..n], delivered);
      OneMoreDelivered(ids[..n], ids[n], delivered);
      assert ids == ids[..n] + [ids[n]];
    }
  }

  /** What each step does to the entries and to what the workers hold. */
  lemma StepTable(w: World, e: Event)
    requires Enabled(w, e)
    ensures var v := Step(w, e);
            && v.clock == e.now
            && match e.action {
                 case Enqueue(id) =>
                   && v.entries == w.entries[id := Entry(Pending, 0, e.now, e.now, None, None)]
                   && v.held == w.held && v.claims == w.claims
                 case Claim(worker, id) =>
                   && v.entries == w.entries[id := Claimed(w.entries[id], e.now)] && v.claims == w.claims + [id]
                   && v.held == w.held[worker := Held(id, w.entries[id].attempts + 1, e.now + 120 * 1_000_000)]
                 case Finalize(worker, success) =>
                   var h := w.held[worker];
                   && v.entries == w.entries[h.id := Finalized(w.entries[h.id], success, h.attempts, e.now)]
                   && v.held == w.held - {worker} && v.claims == w.claims
               }
  {
  }
}
