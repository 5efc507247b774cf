/** The outbox of planning effects: entries are leased to workers, retried with a backoff, and given up. */
module PlanningOutbox {
  import opened Core

  const MAX_ATTEMPTS := 8

  /** One second, in microseconds. */
  const SECOND: Time := 1_000_000

  const LEASE_TTL: Time := 120 * SECOND

  const MAX_BACKOFF := 300

  datatype EntryStatus = Pending | Processing | Processed | Failed

  datatype Entry = Entry(status: EntryStatus, attempts: nat, availableAt: Time, createdAt: Time,
                         leaseExpiresAt: Option<Time>, processedAt: Option<Time>)

  type Entries = map<Id, Entry>

  // ----- backoff -----

  function Pow2(n: nat): (p: nat)
    ensures p >= 1
  {
    if n == 0 then 1 else 2 * Pow2(n - 1)
  }

  function BackoffSeconds(attempts: nat): nat { Min(Pow2(Max(attempts - 1, 0)), MAX_BACKOFF) }

  lemma {:induction false} Pow2Grows(m: nat, n: nat)
    requires m <= n
    ensures Pow2(m) <= Pow2(n)
  {
    if m < n {
      Pow2Grows(m, n - 1);
    }
  }

  /** The delay never shrinks, doubles with every attempt that can still be retried, and stays within its cap. */
  lemma BackoffShape(a: nat, b: nat)
    requires 1 <= a <= b
    ensures 1 <= BackoffSeconds(a) <= BackoffSeconds(b) <= MAX_BACKOFF
    ensures a < MAX_ATTEMPTS ==> BackoffSeconds(a + 1) == 2 * BackoffSeconds(a)
    ensures a >= 10 ==> BackoffSeconds(a) == MAX_BACKOFF
  {
    Pow2Grows(a - 1, b - 1);
    assert Pow2(7) == 128 && Pow2(9) == 512 by {
      assert Pow2(2) == 4 && Pow2(4) == 4 * Pow2(2) && Pow2(6) == 4 * Pow2(4) && Pow2(8) == 4 * Pow2(6);
    }
    if a < MAX_ATTEMPTS {
      Pow2Grows(a, 7);
    }
    if a >= 10 {
      Pow2Grows(9, a - 1);
    }
  }

  // ----- the two transactions -----

  predicate LiveLease(e: Entry, now: Time) {
    e.status == Processing && (e.leaseExpiresAt.None? || e.leaseExpiresAt.value >= now)
  }

  predicate Eligible(e: Entry, now: Time) {
    || (e.status == Pending && e.availableAt <= now)
    || (e.status == Processing && e.leaseExpiresAt.Some? && e.leaseExpiresAt.value < now)
    || (e.status == Failed && e.availableAt <= now && e.attempts < MAX_ATTEMPTS)
  }

  function Claimed(e: Entry, now: Time): Entry {
    e.(status := Processing, attempts := e.attempts + 1, leaseExpiresAt := Some(now + LEASE_TTL))
  }

  /** `attempts` is the count the worker read when it claimed the entry. */
  function Finalized(e: Entry, success: bool, attempts: nat, now: Time): Entry {
    if success then e.(status := Processed, processedAt := Some(now), leaseExpiresAt := None)
    else
      e.(status := Failed, leaseExpiresAt := None,
         availableAt := if attempts >= MAX_ATTEMPTS then now else now + BackoffSeconds(attempts) * SECOND)
  }

  function AfterBatch(e: Entry, now: Time, delivered: bool, at: Time): Entry {
    Finalized(Claimed(e, now), delivered, e.attempts + 1, at)
  }

  predicate Sooner(entries: Entries, a: Id, b: Id) {
    && a in entries && b in entries
    && (entries[a].availableAt < entries[b].availableAt
        || (entries[a].availableAt == entries[b].availableAt && entries[a].createdAt <= entries[b].createdAt))
  }

  /** A batch being finalized: its first `k` entries are, the others are still leased. */
  ghost predicate SettledUpTo(before: Entries, entries: Entries, claimed: seq<Id>, k: nat, now: Time,
                              delivered: Id -> bool, clock: Id -> Time) {
    && k <= |claimed|
    && (forall i :: i in entries <==> i in before)
    && (forall j :: 0 <= j < |claimed| ==> claimed[j] in before)
    && (forall j :: 0 <= j < |claimed| ==>
          entries[claimed[j]] == if j < k then AfterBatch(before[claimed[j]], now, delivered(claimed[j]), clock(claimed[j]))
                                 else Claimed(before[claimed[j]], now))
    && (forall i :: i in before && i !in claimed ==> entries[i] == before[i])
  }

  lemma SettlesNext(before: Entries, entries: Entries, claimed: seq<Id>, k: nat, now: Time,
                    delivered: Id -> bool, clock: Id -> Time)
    requires k < |claimed| && SettledUpTo(before, entries, claimed, k, now, delivered, clock)
    requires forall i, j :: 0 <= i < j < |claimed| ==> claimed[i] != claimed[j]
    ensures var id := claimed[k];
            SettledUpTo(before, entries[id := Finalized(entries[id], delivered(id), entries[id].attempts, clock(id))],
                        claimed, k + 1, now, delivered, clock)
  {
  }

  class Outbox {
    var entries: Entries

    constructor ()
      ensures entries == map[]
    {
      entries := map[];
    }

    /** The earliest of a set of entries. */
    method Earliest(ids: set<Id>) returns (first: Id)
      requires ids != {} && forall i :: i in ids ==> i in entries
      ensures first in ids && forall i :: i in ids ==> Sooner(entries, first, i)
    {
      first :| first in ids;
      var rest := ids - {first};
      while rest != {}
        invariant rest <= ids && first in ids
        invariant forall i :: i in ids && i !in rest ==> Sooner(entries, first, i)
        decreases |rest|
      {
        var i :| i in rest;
        rest := rest - {i};
        if !Sooner(entries, first, i) {
          assert Sooner(entries, i, first) && Sooner(entries, i, i);
          first := i;
        }
      }
    }

    /** Leases the earliest eligible entries, no more than a batch of them. */
    method ClaimEntries(batchSize: nat, now: Time) returns (claimed: seq<Id>)
      modifies this
      ensures forall i, j :: 0 <= i < j < |claimed| ==> claimed[i] != claimed[j]
      ensures forall i :: i in claimed ==> i in old(entries) && Eligible(old(entries)[i], now)
      ensures |claimed| <= batchSize
      ensures forall i, j :: i in old(entries) && Eligible(old(entries)[i], now) && i !in claimed && j in claimed ==>
                Sooner(old(entries), j, i)
      ensures (exists i :: i in old(entries) && Eligible(old(entries)[i], now) && i !in claimed) ==> |claimed| == batchSize
      ensures entries == map i | i in old(entries) :: if i in claimed then Claimed(old(entries)[i], now) else old(entries)[i]
    {
      var before := entries;
      var eligible := set i | i in before && Eligible(before[i], now);
      var rest := eligible;
      claimed := [];
      while rest != {} && |claimed| < batchSize
        invariant rest <= eligible && |claimed| <= batchSize
        invariant forall i :: i in eligible <==> i in rest || i in claimed
        invariant forall i :: i in claimed ==> i !in rest
        invariant forall i, j :: 0 <= i < j < |claimed| ==> claimed[i] != claimed[j]
        invariant forall i, j :: i in rest && j in claimed ==> Sooner(before, j, i)
        invariant entries == map i | i in before :: if i in claimed then Claimed(before[i], now) else before[i]
        decreases |rest|
      {
        assert forall i :: i in rest ==> entries[i] == before[i];
        var first := Earliest(rest);
        assert forall i :: i in rest ==> Sooner(before, first, i);
        entries := entries[first := Claimed(entries[first], now)];
        claimed, rest := claimed + [first], rest - {first};
      }
    }

    /** One worker alone: every claimed entry is delivered or not, and finalized accordingly. */
    method ProcessBatch(batchSize: nat, now: Time, delivered: Id -> bool, clock: Id -> Time)
      returns (processed: nat, claimed: seq<Id>)
      modifies this
      ensures |claimed| <= batchSize && forall i :: i in claimed ==> i in old(entries) && Eligible(old(entries)[i], now)
      ensures entries == map i | i in old(entries) ::
                           if i in claimed
                           then AfterBatch(old(entries)[i], now, delivered(i), clock(i)) else old(entries)[i]
      ensures processed == Successes(claimed, delivered)
    {
      var before := entries;
      claimed := ClaimEntries(batchSize, now);
      processed := 0;
      for k := 0 to |claimed|
        invariant SettledUpTo(before, entries, claimed, k, now, delivered, clock)
        invariant processed == Successes(claimed[..k], delivered)
      {
        var id := claimed[k];
        assert claimed[..k + 1][..k] == claimed[..k];
        SettlesNext(before, entries, claimed, k, now, delivered, clock);
        FinalizeEntry(id, entries[id].attempts, delivered(id), clock(id));
        if delivered(id) {
          processed := processed + 1;
        }
      }
      assert claimed[..|claimed|] == claimed;
    }

    /** Not fenced: it writes whatever entry it is handed, whoever holds the lease by now. */
    method FinalizeEntry(id: Id, attempts: nat, success: bool, now: Time)
      requires id in entries
      modifies this
      ensures entries == old(entries)[id := Finalized(old(entries)[id], success, attempts, now)]
    {
      var e := entries[id];
      if success {
        entries := entries[id := e.(status := Processed, processedAt := Some(now), leaseExpiresAt := None)];
        return;
      }
      var availableAt := now;
      if attempts < MAX_ATTEMPTS {
        availableAt := now + BackoffSeconds(attempts) * SECOND;
      }
      entries := entries[id := e.(status := Failed, leaseExpiresAt := None, availableAt := availableAt)];
    }
  }

  function Successes(ids: seq<Id>, delivered: Id -> bool): nat {
    if ids == [] then 0 else Successes(ids[..|ids| - 1], delivered) + if delivered(ids[|ids| - 1]) then 1 else 0
  }

  // ----- interleaved workers -----

  /** An entry in a worker's memory, as it read it when it claimed it. */
  datatype Held = Held(id: Id, attempts: nat, leaseExpiresAt: Time)

  /** `claims` lists the claimed entries, `clock` is the latest instant read. */
  datatype World = World(entries: Entries, held: map<Id, Held>, claims: seq<Id>, clock: Time)

  /** A worker may also stop without finalizing; that is no step at all. */
  datatype Action =
    | Enqueue(id: Id)
    | Claim(worker: Id, id: Id)
    | Finalize(worker: Id, success: bool)

  datatype Event = Event(action: Action, now: Time)

  ghost predicate Enabled(w: World, e: Event) {
    && w.clock <= e.now
    && match e.action {
         case Enqueue(id) => id !in w.entries
         case Claim(worker, id) => worker !in w.held && id in w.entries && Eligible(w.entries[id], e.now)
         case Finalize(worker, _) => worker in w.held && w.held[worker].id in w.entries
       }
  }

  function Step(w: World, e: Event): World
    requires Enabled(w, e)
  {
    match e.action
    case Enqueue(id) => w.(entries := w.entries[id := Entry(Pending, 0, e.now, e.now, None, None)], clock := e.now)
    case Claim(worker, id) =>
      var claimed := Claimed(w.entries[id], e.now);
      World(w.entries[id := claimed], w.held[worker := Held(id, claimed.attempts, claimed.leaseExpiresAt.value)],
            w.claims + [id], e.now)
    case Finalize(worker, success) =>
      var h := w.held[worker];
      World(w.entries[h.id := Finalized(w.entries[h.id], success, h.attempts, e.now)], w.held - {worker}, w.claims, e.now)
  }

  ghost function After(events: seq<Event>): Option<World> {
    if events == [] then Some(World(map[], map[], [], 0))
    else
      var prior, last := After(events[..|events| - 1]), events[|events| - 1];
      if prior.Some? && Enabled(prior.value, last) then Some(Step(prior.value, last)) else None
  }

  function Count(ids: seq<Id>, id: Id): nat {
    if ids == [] then 0 else Count(ids[..|ids| - 1], id) + if ids[|ids| - 1] == id then 1 else 0
  }

  lemma CountAppend(ids: seq<Id>, x: Id, id: Id)
    ensures Count(ids + [x], id) == Count(ids, id) + if x == id then 1 else 0
  {
    assert (ids + [x])[..|ids|] == ids;
  }

  /** An entry is only claimed while nobody holds an unexpired lease on it. */
  lemma ClaimedWithoutLease(w: World, e: Event)
    requires Enabled(w, e) && e.action.Claim?
    ensures !LiveLease(w.entries[e.action.id], e.now)
    ensures var v := Step(w, e); LiveLease(v.entries[e.action.id], e.now) && v.entries[e.action.id].attempts == w.entries[e.action.id].attempts + 1
  {
  }

  ghost predicate Counted(w: World, id: Id) {
    Count(w.claims, id) == if id in w.entries then w.entries[id].attempts else 0
  }

  lemma StepKeepsCount(w: World, e: Event, id: Id)
    requires Enabled(w, e) && Counted(w, id)
    ensures Counted(Step(w, e), id)
  {
    if e.action.Claim? {
      CountAppend(w.claims, e.action.id, id);
    }
  }

  /** In every interleaving, the attempts of an entry are the times it was claimed. */
  lemma {:induction false} AttemptsCountClaims(events: seq<Event>, w: World, id: Id)
    requires After(events) == Some(w)
    ensures Count(w.claims, id) == if id in w.entries then w.entries[id].attempts else 0
  {
    if events != [] {
      var last := events[|events| - 1];
      var prior := After(events[..|events| - 1]).value;
      AttemptsCountClaims(events[..|events| - 1], prior, id);
      StepKeepsCount(prior, last, id);
    }
  }

  // ----- workers that finalize before their lease runs out -----

  /** No lease runs out in a worker's hands: whatever happens next, happens before any held lease expires. */
  ghost predicate TimelyStep(w: World, e: Event) {
    forall p :: p in w.held ==> e.now <= w.held[p].leaseExpiresAt
  }

  ghost predicate Timely(events: seq<Event>) {
    forall k :: 0 <= k < |events| && After(events[..k]).Some? ==> TimelyStep(After(events[..k]).value, events[k])
  }

  /** Who holds an entry holds its current lease, and the count never passes the limit. */
  ghost predicate HeldInv(w: World, worker: Id) {
    worker in w.held ==>
      var h := w.held[worker];
      && h.id in w.entries && w.entries[h.id].status == Processing
      && w.entries[h.id].attempts == h.attempts && w.entries[h.id].leaseExpiresAt == Some(h.leaseExpiresAt)
  }

  ghost predicate OneHolder(w: World, a: Id, b: Id) {
    a in w.held && b in w.held && w.held[a].id == w.held[b].id ==> a == b
  }

  ghost predicate EntryInv(w: World, id: Id) {
    id in w.entries ==>
      && w.entries[id].attempts <= MAX_ATTEMPTS
      && (w.entries[id].status == Pending ==> w.entries[id].attempts == 0)
  }

  /** An entry in processing is in the hands of a worker that holds its lease. */
  ghost predicate Guarded(w: World, id: Id) {
    id in w.entries && w.entries[id].status == Processing ==>
      exists p :: p in w.held && w.held[p].id == id && w.entries[id].leaseExpiresAt == Some(w.held[p].leaseExpiresAt)
  }

  ghost predicate TimelyInv(w: World) {
    && (forall p :: HeldInv(w, p)) && (forall a, b :: OneHolder(w, a, b))
    && (forall id :: EntryInv(w, id)) && (forall id :: Guarded(w, id))
  }

  /** So no expired lease is ever there to be taken over. */
  lemma NothingToTakeOver(w: World, e: Event)
    requires TimelyInv(w) && Enabled(w, e) && TimelyStep(w, e) && e.action.Claim?
    ensures w.entries[e.action.id].status != Processing
  {
    assert Guarded(w, e.action.id);
  }

  lemma StepKeepsGuards(w: World, e: Event, id: Id)
    requires TimelyInv(w) && Enabled(w, e) && TimelyStep(w, e)
    ensures Guarded(Step(w, e), id)
  {
    var v := Step(w, e);
    assert Guarded(w, id);
    if id in v.entries && v.entries[id].status == Processing {
      if e.action.Claim? && e.action.id == id {
        assert e.action.worker in v.held && v.held[e.action.worker].id == id;
      } else {
        var p :| p in w.held && w.held[p].id == id && w.entries[id].leaseExpiresAt == Some(w.held[p].leaseExpiresAt);
        assert p in v.held && v.held[p] == w.held[p];
      }
    }
  }

  lemma TimelyStepKeepsInv(w: World, e: Event)
    requires TimelyInv(w) && Enabled(w, e) && TimelyStep(w, e)
    ensures TimelyInv(Step(w, e))
    ensures forall id :: id in w.entries && w.entries[id].status == Processed ==>
              id in Step(w, e).entries && Step(w, e).entries[id] == w.entries[id]
  {
    var v := Step(w, e);
    assert e.action.Finalize? ==> HeldInv(w, e.action.worker);
    if e.action.Claim? {
      NothingToTakeOver(w, e);
    }
    forall id ensures Guarded(v, id) {
      StepKeepsGuards(w, e, id);
    }
    forall p ensures HeldInv(v, p) {
      assert HeldInv(w, p);
      assert e.action.Finalize? ==> OneHolder(w, p, e.action.worker);
    }
    forall a, b ensures OneHolder(v, a, b) {
      assert OneHolder(w, a, b) && HeldInv(w, a) && HeldInv(w, b);
    }
    forall id ensures EntryInv(v, id) {
      assert EntryInv(w, id);
    }
  }

  lemma TimelyPrefix(events: seq<Event>)
    requires events != [] && Timely(events)
    ensures Timely(events[..|events| - 1])
  {
    var early := events[..|events| - 1];
    forall k | 0 <= k < |early| && After(early[..k]).Some? ensures TimelyStep(After(early[..k]).value, early[k]) {
      assert early[..k] == events[..k];
    }
  }

  lemma {:induction false} TimelyRunKeepsInv(events: seq<Event>, w: World)
    requires After(events) == Some(w) && Timely(events)
    ensures TimelyInv(w)
  {
    if events != [] {
      var prior := After(events[..|events| - 1]).value;
      TimelyPrefix(events);
      TimelyRunKeepsInv(events[..|events| - 1], prior);
      TimelyStepKeepsInv(prior, events[|events| - 1]);
    }
  }

  /** No entry is tried more often than the limit. */
  lemma ClaimsAreLimited(events: seq<Event>, w: World, id: Id)
    requires After(events) == Some(w) && Timely(events)
    ensures Count(w.claims, id) <= MAX_ATTEMPTS
  {
    TimelyRunKeepsInv(events, w);
    AttemptsCountClaims(events, w, id);
    assert EntryInv(w, id);
  }

  function Others(ids: seq<Id>, id: Id): seq<Id> {
    if ids == [] then []
    else Others(ids[..|ids| - 1], id) + if ids[|ids| - 1] == id then [] else [ids[|ids| - 1]]
  }

  lemma {:induction false} OthersCount(ids: seq<Id>, id: Id, other: Id)
    ensures |ids| == Count(ids, id) + |Others(ids, id)|
    ensures Count(Others(ids, id), other) == if other == id then 0 else Count(ids, other)
    ensures forall x :: x in Others(ids, id) <==> x in ids && x != id
  {
    if ids != [] {
      var n := |ids| - 1;
      OthersCount(ids[..n], id, other);
      var prior, last := Others(ids[..n], id), ids[n];
      assert ids == ids[..n] + [last];
      if last == id {
        assert Others(ids, id) == prior;
      } else {
        assert Others(ids, id) == prior + [last];
        CountAppend(prior, last, other);
      }
    }
  }

  lemma {:induction false} BoundedTotal(claims: seq<Id>, ids: set<Id>)
    requires forall x :: x in claims ==> x in ids
    requires forall x :: x in ids ==> Count(claims, x) <= MAX_ATTEMPTS
    ensures |claims| <= MAX_ATTEMPTS * |ids|
    decreases |ids|
  {
    assert claims == [] || claims[0] in claims;
    if ids != {} {
      var id :| id in ids;
      forall x ensures Count(Others(claims, id), x) == if x == id then 0 else Count(claims, x) {
        OthersCount(claims, id, x);
      }
      OthersCount(claims, id, id);
      BoundedTotal(Others(claims, id), ids - {id});
    }
  }

  lemma {:induction false} ClaimsAreEntries(events: seq<Event>, w: World)
    requires After(events) == Some(w)
    ensures forall x :: x in w.claims ==> x in w.entries
  {
    if events != [] {
      ClaimsAreEntries(events[..|events| - 1], After(events[..|events| - 1]).value);
    }
  }

  /** So the workers come to an end: eight claims for every entry at most. */
  lemma AllClaimsAreLimited(events: seq<Event>, w: World)
    requires After(events) == Some(w) && Timely(events)
    ensures |w.claims| <= MAX_ATTEMPTS * |w.entries|
  {
    ClaimsAreEntries(events, w);
    var ids := w.entries.Keys;
    forall id | id in ids ensures Count(w.claims, id) <= MAX_ATTEMPTS {
      ClaimsAreLimited(events, w, id);
    }
    BoundedTotal(w.claims, ids);
  }

  /** A processed entry stays as it is for the rest of the run. */
  lemma {:induction false} ProcessedIsFinal(events: seq<Event>, k: nat, early: World, w: World, id: Id)
    requires After(events) == Some(w) && Timely(events) && k <= |events| && After(events[..k]) == Some(early)
    requires id in early.entries && early.entries[id].status == Processed
    ensures id in w.entries && w.entries[id] == early.entries[id]
  {
    if k == |events| {
      assert events[..k] == events;
    } else {
      var n := |events| - 1;
      var prior := After(events[..n]).value;
      assert events[..n][..k] == events[..k];
      TimelyPrefix(events);
      ProcessedIsFinal(events[..n], k, early, prior, id);
      TimelyRunKeepsInv(events[..n], prior);
      TimelyStepKeepsInv(prior, events[n]);
    }
  }

  // ----- without that assumption -----

  lemma OneMore(events: seq<Event>, w: World, e: Event) returns (more: seq<Event>, next: World)
    requires After(events) == Some(w) && Enabled(w, e)
    ensures more == events + [e] && next == Step(w, e) && After(more) == Some(next)
  {
    more, next := events + [e], Step(w, e);
    assert more[..|events|] == events;
  }

  /** A worker finalizes the entry after its own lease has run out. */
  ghost predicate LateStep(w: World, e: Event, id: Id) {
    && e.action.Finalize? && e.action.worker in w.held
    && w.held[e.action.worker].id == id && w.held[e.action.worker].leaseExpiresAt < e.now
  }

  ghost predicate LateAt(events: seq<Event>, i: nat, id: Id) {
    i < |events| && After(events[..i]).Some? && LateStep(After(events[..i]).value, events[i], id)
  }

  /** What a holder stands for while nobody has been late: the entry's own lease, or one that has run out. */
  ghost predicate Stands(w: World, id: Id, p: Id) {
    p in w.held && w.held[p].id == id ==>
      && id in w.entries && w.held[p].attempts <= w.entries[id].attempts
      && (|| w.held[p].leaseExpiresAt < w.clock
          || (w.entries[id].status == Processing && w.entries[id].leaseExpiresAt == Some(w.held[p].leaseExpiresAt)
              && w.held[p].attempts == w.entries[id].attempts))
  }

  ghost predicate Apart(w: World, id: Id, p: Id, q: Id) {
    p in w.held && q in w.held && w.held[p].id == id && w.held[q].id == id && p != q ==>
      w.held[p].attempts != w.held[q].attempts
  }

  ghost predicate StandsAll(w: World, id: Id) {
    (forall p :: Stands(w, id, p)) && (forall p, q :: Apart(w, id, p, q))
  }

  lemma StepKeepsStanding(w: World, e: Event, id: Id)
    requires StandsAll(w, id) && Enabled(w, e) && !LateStep(w, e, id)
    ensures StandsAll(Step(w, e), id)
  {
    var v := Step(w, e);
    forall p ensures Stands(v, id, p) {
      assert Stands(w, id, p);
      assert e.action.Finalize? ==> Stands(w, id, e.action.worker) && Apart(w, id, p, e.action.worker);
    }
    forall p, q ensures Apart(v, id, p, q) {
      assert Apart(w, id, p, q) && Stands(w, id, p) && Stands(w, id, q);
    }
  }

  lemma {:induction false} StandsUnlessLate(events: seq<Event>, w: World, id: Id)
    requires After(events) == Some(w) && forall i: nat :: !LateAt(events, i, id)
    ensures StandsAll(w, id)
  {
    if events != [] {
      var n := |events| - 1;
      var front := events[..n];
      forall i: nat ensures !LateAt(front, i, id) {
        if i < n {
          assert front[..i] == events[..i];
          assert !LateAt(events, i, id);
        }
      }
      StandsUnlessLate(front, After(front).value, id);
      assert !LateAt(events, n, id);
      StepKeepsStanding(After(front).value, events[n], id);
    }
  }

  /**
   In any interleaving, only a failing finalization takes an entry out of the processed state, and only
   where some finalization of that entry, this one or an earlier one, comes after its worker's lease.
   */
  lemma WhatLeavesProcessed(events: seq<Event>, w: World, e: Event, id: Id)
    requires After(events) == Some(w) && Enabled(w, e) && id in w.entries && w.entries[id].status == Processed
    ensures Step(w, e).entries[id].status != Processed
            <==> e.action.Finalize? && !e.action.success && w.held[e.action.worker].id == id
    ensures Step(w, e).entries[id].status != Processed ==>
              LateStep(w, e, id) || exists i: nat :: LateAt(events, i, id)
  {
    if Step(w, e).entries[id].status != Processed && forall i: nat :: !LateAt(events, i, id) {
      StandsUnlessLate(events, w, id);
      assert Stands(w, id, e.action.worker);
    }
  }

  /** It need not be this one: a late success, and then a worker whose own lease still runs reports its failure. */
  lemma LiveWorkerUndoesLateSuccess() returns (events: seq<Event>, before: World, last: Event)
    ensures After(events) == Some(before) && Enabled(before, last)
    ensures 1 in before.entries && before.entries[1].status == Processed
    ensures !LateStep(before, last, 1) && Step(before, last).entries[1].status == Failed
  {
    var w := World(map[], map[], [], 0);
    events := [];
    events, w := OneMore(events, w, Event(Enqueue(1), 0));
    events, w := OneMore(events, w, Event(Claim(10, 1), 0));
    events, w := OneMore(events, w, Event(Claim(20, 1), LEASE_TTL + 1));
    events, before := OneMore(events, w, Event(Finalize(10, true), LEASE_TTL + 2));
    last := Event(Finalize(20, false), LEASE_TTL + 3);
  }

  lemma {:induction false} PendingIsUnclaimed(events: seq<Event>, w: World, id: Id)
    requires After(events) == Some(w) && id in w.entries && w.entries[id].status == Pending
    ensures w.entries[id].attempts == 0
  {
    if events != [] {
      var prior := After(events[..|events| - 1]).value;
      if id in prior.entries && prior.entries[id].status == Pending {
        PendingIsUnclaimed(events[..|events| - 1], prior, id);
      }
    }
  }

  /** Exactly the takeover of an expired lease takes an entry past the limit. */
  lemma WhatPassesTheLimit(events: seq<Event>, w: World, e: Event, id: Id)
    requires After(events) == Some(w) && Enabled(w, e) && id in w.entries && w.entries[id].attempts <= MAX_ATTEMPTS
    ensures Step(w, e).entries[id].attempts > MAX_ATTEMPTS
            <==> e.action.Claim? && e.action.id == id && w.entries[id].attempts == MAX_ATTEMPTS && w.entries[id].status == Processing
  {
    if w.entries[id].status == Pending {
      PendingIsUnclaimed(events, w, id);
    }
  }

  /** A worker that outlives its lease undoes the success of the one that took over. */
  lemma LateFailureUndoesSuccess() returns (events: seq<Event>, before: World, after: World)
    ensures events != [] && After(events[..|events| - 1]) == Some(before) && After(events) == Some(after)
    ensures 1 in before.entries && before.entries[1].status == Processed
    ensures 1 in after.entries && after.entries[1].status == Failed
  {
    var w := World(map[], map[], [], 0);
    events := [];
    events, w := OneMore(events, w, Event(Enqueue(1), 0));
    events, w := OneMore(events, w, Event(Claim(10, 1), 0));
    events, w := OneMore(events, w, Event(Claim(20, 1), LEASE_TTL + 1));
    events, before := OneMore(events, w, Event(Finalize(20, true), LEASE_TTL + 2));
    ghost var early := events;
    events, after := OneMore(events, before, Event(Finalize(10, false), LEASE_TTL + 3));
    assert events[..|events| - 1] == early;
  }

  /** Workers that never finalize: the entry is claimed once more each time its lease runs out. */
  lemma {:induction false} AbandonedIsReclaimed(n: nat) returns (events: seq<Event>, w: World)
    ensures After(events) == Some(w) && 1 in w.entries && w.entries[1].attempts == n
    ensures w.clock == n * (LEASE_TTL + 1) && (forall p :: p in w.held ==> 0 <= p < n)
    ensures if n == 0 then w.entries[1].status == Pending && w.entries[1].availableAt == 0
            else w.entries[1].status == Processing && w.entries[1].leaseExpiresAt == Some(w.clock + LEASE_TTL)
  {
    if n == 0 {
      w := World(map[], map[], [], 0);
      events := [];
      events, w := OneMore(events, w, Event(Enqueue(1), 0));
    } else {
      events, w := AbandonedIsReclaimed(n - 1);
      events, w := OneMore(events, w, Event(Claim(n - 1, 1), n * (LEASE_TTL + 1)));
    }
  }
}
