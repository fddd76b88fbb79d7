/** The relay: outbox_relay.go's batch and ops.go's drain, over the shared outbox and Elasticsearch. */
module Relay {
  import opened Wrappers
  import opened Documents
  import opened Policy
  import opened Outbox
  import opened Protocol
  import ProtocolInvariant
  import opened Store
  import opened Deliveries

  /** Elasticsearch behind the HTTP client. `reachable`: every request gets an HTTP response.
      `healthy`: besides, it refuses a request only with 404, when there is nothing to change. */
  class Elastic {
    const reachable: bool
    const healthy: bool
    var docs: Docs

    constructor (reachable: bool, healthy: bool, docs: Docs)
      requires healthy ==> reachable
      ensures this.reachable == reachable && this.healthy == healthy && this.docs == docs
    {
      this.reachable, this.healthy, this.docs := reachable, healthy, docs;
    }

    /** Requests of other relays, between two of this one's. */
    method OtherRequests(quiet: bool)
      modifies this
      ensures quiet ==> docs == old(docs)
    {
      if !quiet {
        docs := *;
      }
    }

    /** A refused or unanswered request may all the same have been carried out. */
    method Request(op: Operation) returns (result: SendResult, ghost served: bool)
      requires !op.action.Other? && (healthy ==> reachable)
      modifies this
      ensures !result.error.UnsupportedAction?
      ensures result.Ok() ==> served && Hits(old(docs), op)
      ensures docs == if served then Perform(old(docs), op) else old(docs)
      ensures reachable ==> !result.TransportFailure()
      ensures healthy ==> served && (result.Ok() <==> Hits(old(docs), op))
      ensures healthy && !result.Ok() ==> result.status == 404
    {
      var arrives: bool := *;
      served := arrives || healthy;
      if arrives || healthy {
        var hit := (match op.action case Index => true case _ => op.key in docs);
        docs := Perform(docs, op);
        var answered: bool := *;
        if hit && (answered || healthy) {
          return SendResult(200, NoError), true;
        }
      }
      var status: int := *;
      if healthy {
        status := 404;
      } else if reachable && status == 0 {
        status := 503;
      }
      result := SendResult(status, SendFailed("es status"));
    }
  }

  datatype BatchResult = BatchResult(claimed: nat, processed: nat, retried: nat, dead: nat)

  function Count(batch: BatchResult, outcome: Status): BatchResult {
    match outcome
    case Sent => batch.(processed := batch.processed + 1)
    case Pending => batch.(retried := batch.retried + 1)
    case Dead => batch.(dead := batch.dead + 1)
    case Processing => batch
  }

  datatype DrainResult = DrainResult(
    batches: nat, claimed: nat, processed: nat, retried: nat, dead: nat, remaining: nat)

  function Add(result: DrainResult, batch: BatchResult): DrainResult {
    result.(batches := result.batches + 1, claimed := result.claimed + batch.claimed,
            processed := result.processed + batch.processed, retried := result.retried + batch.retried,
            dead := result.dead + batch.dead)
  }

  // --- How much work is left in a table ---

  /** How many more deliveries a row can take when every request is answered. */
  function Weight(row: Row, maxAttempts: int): nat {
    if row.Terminal() then 0 else 1 + Max(0, maxAttempts - row.attempts)
  }

  function Work(t: Table, maxAttempts: int, from: int, until: int): nat
    decreases until - from
  {
    if from >= until then 0
    else (if from in t then Weight(t[from], maxAttempts) else 0) + Work(t, maxAttempts, from + 1, until)
  }

  function RowsIn(t: Table, statuses: set<Status>): set<int> {
    set id | id in t && t[id].status in statuses
  }

  const OPEN := {Pending, Processing}

  /** From one table to the other, that many open rows were sent and that many died. */
  ghost predicate Counted(t: Table, t': Table, sent: nat, dead: nat) {
    && |RowsIn(t', {Sent})| == |RowsIn(t, {Sent})| + sent
    && |RowsIn(t', {Dead})| == |RowsIn(t, {Dead})| + dead
    && |RowsIn(t', OPEN)| + sent + dead == |RowsIn(t, OPEN)|
  }

  lemma RowsInAfterUpdate(t: Table, id: int, row: Row, statuses: set<Status>)
    requires id in t
    ensures |RowsIn(t[id := row], statuses)| + (if t[id].status in statuses then 1 else 0)
         == |RowsIn(t, statuses)| + (if row.status in statuses then 1 else 0)
  {
    var others := RowsIn(t, statuses) - {id};
    assert RowsIn(t, statuses) == others + if t[id].status in statuses then {id} else {};
    assert RowsIn(t[id := row], statuses) == others + if row.status in statuses then {id} else {};
  }

  lemma CountedUpdate(t: Table, id: int, row: Row)
    requires id in t && t[id].status in OPEN
    ensures Counted(t, t[id := row], if row.status.Sent? then 1 else 0, if row.status.Dead? then 1 else 0)
  {
    RowsInAfterUpdate(t, id, row, {Sent});
    RowsInAfterUpdate(t, id, row, {Dead});
    RowsInAfterUpdate(t, id, row, OPEN);
  }

  lemma CountedOneMore(t0: Table, t1: Table, t2: Table, result: DrainResult, batch: BatchResult)
    requires Counted(t0, t1, result.processed, result.dead) && Counted(t1, t2, batch.processed, batch.dead)
    ensures Counted(t0, t2, Add(result, batch).processed, Add(result, batch).dead)
  {
  }

  /** Claiming sends and kills nothing. */
  lemma {:induction false} ClaimsNotCounted(t: Table, found: seq<OutboxEvent>, n: nat, leaseUntil: int, first: nat)
    requires n <= |found| && InIdOrder(found)
    requires forall e :: e in found ==> e.id in t && t[e.id] == e.row && !e.row.Terminal()
    ensures Counted(t, LeaseAll(t, found, n, leaseUntil, first), 0, 0)
  {
    if n > 0 {
      var before := LeaseAll(t, found, n - 1, leaseUntil, first);
      var last := LeasedEvent(found[n - 1], leaseUntil, first + n - 1);
      ClaimsNotCounted(t, found, n - 1, leaseUntil, first);
      LeaseAllAt(t, found, n - 1, leaseUntil, first);
      assert found[n - 1] in found;
      assert before[last.id] == found[n - 1].row;
      CountedUpdate(before, last.id, last.row);
    }
  }

  lemma {:induction false} WorkAfterUpdate(t: Table, id: int, row: Row, maxAttempts: int, from: int, until: int)
    requires id in t
    ensures from <= id < until ==>
              Work(t[id := row], maxAttempts, from, until) ==
                  Work(t, maxAttempts, from, until) - Weight(t[id], maxAttempts) + Weight(row, maxAttempts)
    ensures !(from <= id < until) ==> Work(t[id := row], maxAttempts, from, until) == Work(t, maxAttempts, from, until)
    decreases until - from
  {
    if from < until {
      WorkAfterUpdate(t, id, row, maxAttempts, from + 1, until);
    }
  }

  /** Claiming leaves the work as it is. */
  lemma {:induction false} WorkAfterLease(t: Table, found: seq<OutboxEvent>, n: nat, leaseUntil: int, first: nat,
                                          maxAttempts: int, until: int)
    requires n <= |found| && InIdOrder(found)
    requires forall e :: e in found ==> 1 <= e.id < until && e.id in t && t[e.id] == e.row && !e.row.Terminal()
    ensures Work(LeaseAll(t, found, n, leaseUntil, first), maxAttempts, 1, until) == Work(t, maxAttempts, 1, until)
  {
    if n > 0 {
      var before := LeaseAll(t, found, n - 1, leaseUntil, first);
      var last := LeasedEvent(found[n - 1], leaseUntil, first + n - 1);
      WorkAfterLease(t, found, n - 1, leaseUntil, first, maxAttempts, until);
      LeaseAllAt(t, found, n - 1, leaseUntil, first);
      assert found[n - 1] in found;
      assert before[last.id] == found[n - 1].row;
      WorkAfterUpdate(before, last.id, last.row, maxAttempts, 1, until);
    }
  }

  /** Every write-back other than after a transport failure uses up some of the work. */
  lemma WorkAfterMark(cfg: Config, t: Table, id: int, result: SendResult, readAt: int, until: int)
    requires cfg.Normalized() && id in t && 1 <= id < until && !t[id].Terminal() && !result.TransportFailure()
    ensures var mark := Decide(cfg, t[id].attempts, result, readAt);
            var t' := t[id := Marked(t[id], t[id].attempts, mark, result.Reason())];
            Work(t', cfg.maxAttempts, 1, until) < Work(t, cfg.maxAttempts, 1, until)
  {
    var mark := Decide(cfg, t[id].attempts, result, readAt);
    WorkAfterUpdate(t, id, Marked(t[id], t[id].attempts, mark, result.Reason()), cfg.maxAttempts, 1, until);
  }

  // --- The relay ---

  class OutboxRelay {
    const store: OutboxStore
    const es: Elastic
    ghost const origin: Docs  // what Elasticsearch held before the first delivery of the run

    constructor (store: OutboxStore, es: Elastic, ghost origin: Docs)
      requires store.Valid() && (es.healthy ==> es.reachable)
      requires store.solo ==> es.docs == PerformAll(origin, Requests(store.st.delivered))
      ensures this.store == store && this.es == es && this.origin == origin && Valid()
    {
      this.store, this.es, this.origin := store, es, origin;
    }

    /** Alone, Elasticsearch holds what the run's deliveries make of it. */
    ghost predicate Valid()
      reads store, es
    {
      && store.Valid() && (es.healthy ==> es.reachable)
      && (store.solo ==> es.docs == PerformAll(origin, Requests(store.st.delivered)))
    }

    /** sendOutboxRow */
    method SendOutboxRow(event: OutboxEvent) returns (result: SendResult, ghost served: bool)
      requires es.healthy ==> es.reachable
      modifies es
      ensures result.error.UnsupportedAction? <==> event.row.op.action.Other?
      ensures served ==> !result.error.UnsupportedAction?
      ensures result.Ok() ==> served && Hits(old(es.docs), event.row.op)
      ensures es.docs == if served then Perform(old(es.docs), event.row.op) else old(es.docs)
      ensures es.reachable ==> !result.TransportFailure()
      ensures es.healthy ==> es.docs == Perform(old(es.docs), event.row.op) && !result.RetryableAnswer()
      ensures es.healthy ==> (result.Ok() <==> Hits(old(es.docs), event.row.op))
    {
      served := false;
      match event.row.op.action
      case Other(_) => result := SendResult(0, UnsupportedAction);
      case _ => result, served := es.Request(event.row.op);
    }

    /** The send as a step of the run; requests of others may reach Elasticsearch before. */
    method SendStep(event: OutboxEvent, ghost now: int, ghost batch: seq<OutboxEvent>) returns (result: SendResult)
      requires Valid() && PhaseOf(store.st, store.me) == Delivering(now, batch) && batch != [] && batch[0] == event
      modifies store`st, store`run, es
      ensures Valid() && old(store.run) <= store.run
      ensures PhaseOf(store.st, store.me) == Answered(now, batch, result)
      ensures result.error.UnsupportedAction? <==> event.row.op.action.Other?
      ensures store.solo ==> es.docs == old(es.docs) || es.docs == Perform(old(es.docs), event.row.op)
      ensures es.reachable ==> !result.TransportFailure()
      ensures es.healthy ==> !result.RetryableAnswer()
      ensures store.solo && es.healthy ==> es.docs == Perform(old(es.docs), event.row.op)
      ensures store.solo && es.healthy ==> (result.Ok() <==> Hits(old(es.docs), event.row.op))
    {
      es.OtherRequests(store.solo);
      ghost var served;
      result, served := SendOutboxRow(event);
      ghost var delivered := store.st.delivered;
      ghost var d := Delivery(event.id, event.row.op, event.row.leaseToken, result.Ok(), |store.st.log|);
      store.Take(Send(store.me, result, served));
      RequestsOneMore(origin, delivered, d);
    }

    /** The first half of processOutboxRow: send, then read the clock; others may act around either, and
        their requests reach Elasticsearch too. */
    method Deliver(event: OutboxEvent, ghost now: int, ghost batch: seq<OutboxEvent>)
      returns (result: SendResult, readAt: int)
      requires Valid() && PhaseOf(store.st, store.me) == Delivering(now, batch) && batch != [] && batch[0] == event
      modifies store, es
      ensures Valid() && store.clock >= old(store.clock) && old(store.run) <= store.run
      ensures PhaseOf(store.st, store.me) == Timed(now, batch, result, readAt)
      ensures result.error.UnsupportedAction? <==> event.row.op.action.Other?
      ensures store.solo ==> store.rows == old(store.rows) && store.nextId == old(store.nextId)
      ensures store.solo ==> es.docs == old(es.docs) || es.docs == Perform(old(es.docs), event.row.op)
      ensures es.reachable ==> !result.TransportFailure()
      ensures es.healthy ==> !result.TransportFailure() && !result.RetryableAnswer()
      ensures store.solo && es.healthy ==> es.docs == Perform(old(es.docs), event.row.op)
      ensures store.solo && es.healthy ==> (result.Ok() <==> Hits(old(es.docs), event.row.op))
    {
      result := SendStep(event, now, batch);
      store.Others();
      readAt := store.Now();
      store.Take(ReadClock(store.me));
      store.Others();
      es.OtherRequests(store.solo);
    }

    /** processOutboxRow */
    method ProcessOutboxRow(event: OutboxEvent, ghost now: int, ghost batch: seq<OutboxEvent>)
      returns (outcome: Result<Status>)
      requires Valid() && PhaseOf(store.st, store.me) == Delivering(now, batch) && batch != [] && batch[0] == event
      modifies store, es
      ensures Valid() && store.clock >= old(store.clock) && old(store.run) <= store.run
      ensures PhaseOf(store.st, store.me) ==
              if outcome.Success? && |batch| > 1 then Delivering(now, batch[1..]) else Idle
      ensures outcome.Success? ==> !outcome.value.Processing? && (event.row.op.action.Other? ==> outcome.value.Dead?)
      ensures store.solo ==> store.nextId == old(store.nextId)
      ensures store.solo ==> es.docs == old(es.docs) || es.docs == Perform(old(es.docs), event.row.op)
      ensures store.solo && store.steady && Writable(old(store.rows), event) ==> outcome.Success?
      ensures store.solo && outcome.Success? ==>
                Processed(store.cfg, es.reachable, es.healthy, event, old(store.rows), old(es.docs), store.rows,
                          es.docs, outcome.value)
    {
      var result, readAt := Deliver(event, now, batch);
      var mark := Decide(store.cfg, event.row.attempts, result, readAt);
      var written := store.MarkRow(event, mark, result.Reason(), Timed(now, batch, result, readAt));
      if written.Failure? {
        return Failure(written.error);
      }
      if store.solo {
        IsProcessed(store.cfg, es.reachable, es.healthy, event, old(store.rows), old(es.docs), store.rows, es.docs,
                    result, readAt);
      }
      outcome := Success(StatusOf(mark));
    }

    /** One round of runOutboxBatch's loop; `rows` and `docs` are what the loop started from. */
    method ProcessNext(claimed: seq<OutboxEvent>, i: nat, sofar: BatchResult, ghost now: int, ghost rows: Table,
                       ghost docs: Docs)
      returns (batch: BatchResult, err: Option<string>)
      requires Valid() && i < |claimed| && PhaseOf(store.st, store.me) == Delivering(now, claimed[i..])
      requires store.solo ==>
                 && InIdOrder(claimed)
                 && SoFar(store.cfg, es.reachable, es.healthy, claimed, i, rows, docs, store.rows, es.docs,
                          store.nextId, sofar)
      modifies store, es
      ensures Valid() && store.clock >= old(store.clock) && old(store.run) <= store.run
      ensures PhaseOf(store.st, store.me) ==
              if err.None? && i + 1 < |claimed| then Delivering(now, claimed[i + 1..]) else Idle
      ensures batch.claimed == sofar.claimed
      ensures err.None? ==>
                batch.processed + batch.retried + batch.dead == sofar.processed + sofar.retried + sofar.dead + 1
      ensures store.solo ==> store.nextId == old(store.nextId)
      ensures store.solo && store.steady ==> err.None?
      ensures store.solo && err.None? ==>
                SoFar(store.cfg, es.reachable, es.healthy, claimed, i + 1, rows, docs, store.rows, es.docs,
                      store.nextId, batch)
    {
      var outcome := ProcessOutboxRow(claimed[i], now, claimed[i..]);
      assert claimed[i..][1..] == claimed[i + 1..];
      if outcome.Failure? {
        return sofar, Some(outcome.error);
      }
      batch, err := Count(sofar, outcome.value), None;
      if store.solo {
        OneMoreDone(store.cfg, es.reachable, es.healthy, claimed, i, rows, docs, old(store.rows), old(es.docs),
                    store.rows, es.docs, store.nextId, sofar, outcome.value);
      }
    }

    /** The loop of runOutboxBatch over the claimed rows. */
    method ProcessEach(claimed: seq<OutboxEvent>, ghost now: int) returns (batch: BatchResult, err: Option<string>)
      requires Valid() && PhaseOf(store.st, store.me) == if claimed == [] then Idle else Delivering(now, claimed)
      requires store.solo ==> InIdOrder(claimed) && Held(store.rows, store.nextId, claimed, 0)
      modifies store, es
      ensures Valid() && store.Quiet() && store.clock >= old(store.clock) && old(store.run) <= store.run
      ensures batch.claimed == |claimed|
      ensures err.None? ==> batch.claimed == batch.processed + batch.retried + batch.dead
      ensures store.solo ==> store.nextId == old(store.nextId)
      ensures store.solo && store.steady ==> err.None?
      ensures store.solo && err.None? ==>
                SoFar(store.cfg, es.reachable, es.healthy, claimed, |claimed|, old(store.rows), old(es.docs),
                      store.rows, es.docs, store.nextId, batch)
    {
      ghost var rows, docs, nextId := store.rows, es.docs, store.nextId;
      batch := BatchResult(|claimed|, 0, 0, 0);
      err := None;
      var i := 0;
      if store.solo {
        NothingSoFar(store.cfg, es.reachable, es.healthy, claimed, store.rows, es.docs, store.nextId, batch);
      }
      while err.None? && i < |claimed|
        invariant 0 <= i <= |claimed|
        invariant Valid() && store.clock >= old(store.clock) && old(store.run) <= store.run
        invariant PhaseOf(store.st, store.me) ==
                  if err.None? && i < |claimed| then Delivering(now, claimed[i..]) else Idle
        invariant batch.claimed == |claimed| && (err.None? ==> i == batch.processed + batch.retried + batch.dead)
        invariant store.solo ==> store.nextId == nextId
        invariant store.solo && store.steady ==> err.None?
        invariant store.solo && err.None? ==>
                    SoFar(store.cfg, es.reachable, es.healthy, claimed, i, rows, docs, store.rows, es.docs,
                          nextId, batch)
      {
        batch, err := ProcessNext(claimed, i, batch, now, rows, docs);
        i := i + 1;
      }
    }

    /** runOutboxBatch */
    method RunOutboxBatch() returns (batch: BatchResult, err: Option<string>, ghost now: int)
      requires Valid() && store.Quiet()
      modifies store, es
      ensures Valid() && store.Quiet() && old(store.clock) <= now <= store.clock && old(store.run) <= store.run
      ensures err.None? ==> batch.claimed == batch.processed + batch.retried + batch.dead
      ensures store.solo ==> store.nextId == old(store.nextId)
      ensures store.solo && store.steady ==> err.None?
      ensures store.solo && err.None? ==>
                RanBatch(store.cfg, es.reachable, es.healthy, now, old(store.rows), old(es.docs),
                         store.rows, es.docs, store.nextId, batch.claimed)
      ensures store.solo && err.None? ==> Counted(old(store.rows), store.rows, batch.processed, batch.dead)
      ensures store.solo && err.None? && batch.claimed == 0 ==> NoneClaimable(store.rows, now)
    {
      var claimed, readAt := store.ClaimPending(store.cfg.batchSize, store.cfg.lease);
      now := readAt;
      if claimed.Failure? {
        return BatchResult(0, 0, 0, 0), Some(claimed.error), now;
      }
      ghost var leased := store.rows;
      if store.solo {
        ClaimedHeld(old(store.rows), store.nextId, store.cfg, now, old(store.issued) + 1, claimed.value, leased);
      }
      batch, err := ProcessEach(claimed.value, now);
      if store.solo && err.None? {
        BatchRan(store.cfg, es.reachable, es.healthy, now, old(store.issued) + 1, old(store.rows), old(es.docs),
                 claimed.value, leased, store.st, es.docs, batch);
      }
    }

    /** runOutboxBatch as part of a drain. `rows` is the table the drain started from; `ready` lists the rows to
        be delivered, if they were all claimable at `clock` and Elasticsearch is healthy. */
    method RunDrainBatch(ghost sofar: DrainResult, ghost rows: Table, ghost ready: Option<seq<OutboxEvent>>,
                         ghost start: Docs, ghost clock: int)
      returns (batch: BatchResult, err: Option<string>, ghost now: int)
      requires Valid() && store.Quiet() && clock <= store.clock
      requires store.solo ==> Counted(rows, store.rows, sofar.processed, sofar.dead)
      requires ready.Some? ==>
               && store.solo && es.healthy
               && Drained(store.rows, es.docs, store.nextId, start, ready.value, sofar.claimed, clock)
               && sofar.claimed == Taken(|ready.value|, sofar.batches, store.cfg.batchSize)
      modifies store, es
      ensures Valid() && store.Quiet() && old(store.clock) <= now <= store.clock && old(store.run) <= store.run
      ensures err.None? ==> batch.claimed == batch.processed + batch.retried + batch.dead
      ensures store.solo ==> store.nextId == old(store.nextId)
      ensures store.solo && store.steady ==> err.None?
      ensures store.solo && err.None? ==>
                Counted(rows, store.rows, sofar.processed + batch.processed, sofar.dead + batch.dead)
      ensures store.solo && err.None? && batch.claimed == 0 ==> NoneClaimable(store.rows, now)
      ensures store.solo && es.reachable && err.None? && batch.claimed > 0 ==>
                Work(store.rows, store.cfg.maxAttempts, 1, store.nextId)
                < Work(old(store.rows), store.cfg.maxAttempts, 1, store.nextId)
      ensures ready.Some? && err.None? ==>
                && Drained(store.rows, es.docs, store.nextId, start, ready.value, sofar.claimed + batch.claimed, clock)
                && sofar.claimed + batch.claimed == Taken(|ready.value|, sofar.batches + 1, store.cfg.batchSize)
                && (batch.claimed == 0 ==> sofar.claimed == |ready.value|)
    {
      ghost var before, docs := store.rows, es.docs;
      batch, err, now := RunOutboxBatch();
      if err.None? && store.solo {
        BatchCounts(store.cfg, es.reachable, es.healthy, now, rows, before, docs, store.rows, es.docs, store.nextId,
                    sofar, batch);
        if ready.Some? {
          DrainGoesOn(store.cfg, before, docs, ready.value, sofar.claimed, clock, now, store.rows, es.docs,
                      store.nextId, start, batch.claimed);
          TakenOneMore(|ready.value|, sofar.batches, store.cfg.batchSize);
        }
      }
    }

    /** One round of DrainOutbox's loop: a batch, counted unless it was empty. */
    method DrainBatch(sofar: DrainResult, ghost rows: Table, ghost ready: Option<seq<OutboxEvent>>, ghost start: Docs,
                      ghost clock: int)
      returns (result: DrainResult, more: bool, err: Option<string>, ghost now: int)
      requires Valid() && store.Quiet() && clock <= store.clock
      requires sofar.claimed == sofar.processed + sofar.retried + sofar.dead
      requires store.solo ==> Counted(rows, store.rows, sofar.processed, sofar.dead)
      requires ready.Some? ==>
               && store.solo && es.healthy
               && Drained(store.rows, es.docs, store.nextId, start, ready.value, sofar.claimed, clock)
               && sofar.claimed == Taken(|ready.value|, sofar.batches, store.cfg.batchSize)
      modifies store, es
      ensures Valid() && store.Quiet() && old(store.clock) <= now <= store.clock && old(store.run) <= store.run
      ensures result.claimed == result.processed + result.retried + result.dead
      ensures if more then err.None? && result.batches == sofar.batches + 1 else result == sofar
      ensures result.remaining == sofar.remaining
      ensures store.solo ==> store.nextId == old(store.nextId)
      ensures store.solo && store.steady ==> err.None?
      ensures store.solo && err.None? ==> Counted(rows, store.rows, result.processed, result.dead)
      ensures store.solo && err.None? && !more ==> NoneClaimable(store.rows, now)
      ensures store.solo && es.reachable && more ==>
                Work(store.rows, store.cfg.maxAttempts, 1, store.nextId)
                < Work(old(store.rows), store.cfg.maxAttempts, 1, store.nextId)
      ensures ready.Some? && err.None? ==>
                && Drained(store.rows, es.docs, store.nextId, start, ready.value, result.claimed, clock)
                && result.claimed == Taken(|ready.value|, result.batches, store.cfg.batchSize)
                && (!more ==> result.claimed == |ready.value|)
    {
      var batch;
      batch, err, now := RunDrainBatch(sofar, rows, ready, start, clock);
      if err.Some? || batch.claimed == 0 {
        return sofar, false, err, now;
      }
      result, more := Add(sofar, batch), true;
    }

    /** DrainOutbox's loop: batches until one claims nothing, or the bound is reached. Alone, it stops early only
        when nothing is claimable; on rows that are all ready, every batch but the last is full. */
    method DrainBatches(maxBatches: int, ghost ready: Option<seq<OutboxEvent>>, ghost start: Docs, ghost clock: int)
      returns (result: DrainResult, err: Option<string>, ghost last: int)
      requires Valid() && store.Quiet() && clock <= store.clock
      requires maxBatches > 0 || (store.solo && es.reachable)
      requires ready.Some? ==>
               store.solo && es.healthy && Drained(store.rows, es.docs, store.nextId, start, ready.value, 0, clock)
      modifies store, es
      ensures Valid() && store.Quiet() && old(store.clock) <= last <= store.clock && old(store.run) <= store.run
      ensures result.claimed == result.processed + result.retried + result.dead
      ensures maxBatches > 0 ==> result.batches <= maxBatches
      ensures result.remaining == 0
      ensures store.solo ==> store.nextId == old(store.nextId)
      ensures store.solo && store.steady ==> err.None?
      ensures store.solo && err.None? ==> Counted(old(store.rows), store.rows, result.processed, result.dead)
      ensures store.solo && err.None? ==>
                (maxBatches > 0 && result.batches == maxBatches) || NoneClaimable(store.rows, last)
      ensures ready.Some? && err.None? ==>
                && Drained(store.rows, es.docs, store.nextId, start, ready.value, result.claimed, clock)
                && result.claimed == Taken(|ready.value|, result.batches, store.cfg.batchSize)
                && ((maxBatches > 0 && result.batches == maxBatches) || result.claimed == |ready.value|)
    {
      result, err, last := DrainResult(0, 0, 0, 0, 0, 0), None, store.clock;
      ghost var rows, nextId := store.rows, store.nextId;
      ghost var work := Work(store.rows, store.cfg.maxAttempts, 1, store.nextId);
      var more := true;
      while more && (maxBatches <= 0 || result.batches < maxBatches)
        invariant Valid() && store.Quiet() && old(store.clock) <= last <= store.clock && old(store.run) <= store.run
        invariant result.claimed == result.processed + result.retried + result.dead
        invariant (maxBatches > 0 ==> result.batches <= maxBatches) && result.remaining == 0
        invariant (more ==> err.None?) && (store.solo && store.steady ==> err.None?)
        invariant store.solo ==> store.nextId == nextId
        invariant store.solo && err.None? ==> Counted(rows, store.rows, result.processed, result.dead)
        invariant store.solo && err.None? && !more ==> NoneClaimable(store.rows, last)
        invariant more ==> work == Work(store.rows, store.cfg.maxAttempts, 1, store.nextId)
        invariant ready.Some? && err.None? ==>
                    && Drained(store.rows, es.docs, store.nextId, start, ready.value, result.claimed, clock)
                    && result.claimed == Taken(|ready.value|, result.batches, store.cfg.batchSize)
                    && (!more ==> result.claimed == |ready.value|)
        decreases more, if maxBatches > 0 then maxBatches - result.batches else work
      {
        result, more, err, last := DrainBatch(result, rows, ready, start, clock);
        work := Work(store.rows, store.cfg.maxAttempts, 1, store.nextId);
      }
    }

    /** DrainOutbox. Unbounded, it may run forever while requests go unanswered or others keep adding
        work, so those runs need a bound. */
    method DrainOutbox(maxBatches: int) returns (result: DrainResult, err: Option<string>, ghost last: int)
      requires Valid() && store.Quiet()
      requires maxBatches > 0 || (store.solo && es.reachable)
      modifies store, es
      ensures Valid() && store.Quiet() && old(store.clock) <= last && old(store.run) <= store.run
      ensures result.claimed == result.processed + result.retried + result.dead
      ensures maxBatches > 0 ==> result.batches <= maxBatches
      ensures store.solo && store.steady ==> err.None?
      ensures err.Some? ==> result.remaining == 0
      ensures store.solo && err.None? ==> result.remaining == |RowsIn(store.rows, OPEN)|
      ensures store.solo && err.None? ==> Counted(old(store.rows), store.rows, result.processed, result.dead)
      ensures store.solo && err.None? ==>
                (maxBatches > 0 && result.batches == maxBatches) || NoneClaimable(store.rows, last)
      ensures store.solo && err.None? && es.healthy && AllReady(old(store.rows), old(store.clock)) ==>
                var all := Candidates(old(store.rows), old(store.clock), 1, store.nextId, store.nextId);
                && result.claimed ==
                   (if maxBatches <= 0 then |all| else Min(|all|, maxBatches * store.cfg.batchSize))
                && es.docs == PerformAll(old(es.docs), OpsOf(all)[..result.claimed])
                && Settled(store.rows, old(es.docs), all, result.claimed)
                && (maxBatches <= 0 ==>
                      && es.docs == PerformAll(old(es.docs), OpsOf(all))
                      && forall id :: id in store.rows ==> store.rows[id].Terminal())
    {
      ghost var all := Candidates(store.rows, store.clock, 1, store.nextId, store.nextId);
      ghost var ready := store.solo && es.healthy && AllReady(store.rows, store.clock);
      if ready {
        DrainStarts(store.st, store.cfg, store.clock, es.docs);
      }
      result, err, last := DrainBatches(maxBatches, if ready then Some(all) else None, es.docs, store.clock);
      if err.Some? {
        return;
      }
      if ready && maxBatches > 0 {
        TakenAtBound(|all|, result.batches, maxBatches, store.cfg.batchSize);
      }
      if ready && maxBatches <= 0 {
        AllDrained(store.rows, es.docs, store.nextId, old(es.docs), all, old(store.clock));
      }
      store.Others();
      var broken: bool := *;
      if broken && !store.steady {
        err := Some("count remaining outbox rows");
        return;
      }
      result := result.(remaining := |RowsIn(store.rows, OPEN)|);
    }
  }

  lemma RequestsOneMore(origin: Docs, delivered: seq<Delivery>, d: Delivery)
    ensures PerformAll(origin, Requests(delivered + [d])) == Perform(PerformAll(origin, Requests(delivered)), d.op)
  {
    assert Requests(delivered + [d]) == Requests(delivered) + [d.op];
    PerformAllAppend(origin, Requests(delivered), [d.op]);
    assert [d.op][1..] == [];
  }

  function OpsOf(events: seq<OutboxEvent>): (ops: seq<Operation>)
    ensures |ops| == |events|
    ensures forall i :: 0 <= i < |events| ==> ops[i] == events[i].row.op
  {
    seq(|events|, i requires 0 <= i < |events| => events[i].row.op)
  }

  /** What one processed row means when nobody else acts: it was written back by the relay's decision
      on some answer, of the kind this Elasticsearch gives. */
  ghost predicate Processed(cfg: Config, reachable: bool, healthy: bool, event: OutboxEvent,
                            rows: Table, docs: Docs, rows': Table, docs': Docs, outcome: Status) {
    exists result: SendResult, readAt: int ::
      && WriteBack(rows, event, Decide(cfg, event.row.attempts, result, readAt), result.Reason()) == Success(rows')
      && outcome == StatusOf(Decide(cfg, event.row.attempts, result, readAt))
      && (reachable ==> !result.TransportFailure())
      && (healthy ==> docs' == Perform(docs, event.row.op) && !result.TransportFailure() && !result.RetryableAnswer())
      && (healthy ==> (result.Ok() <==> Hits(docs, event.row.op)))
  }

  lemma IsProcessed(cfg: Config, reachable: bool, healthy: bool, event: OutboxEvent,
                    rows: Table, docs: Docs, rows': Table, docs': Docs, result: SendResult, readAt: int)
    requires WriteBack(rows, event, Decide(cfg, event.row.attempts, result, readAt), result.Reason()) == Success(rows')
    requires reachable ==> !result.TransportFailure()
    requires healthy ==> docs' == Perform(docs, event.row.op) && !result.TransportFailure() && !result.RetryableAnswer()
    requires healthy ==> (result.Ok() <==> Hits(docs, event.row.op))
    ensures Processed(cfg, reachable, healthy, event, rows, docs, rows', docs',
                      StatusOf(Decide(cfg, event.row.attempts, result, readAt)))
  {
  }

  /** The row is in the table as it is in memory, leased. */
  ghost predicate Writable(t: Table, event: OutboxEvent) {
    && event.id >= 1 && event.id in t && t[event.id] == event.row
    && event.row.status.Processing? && event.row.leaseToken != NO_TOKEN
  }

  /** From position `i` on, the claimed rows are in the table just as they are in memory. */
  ghost predicate Held(t: Table, until: int, claimed: seq<OutboxEvent>, i: nat) {
    forall j :: i <= j < |claimed| ==> claimed[j].id < until && Writable(t, claimed[j])
  }

  /** How row `j` ends when the rows are delivered in this order: sent if its request finds what it needs,
      dead otherwise. */
  function Verdict(docs: Docs, ops: seq<Operation>, j: nat): Status
    requires j < |ops|
  {
    if Hits(PerformAll(docs, ops[..j]), ops[j]) then Sent else Dead
  }

  ghost predicate Ended(t: Table, docs: Docs, events: seq<OutboxEvent>, j: nat)
    requires j < |events|
  {
    events[j].id in t && t[events[j].id].status == Verdict(docs, OpsOf(events), j)
  }

  ghost predicate Settled(t: Table, docs: Docs, events: seq<OutboxEvent>, n: nat)
    requires n <= |events|
  {
    forall j :: 0 <= j < n ==> Ended(t, docs, events, j)
  }

  /** The first `i` claimed rows are dealt with and nothing else has changed. */
  ghost predicate BatchDone(cfg: Config, reachable: bool, healthy: bool, claimed: seq<OutboxEvent>, i: nat,
                            rows: Table, docs: Docs, rows': Table, docs': Docs, until: int)
    requires i <= |claimed|
  {
    && rows'.Keys == rows.Keys
    && (forall id :: id in rows && !Mentions(claimed, id) ==> rows'[id] == rows[id])
    && (reachable ==> Work(rows', cfg.maxAttempts, 1, until) + i <= Work(rows, cfg.maxAttempts, 1, until))
    && (healthy ==>
          docs' == PerformAll(docs, OpsOf(claimed)[..i]) && Settled(rows', docs, claimed, i))
  }

  /** ... and counted, and the rest still as claimed. */
  ghost predicate SoFar(cfg: Config, reachable: bool, healthy: bool, claimed: seq<OutboxEvent>, i: nat,
                        rows: Table, docs: Docs, rows': Table, docs': Docs, until: int, batch: BatchResult)
    requires i <= |claimed|
  {
    && Held(rows', until, claimed, i)
    && BatchDone(cfg, reachable, healthy, claimed, i, rows, docs, rows', docs', until)
    && Counted(rows, rows', batch.processed, batch.dead)
  }

  lemma NothingSoFar(cfg: Config, reachable: bool, healthy: bool, claimed: seq<OutboxEvent>, rows: Table, docs: Docs,
                     until: int, batch: BatchResult)
    requires Held(rows, until, claimed, 0) && batch.processed == batch.dead == 0
    ensures SoFar(cfg, reachable, healthy, claimed, 0, rows, docs, rows, docs, until, batch)
  {
    assert OpsOf(claimed)[..0] == [];
  }

  lemma OneMoreDone(cfg: Config, reachable: bool, healthy: bool, claimed: seq<OutboxEvent>, i: nat,
                    rows: Table, docs: Docs, rows': Table, docs': Docs, rows'': Table, docs'': Docs, until: int,
                    batch: BatchResult, outcome: Status)
    requires cfg.Normalized() && (healthy ==> reachable)
    requires i < |claimed| && InIdOrder(claimed)
    requires SoFar(cfg, reachable, healthy, claimed, i, rows, docs, rows', docs', until, batch)
    requires Processed(cfg, reachable, healthy, claimed[i], rows', docs', rows'', docs'', outcome)
    ensures SoFar(cfg, reachable, healthy, claimed, i + 1, rows, docs, rows'', docs'', until, Count(batch, outcome))
  {
    var event := claimed[i];
    var result: SendResult, readAt: int :|
      && WriteBack(rows', event, Decide(cfg, event.row.attempts, result, readAt), result.Reason()) == Success(rows'')
      && outcome == StatusOf(Decide(cfg, event.row.attempts, result, readAt))
      && (reachable ==> !result.TransportFailure())
      && (healthy ==>
            docs'' == Perform(docs', event.row.op) && !result.TransportFailure() && !result.RetryableAnswer())
      && (healthy ==> (result.Ok() <==> Hits(docs', event.row.op)));
    var row := Marked(event.row, event.row.attempts, Decide(cfg, event.row.attempts, result, readAt), result.Reason());
    if reachable {
      WorkAfterMark(cfg, rows', event.id, result, readAt, until);
    }
    OneMoreMarked(cfg, reachable, healthy, claimed, i, rows, docs, rows', docs', row, docs'', until, batch);
  }

  /** Writing back row `i` of the batch, once what it needs is known of the new row. */
  lemma OneMoreMarked(cfg: Config, reachable: bool, healthy: bool, claimed: seq<OutboxEvent>, i: nat,
                      rows: Table, docs: Docs, rows': Table, docs': Docs, row: Row, docs'': Docs, until: int,
                      batch: BatchResult)
    requires i < |claimed| && InIdOrder(claimed)
    requires SoFar(cfg, reachable, healthy, claimed, i, rows, docs, rows', docs', until, batch)
    requires reachable ==>
               Work(rows'[claimed[i].id := row], cfg.maxAttempts, 1, until) < Work(rows', cfg.maxAttempts, 1, until)
    requires healthy ==>
               docs'' == Perform(docs', claimed[i].row.op) && row.status == Verdict(docs, OpsOf(claimed), i)
    ensures SoFar(cfg, reachable, healthy, claimed, i + 1, rows, docs, rows'[claimed[i].id := row], docs'', until,
                  Count(batch, row.status))
  {
    assert Mentions(claimed, claimed[i].id);
    OneMoreCounted(rows, rows', claimed[i].id, row, batch);
    if healthy {
      PerformOneMore(docs, docs', claimed, i);
      OneMoreSettled(rows', docs, claimed, i, row);
    }
  }

  lemma OneMoreSettled(t: Table, docs: Docs, claimed: seq<OutboxEvent>, i: nat, row: Row)
    requires i < |claimed| && InIdOrder(claimed) && Settled(t, docs, claimed, i)
    requires row.status == Verdict(docs, OpsOf(claimed), i)
    ensures Settled(t[claimed[i].id := row], docs, claimed, i + 1)
  {
    var t' := t[claimed[i].id := row];
    forall j | 0 <= j < i + 1 ensures Ended(t', docs, claimed, j) {
      assert j < i ==> Ended(t, docs, claimed, j);
    }
  }

  lemma OneMoreCounted(rows: Table, rows': Table, id: int, row: Row, batch: BatchResult)
    requires Counted(rows, rows', batch.processed, batch.dead) && id in rows' && rows'[id].status in OPEN
    ensures var batch' := Count(batch, row.status); Counted(rows, rows'[id := row], batch'.processed, batch'.dead)
  {
    CountedUpdate(rows', id, row);
  }

  lemma PerformOneMore(docs: Docs, docs': Docs, claimed: seq<OutboxEvent>, i: nat)
    requires i < |claimed| && docs' == PerformAll(docs, OpsOf(claimed)[..i])
    ensures Perform(docs', claimed[i].row.op) == PerformAll(docs, OpsOf(claimed)[..i + 1])
  {
    var ops := OpsOf(claimed);
    assert ops[..i + 1] == ops[..i] + [ops[i]];
    PerformAllAppend(docs, ops[..i], [ops[i]]);
    assert [ops[i]][1..] == [];
  }

  function StatusOf(mark: Mark): Status {
    match mark
    case MarkSent(_) => Sent
    case MarkRetry(_) => Pending
    case MarkDead => Dead
  }

  // --- Whole batches ---

  /** A batch at clock reading `now` dealt with the first `n` rows claimable then, up to the batch size. */
  ghost predicate RanBatch(cfg: Config, reachable: bool, healthy: bool, now: int, rows: Table, docs: Docs,
                           rows': Table, docs': Docs, until: nat, n: nat)
    requires cfg.Normalized()
  {
    var found := Candidates(rows, now, 1, until, cfg.batchSize);
    n == |found| && BatchDone(cfg, reachable, healthy, found, n, rows, docs, rows', docs', until)
  }

  lemma BatchWorks(cfg: Config, healthy: bool, now: int, rows: Table, docs: Docs, rows': Table, docs': Docs,
                   until: nat, n: nat)
    requires cfg.Normalized() && RanBatch(cfg, true, healthy, now, rows, docs, rows', docs', until, n) && n > 0
    ensures Work(rows', cfg.maxAttempts, 1, until) < Work(rows, cfg.maxAttempts, 1, until)
  {
  }

  lemma BatchCounts(cfg: Config, reachable: bool, healthy: bool, now: int, start: Table, rows: Table, docs: Docs,
                    rows': Table, docs': Docs, until: nat, sofar: DrainResult, batch: BatchResult)
    requires cfg.Normalized() && RanBatch(cfg, reachable, healthy, now, rows, docs, rows', docs', until, batch.claimed)
    requires Counted(start, rows, sofar.processed, sofar.dead) && Counted(rows, rows', batch.processed, batch.dead)
    ensures Counted(start, rows', Add(sofar, batch).processed, Add(sofar, batch).dead)
    ensures reachable && batch.claimed > 0 ==>
              Work(rows', cfg.maxAttempts, 1, until) < Work(rows, cfg.maxAttempts, 1, until)
  {
    CountedOneMore(start, rows, rows', sofar, batch);
    if reachable && batch.claimed > 0 {
      BatchWorks(cfg, healthy, now, rows, docs, rows', docs', until, batch.claimed);
    }
  }

  lemma FoundRows(t: Table, until: int, now: int, limit: nat)
    ensures var found := Candidates(t, now, 1, until, limit);
            && InIdOrder(found)
            && (forall e :: e in found ==> 1 <= e.id < until && e.id in t && t[e.id] == e.row && !e.row.Terminal())
  {
    CandidatesAreClaimable(t, now, 1, until, limit);
  }

  lemma LeasedRows(t: Table, until: int, found: seq<OutboxEvent>, leaseUntil: int, first: nat)
    requires InIdOrder(found) && first >= 1
    requires forall e :: e in found ==> 1 <= e.id < until && e.id in t && t[e.id] == e.row && !e.row.Terminal()
    ensures var claimed := Leased(found, |found|, leaseUntil, first);
            var leased := LeaseAll(t, found, |found|, leaseUntil, first);
            && InIdOrder(claimed) && Held(leased, until, claimed, 0)
            && (forall i :: 0 <= i < |found| ==> claimed[i].id == found[i].id && claimed[i].row.op == found[i].row.op)
  {
    LeasedAt(found, |found|, leaseUntil, first);
    LeaseAllAt(t, found, |found|, leaseUntil, first);
    assert forall i :: 0 <= i < |found| ==> found[i] in found;
  }

  lemma {:induction false} LeaseAllKeys(t: Table, found: seq<OutboxEvent>, n: nat, leaseUntil: int, first: nat)
    requires n <= |found| && forall e :: e in found ==> e.id in t
    ensures LeaseAll(t, found, n, leaseUntil, first).Keys == t.Keys
    ensures forall id :: id in t && !Mentions(found, id) ==> LeaseAll(t, found, n, leaseUntil, first)[id] == t[id]
  {
    if n > 0 {
      LeaseAllKeys(t, found, n - 1, leaseUntil, first);
      assert found[n - 1] in found;
      assert Mentions(found, found[n - 1].id);
    }
  }

  /** The batch as claimed, against the rows it was claimed from. */
  ghost predicate Copies(claimed: seq<OutboxEvent>, found: seq<OutboxEvent>) {
    && |claimed| == |found|
    && (forall i :: 0 <= i < |found| ==> claimed[i].id == found[i].id && claimed[i].row.op == found[i].row.op)
  }

  ghost predicate OnlyLeased(t: Table, leased: Table, found: seq<OutboxEvent>, maxAttempts: int, until: int) {
    && Work(leased, maxAttempts, 1, until) == Work(t, maxAttempts, 1, until)
    && Counted(t, leased, 0, 0)
    && leased.Keys == t.Keys
    && (forall id :: id in leased && !Mentions(found, id) ==> leased[id] == t[id])
  }

  lemma ClaimedBatch(t: Table, until: int, cfg: Config, now: int, first: nat, claimed: seq<OutboxEvent>, leased: Table)
    requires cfg.Normalized() && (claimed, leased) == BatchOf(t, now, until, cfg.batchSize, cfg.lease, first)
    requires first >= 1
    ensures InIdOrder(claimed) && Held(leased, until, claimed, 0)
    ensures var found := Candidates(t, now, 1, until, cfg.batchSize);
            Copies(claimed, found) && OnlyLeased(t, leased, found, cfg.maxAttempts, until)
  {
    FoundRows(t, until, now, cfg.batchSize);
    FoundLeased(t, until, Candidates(t, now, 1, until, cfg.batchSize), now + cfg.lease, first, cfg.maxAttempts);
  }

  lemma ClaimedHeld(t: Table, until: int, cfg: Config, now: int, first: nat, claimed: seq<OutboxEvent>, leased: Table)
    requires cfg.Normalized() && (claimed, leased) == BatchOf(t, now, until, cfg.batchSize, cfg.lease, first)
    requires first >= 1
    ensures InIdOrder(claimed) && Held(leased, until, claimed, 0)
  {
    ClaimedBatch(t, until, cfg, now, first, claimed, leased);
  }

  lemma FoundLeased(t: Table, until: int, found: seq<OutboxEvent>, leaseUntil: int, first: nat, maxAttempts: int)
    requires InIdOrder(found) && first >= 1
    requires forall e :: e in found ==> 1 <= e.id < until && e.id in t && t[e.id] == e.row && !e.row.Terminal()
    ensures var claimed := Leased(found, |found|, leaseUntil, first);
            var leased := LeaseAll(t, found, |found|, leaseUntil, first);
            && InIdOrder(claimed) && Held(leased, until, claimed, 0)
            && Copies(claimed, found) && OnlyLeased(t, leased, found, maxAttempts, until)
  {
    LeasedRows(t, until, found, leaseUntil, first);
    LeaseAllKeys(t, found, |found|, leaseUntil, first);
    WorkAfterLease(t, found, |found|, leaseUntil, first, maxAttempts, until);
    ClaimsNotCounted(t, found, |found|, leaseUntil, first);
  }

  lemma BatchFromStart(t: Table, until: nat, cfg: Config, now: int, first: nat, claimed: seq<OutboxEvent>,
                       leased: Table, reachable: bool, healthy: bool, docs: Docs, rows': Table, docs': Docs)
    requires cfg.Normalized() && (claimed, leased) == BatchOf(t, now, until, cfg.batchSize, cfg.lease, first)
    requires first >= 1
    requires BatchDone(cfg, reachable, healthy, claimed, |claimed|, leased, docs, rows', docs', until)
    ensures RanBatch(cfg, reachable, healthy, now, t, docs, rows', docs', until, |claimed|)
  {
    var found := Candidates(t, now, 1, until, cfg.batchSize);
    ClaimedBatch(t, until, cfg, now, first, claimed, leased);
    assert OpsOf(claimed) == OpsOf(found);
    forall id | id in t && !Mentions(found, id) ensures rows'[id] == t[id] {
      assert !Mentions(claimed, id);
    }
    forall j | 0 <= j < |found| && healthy ensures Ended(rows', docs, found, j) {
      assert Ended(rows', docs, claimed, j);
    }
  }

  /** A batch processed to its end, as seen from before it was claimed. */
  lemma BatchRan(cfg: Config, reachable: bool, healthy: bool, now: int, first: nat, t: Table, docs: Docs,
                 claimed: seq<OutboxEvent>, leased: Table, st: State, docs': Docs, batch: BatchResult)
    requires cfg.Normalized() && Reachable(cfg, st) && first >= 1
    requires (claimed, leased) == BatchOf(t, now, st.nextId, cfg.batchSize, cfg.lease, first)
    requires SoFar(cfg, reachable, healthy, claimed, |claimed|, leased, docs, st.table, docs', st.nextId, batch)
    ensures RanBatch(cfg, reachable, healthy, now, t, docs, st.table, docs', st.nextId, |claimed|)
    ensures Counted(t, st.table, batch.processed, batch.dead)
    ensures claimed == [] ==> NoneClaimable(st.table, now)
  {
    ClaimedBatch(t, st.nextId, cfg, now, first, claimed, leased);
    BatchFromStart(t, st.nextId, cfg, now, first, claimed, leased, reachable, healthy, docs, st.table, docs');
    if claimed == [] {
      NothingClaimable(cfg, reachable, healthy, t, docs, st.table, docs', st.nextId, now, st);
    }
  }

  // --- Draining ---

  ghost predicate NoneClaimable(t: Table, now: int) {
    forall id :: id in t ==> !Claimable(t[id], now)
  }

  ghost predicate AllReady(t: Table, clock: int) {
    forall id :: id in t && !t[id].Terminal() ==> Claimable(t[id], clock)
  }

  /** Row `j` of the list is still as it was, and ready. */
  ghost predicate StillReady(t: Table, until: int, all: seq<OutboxEvent>, j: nat, clock: int)
    requires j < |all|
  {
    1 <= all[j].id < until && all[j].id in t && t[all[j].id] == all[j].row && Claimable(all[j].row, clock)
  }

  ghost predicate OpenIsListed(t: Table, rest: seq<OutboxEvent>, id: int) {
    id in t && !t[id].Terminal() ==> Mentions(rest, id)
  }

  /** The first `c` of the rows ready at the start are finished, the others still as they were. */
  ghost predicate DrainedUpTo(t: Table, until: int, all: seq<OutboxEvent>, c: nat, clock: int)
    requires c <= |all|
  {
    && InIdOrder(all)
    && (forall j :: c <= j < |all| ==> StillReady(t, until, all, j, clock))
    && (forall id :: OpenIsListed(t, all[c..], id))
  }

  /** ... as delivering them once, in id order, ends; and Elasticsearch holds what that gives. */
  ghost predicate Drained(t: Table, docs: Docs, until: int, start: Docs, all: seq<OutboxEvent>, c: nat, clock: int) {
    && c <= |all| && DrainedUpTo(t, until, all, c, clock)
    && docs == PerformAll(start, OpsOf(all)[..c]) && Settled(t, start, all, c)
  }

  lemma AllDrained(t: Table, docs: Docs, until: int, start: Docs, all: seq<OutboxEvent>, clock: int)
    requires Drained(t, docs, until, start, all, |all|, clock)
    ensures docs == PerformAll(start, OpsOf(all))
    ensures forall id :: id in t ==> t[id].Terminal()
  {
    assert OpsOf(all)[..|all|] == OpsOf(all);
    forall id | id in t ensures t[id].Terminal() {
      assert OpenIsListed(t, all[|all|..], id) && !Mentions(all[|all|..], id);
    }
  }

  /** `ready` lists exactly the rows of [from, until) that can be claimed at `now`, in id order. */
  ghost predicate Lists(t: Table, now: int, from: int, until: int, ready: seq<OutboxEvent>) {
    && InIdOrder(ready)
    && (forall i :: 0 <= i < |ready| ==>
          && from <= ready[i].id < until && ready[i].id in t && t[ready[i].id] == ready[i].row
          && Claimable(ready[i].row, now))
    && (forall id :: from <= id < until && id in t && Claimable(t[id], now) ==> Mentions(ready, id))
  }

  /** `k` of the listed rows come before `from`. */
  ghost predicate Before(ready: seq<OutboxEvent>, from: int, k: nat) {
    k <= |ready| && forall i :: 0 <= i < |ready| ==> (i < k <==> ready[i].id < from)
  }

  /** The next listed row is `from` itself, or comes later. */
  lemma NextListed(t: Table, now: int, low: int, from: int, until: int, ready: seq<OutboxEvent>, k: nat)
    requires Lists(t, now, low, until, ready) && low <= from < until && Before(ready, from, k)
    ensures from in t && Claimable(t[from], now) ==>
              k < |ready| && ready[k] == OutboxEvent(from, t[from]) && Before(ready, from + 1, k + 1)
    ensures !(from in t && Claimable(t[from], now)) ==> Before(ready, from + 1, k)
  {
    if from in t && Claimable(t[from], now) {
      var i :| 0 <= i < |ready| && ready[i].id == from;
      assert i == k by {
        assert ready[k].id >= from;
      }
    }
  }

  lemma TakeFirst(ready: seq<OutboxEvent>, limit: nat)
    requires ready != [] && limit > 0
    ensures ready[..Min(limit, |ready|)] == [ready[0]] + ready[1..][..Min(limit - 1, |ready| - 1)]
  {
  }

  lemma CandidatesFirst(t: Table, now: int, from: int, until: int, limit: nat, ready: seq<OutboxEvent>)
    requires from < until && limit > 0 && from in t && Claimable(t[from], now)
    requires ready != [] && ready[0] == OutboxEvent(from, t[from])
    requires Candidates(t, now, from + 1, until, limit - 1) == ready[1..][..Min(limit - 1, |ready| - 1)]
    ensures Candidates(t, now, from, until, limit) == ready[..Min(limit, |ready|)]
  {
    TakeFirst(ready, limit);
  }

  lemma {:induction false} CandidatesFrom(t: Table, now: int, low: int, from: int, until: int, limit: nat,
                                          ready: seq<OutboxEvent>, k: nat)
    requires Lists(t, now, low, until, ready) && low <= from && Before(ready, from, k)
    ensures Candidates(t, now, from, until, limit) == ready[k..][..Min(limit, |ready| - k)]
    decreases until - from
  {
    if from >= until {
      assert ready != [] ==> ready[|ready| - 1].id < until;
    } else if limit > 0 {
      NextListed(t, now, low, from, until, ready, k);
      if from in t && Claimable(t[from], now) {
        CandidatesFrom(t, now, low, from + 1, until, limit - 1, ready, k + 1);
        assert ready[k..][1..] == ready[k + 1..];
        CandidatesFirst(t, now, from, until, limit, ready[k..]);
      } else {
        CandidatesFrom(t, now, low, from + 1, until, limit, ready, k);
      }
    }
  }

  /** The candidate query returns the claimable rows, whoever they are, up to its limit. */
  lemma CandidatesAre(t: Table, now: int, from: int, until: int, limit: nat, ready: seq<OutboxEvent>)
    requires Lists(t, now, from, until, ready)
    ensures Candidates(t, now, from, until, limit) == ready[..Min(limit, |ready|)]
  {
    CandidatesFrom(t, now, from, from, until, limit, ready, 0);
    assert ready[0..] == ready;
  }

  lemma {:induction false} CandidatesFit(t: Table, now: int, from: int, until: int, limit: nat)
    requires from <= until
    ensures |Candidates(t, now, from, until, limit)| <= until - from
    decreases until - from
  {
    if limit > 0 && from < until {
      CandidatesFit(t, now, from + 1, until, limit);
      CandidatesFit(t, now, from + 1, until, limit - 1);
    }
  }

  lemma DrainStarts(st: State, cfg: Config, clock: int, docs: Docs)
    requires cfg.Normalized() && Reachable(cfg, st) && AllReady(st.table, clock)
    ensures Drained(st.table, docs, st.nextId, docs, Candidates(st.table, clock, 1, st.nextId, st.nextId), 0, clock)
  {
    ProtocolInvariant.ReachableInv(cfg, st);
    ReadyAreListed(st.table, st.nextId, docs, clock);
  }

  lemma ReadyAreListed(t: Table, until: nat, docs: Docs, clock: int)
    requires until >= 1 && AllReady(t, clock) && forall id :: id in t ==> 1 <= id < until
    ensures Drained(t, docs, until, docs, Candidates(t, clock, 1, until, until), 0, clock)
  {
    var all := Candidates(t, clock, 1, until, until);
    CandidatesAreClaimable(t, clock, 1, until, until);
    CandidatesFit(t, clock, 1, until, until);
    assert all[0..] == all && OpsOf(all)[..0] == [];
    forall j | 0 <= j < |all| ensures StillReady(t, until, all, j, clock) {
      assert all[j] in all;
    }
    var rest := all[0..];
    forall id ensures OpenIsListed(t, rest, id) {
      if id in t && !t[id].Terminal() {
        CandidatesAreAll(t, clock, 1, until, until, id);
        var i :| 0 <= i < |all| && all[i] == OutboxEvent(id, t[id]);
      }
    }
  }

  /** The next batch is the next stretch of the rows ready at the start. */
  lemma NextBatch(rows: Table, all: seq<OutboxEvent>, c: nat, clock: int, now: int, until: int, limit: nat)
    requires c <= |all| && clock <= now && DrainedUpTo(rows, until, all, c, clock)
    ensures Candidates(rows, now, 1, until, limit) == all[c..][..Min(limit, |all| - c)]
  {
    var rest := all[c..];
    assert forall i :: 0 <= i < |rest| ==> rest[i] == all[c + i] && StillReady(rows, until, all, c + i, clock);
    forall id | 1 <= id < until && id in rows && Claimable(rows[id], now) ensures Mentions(rest, id) {
      assert OpenIsListed(rows, rest, id);
    }
    assert Lists(rows, now, 1, until, rest);
    CandidatesAre(rows, now, 1, until, limit, rest);
  }

  lemma DrainedRows(cfg: Config, rows: Table, docs: Docs, all: seq<OutboxEvent>, c: nat, n: nat, clock: int,
                    rows': Table, docs': Docs, until: int)
    requires c + n <= |all| && DrainedUpTo(rows, until, all, c, clock)
    requires BatchDone(cfg, true, true, all[c..][..n], n, rows, docs, rows', docs', until)
    ensures DrainedUpTo(rows', until, all, c + n, clock)
  {
    var found := all[c..][..n];
    assert forall i :: 0 <= i < n ==> found[i] == all[c + i];
    forall j | 0 <= j < n ensures found[j].id in rows' && rows'[found[j].id].Terminal() {
      assert Ended(rows', docs, found, j);
    }
    forall j | c + n <= j < |all| ensures StillReady(rows', until, all, j, clock) {
      assert StillReady(rows, until, all, j, clock) && !Mentions(found, all[j].id);
    }
    var rest := all[c + n..];
    forall id ensures OpenIsListed(rows', rest, id) {
      if id in rows' && !rows'[id].Terminal() {
        StillMentioned(all, c, n, rows, rows', id);
      }
    }
  }

  lemma StillMentioned(all: seq<OutboxEvent>, c: nat, n: nat, rows: Table, rows': Table, id: int)
    requires c + n <= |all|
    requires rows'.Keys == rows.Keys
    requires forall id :: id in rows && !Mentions(all[c..][..n], id) ==> rows'[id] == rows[id]
    requires forall j :: 0 <= j < n ==> all[c..][..n][j].id in rows' && rows'[all[c..][..n][j].id].Terminal()
    requires OpenIsListed(rows, all[c..], id)
    requires id in rows' && !rows'[id].Terminal()
    ensures Mentions(all[c + n..], id)
  {
    var found := all[c..][..n];
    assert !Mentions(found, id);
    assert rows'[id] == rows[id];
    var i :| 0 <= i < |all[c..]| && all[c..][i].id == id;
    assert forall k :: 0 <= k < n ==> found[k] == all[c..][k];
    assert all[c + n..][i - n].id == id;
  }

  lemma DrainGoesOn(cfg: Config, rows: Table, docs: Docs, all: seq<OutboxEvent>, c: nat, clock: int, now: int,
                    rows': Table, docs': Docs, until: nat, start: Docs, n: nat)
    requires cfg.Normalized() && clock <= now && Drained(rows, docs, until, start, all, c, clock)
    requires RanBatch(cfg, true, true, now, rows, docs, rows', docs', until, n)
    ensures Drained(rows', docs', until, start, all, c + n, clock) && (n == 0 ==> c == |all|)
    ensures n == Min(cfg.batchSize, |all| - c)
  {
    NextBatch(rows, all, c, clock, now, until, cfg.batchSize);
    DrainedRows(cfg, rows, docs, all, c, n, clock, rows', docs', until);
    DrainedDocs(start, all, c, n);
    StaySettled(rows, docs, start, all, c, n, rows');
  }

  lemma StaySettled(rows: Table, docs: Docs, start: Docs, all: seq<OutboxEvent>, c: nat, n: nat, rows': Table)
    requires c + n <= |all| && InIdOrder(all) && rows'.Keys == rows.Keys
    requires forall id :: id in rows && !Mentions(all[c..][..n], id) ==> rows'[id] == rows[id]
    requires docs == PerformAll(start, OpsOf(all)[..c])
    requires Settled(rows, start, all, c) && Settled(rows', docs, all[c..][..n], n)
    ensures Settled(rows', start, all, c + n)
  {
    var found := all[c..][..n];
    forall j | 0 <= j < c + n ensures Ended(rows', start, all, j) {
      if j < c {
        assert Ended(rows, start, all, j) && !Mentions(found, all[j].id);
      } else {
        assert found[j - c] == all[j] && Ended(rows', docs, found, j - c);
        assert OpsOf(all)[..j] == OpsOf(all)[..c] + OpsOf(found)[..j - c];
        PerformAllAppend(start, OpsOf(all)[..c], OpsOf(found)[..j - c]);
      }
    }
  }

  /** What that many batches take of `total` rows, each full unless there are too few left. */
  function Taken(total: nat, batches: nat, size: nat): (taken: nat)
    ensures taken <= total
  {
    if batches == 0 then 0
    else
      var before := Taken(total, batches - 1, size);
      before + Min(size, total - before)
  }

  lemma TakenOneMore(total: nat, batches: nat, size: nat)
    ensures var taken := Taken(total, batches, size);
            Taken(total, batches + 1, size) == taken + Min(size, total - taken)
  {
  }

  lemma {:induction false} TakenIs(total: nat, batches: nat, size: nat)
    ensures Taken(total, batches, size) == Min(total, batches * size)
  {
    if batches > 0 {
      TakenIs(total, batches - 1, size);
      assert batches * size == (batches - 1) * size + size;
    }
  }

  /** A bound that was not reached would have changed nothing. */
  lemma TakenAtBound(total: nat, batches: nat, bound: nat, size: nat)
    requires batches <= bound && (batches == bound || Taken(total, batches, size) == total)
    ensures Taken(total, batches, size) == Min(total, bound * size)
  {
    TakenIs(total, batches, size);
    TimesGrows(batches, bound, size);
  }

  lemma TimesGrows(a: nat, b: nat, size: nat)
    requires a <= b
    ensures a * size <= b * size
  {
  }

  lemma DrainedDocs(start: Docs, all: seq<OutboxEvent>, c: nat, n: nat)
    requires c + n <= |all|
    ensures var found := all[c..][..n];
            PerformAll(PerformAll(start, OpsOf(all)[..c]), OpsOf(found)[..n]) == PerformAll(start, OpsOf(all)[..c + n])
  {
    var found := all[c..][..n];
    assert OpsOf(found)[..n] == OpsOf(found);
    assert OpsOf(all)[..c + n] == OpsOf(all)[..c] + OpsOf(found);
    PerformAllAppend(start, OpsOf(all)[..c], OpsOf(found));
  }

  lemma NothingClaimable(cfg: Config, reachable: bool, healthy: bool, rows: Table, docs: Docs, rows': Table,
                         docs': Docs, until: nat, now: int, st: State)
    requires cfg.Normalized() && Reachable(cfg, st) && st.table == rows' && st.nextId == until
    requires RanBatch(cfg, reachable, healthy, now, rows, docs, rows', docs', until, 0)
    ensures rows' == rows
    ensures NoneClaimable(rows', now)
  {
    ProtocolInvariant.ReachableInv(cfg, st);
    forall id | id in rows ensures rows'[id] == rows[id] && !Claimable(rows[id], now) {
      assert !Mentions([], id);
      if Claimable(rows[id], now) {
        CandidatesAreAll(rows, now, 1, until, cfg.batchSize, id);
      }
    }
  }
}
