/** The outbox_events table and the SQL statements run against it, each an atomic function
    of the table. */
module Outbox {
  import opened Wrappers
  import opened Documents
  import opened Policy

  datatype Status = Pending | Processing | Sent | Dead

  /** Lease tokens are numbered in the order they are drawn; 0 stands for the empty token. */
  const NO_TOKEN: nat := 0

  datatype Row = Row(
    tableName: string, op: Operation,
    status: Status, attempts: nat,
    nextRetryAt: Option<int>, lastError: string,
    leasedUntil: Option<int>, leaseToken: nat,
    createdAt: int, sentAt: Option<int>)
  {
    predicate Terminal() { status.Sent? || status.Dead? }

    /** What a delivery needs; no statement ever changes it. */
    predicate SameContent(other: Row) {
      tableName == other.tableName && op == other.op && createdAt == other.createdAt
    }
  }

  /** A row as a relay holds it in memory. */
  datatype OutboxEvent = OutboxEvent(id: int, row: Row)

  predicate InIdOrder(events: seq<OutboxEvent>) {
    forall i, j :: 0 <= i < j < |events| ==> events[i].id < events[j].id
  }

  predicate Mentions(events: seq<OutboxEvent>, id: int) {
    exists i :: 0 <= i < |events| && events[i].id == id
  }

  type Table = map<int, Row>

  function NewRow(tableName: string, op: Operation, now: int): Row {
    Row(tableName, op, Pending, 0, None, "", None, NO_TOKEN, now, None)
  }

  /** SQL `column IS NULL OR column <= now`. */
  predicate Passed(column: Option<int>, now: int) {
    column.None? || column.value <= now
  }

  predicate Claimable(row: Row, now: int) {
    && Passed(row.nextRetryAt, now)
    && (|| (row.status.Pending? && Passed(row.leasedUntil, now))
        || (row.status.Processing? && row.leasedUntil.Some? && row.leasedUntil.value <= now))
  }

  /** The candidate query: claimable rows with ids in [from, until), in id order, at most `limit`. */
  function Candidates(t: Table, now: int, from: int, until: int, limit: nat): seq<OutboxEvent>
    decreases until - from
  {
    if limit == 0 || from >= until then []
    else if from in t && Claimable(t[from], now) then
      [OutboxEvent(from, t[from])] + Candidates(t, now, from + 1, until, limit - 1)
    else
      Candidates(t, now, from + 1, until, limit)
  }

  function LeaseRow(row: Row, leaseUntil: int, token: nat): Row {
    row.(status := Processing, leasedUntil := Some(leaseUntil), leaseToken := token)
  }

  /** The compare-and-set of tryClaimRow: the claimability test is repeated inside the update. */
  function TryClaim(t: Table, id: int, now: int, leaseUntil: int, token: nat): (r: (Table, bool)) {
    if id in t && Claimable(t[id], now) then
      (t[id := LeaseRow(t[id], leaseUntil, token)], true)
    else
      (t, false)
  }

  /** The columns that markSent, markRetry and markDead write; the new attempt count comes from
      the relay's in-memory row, not from the table. */
  function Marked(row: Row, attempts: nat, mark: Mark, reason: string): Row {
    match mark
    case MarkSent(sentAt) =>
      row.(status := Sent, sentAt := Some(sentAt), leasedUntil := None, leaseToken := NO_TOKEN,
           lastError := "", nextRetryAt := None)
    case MarkRetry(retryAt) =>
      row.(status := Pending, attempts := attempts + 1, nextRetryAt := Some(retryAt),
           lastError := reason, leasedUntil := None, leaseToken := NO_TOKEN)
    case MarkDead =>
      row.(status := Dead, attempts := attempts + 1, lastError := reason,
           leasedUntil := None, leaseToken := NO_TOKEN, nextRetryAt := None)
  }

  /** rowLeaseToken and updateClaimedRow: the fenced write-back. */
  function WriteBack(t: Table, event: OutboxEvent, mark: Mark, reason: string): Result<Table> {
    if event.id <= 0 then Failure("invalid row id")
    else if event.row.leaseToken == NO_TOKEN then Failure("missing lease token")
    else if event.id in t && t[event.id].status.Processing? && t[event.id].leaseToken == event.row.leaseToken then
      Success(t[event.id := Marked(t[event.id], event.row.attempts, mark, reason)])
    else Failure("lease mismatch or row not claimed")
  }

  /** ReplayOutbox resets every column but the lease token. */
  function Reset(row: Row): Row {
    row.(status := Pending, attempts := 0, nextRetryAt := None, lastError := "", leasedUntil := None, sentAt := None)
  }

  lemma {:induction false} CandidatesAreClaimable(t: Table, now: int, from: int, until: int, limit: nat)
    ensures var found := Candidates(t, now, from, until, limit);
            && |found| <= limit
            && (forall c | c in found :: from <= c.id < until && c.id in t && c.row == t[c.id] && Claimable(c.row, now))
            && InIdOrder(found)
    decreases until - from
  {
    if limit > 0 && from < until {
      if from in t && Claimable(t[from], now) {
        CandidatesAreClaimable(t, now, from + 1, until, limit - 1);
        var rest := Candidates(t, now, from + 1, until, limit - 1);
        assert Candidates(t, now, from, until, limit) == [OutboxEvent(from, t[from])] + rest;
      } else {
        CandidatesAreClaimable(t, now, from + 1, until, limit);
      }
    }
  }

  /** A query that stays below its limit has seen every claimable row. */
  lemma {:induction false} CandidatesAreAll(t: Table, now: int, from: int, until: int, limit: nat, id: int)
    requires from <= id < until && id in t && Claimable(t[id], now)
    requires |Candidates(t, now, from, until, limit)| < limit
    ensures OutboxEvent(id, t[id]) in Candidates(t, now, from, until, limit)
    decreases until - from
  {
    if from in t && Claimable(t[from], now) {
      if from < id {
        CandidatesAreAll(t, now, from + 1, until, limit - 1, id);
      }
    } else {
      CandidatesAreAll(t, now, from + 1, until, limit, id);
    }
  }
}
