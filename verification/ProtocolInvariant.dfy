/** What every step of the protocol keeps. */
module ProtocolInvariant {
  import opened Wrappers
  import opened Documents
  import opened Policy
  import opened Outbox
  import opened Protocol

  // --- The log on its own ---

  /** The attempt count the log leaves in the table for row `id`. */
  function AttemptsOf(log: seq<Event>, id: int): nat {
    if log == [] then 0
    else
      var before, e := log[..|log| - 1], log[|log| - 1];
      if e.id != id then AttemptsOf(before, id)
      else match e
        case Claimed(_, _, _, _) => AttemptsOf(before, id)
        case Wrote(_, _, _, attempts, mark, _, _, _) => if mark.MarkSent? then AttemptsOf(before, id) else attempts + 1
        case Replayed(_) => 0
        case Removed(_) => AttemptsOf(before, id)
  }

  lemma AttemptsAfter(log: seq<Event>, e: Event, id: int)
    ensures AttemptsOf(log + [e], id) ==
            if e.id == id && e.Wrote? && !e.mark.MarkSent? then e.attempts + 1
            else if e.id == id && e.Replayed? then 0
            else AttemptsOf(log, id)
  {
    assert (log + [e])[..|log|] == log;
  }

  lemma {:induction false} NeverMentioned(log: seq<Event>, id: int)
    requires Latest(log, id).None?
    ensures AttemptsOf(log, id) == 0
  {
    if log != [] {
      NeverMentioned(log[..|log| - 1], id);
    }
  }

  /** Why statement `e` could take effect, given everything logged before it. */
  ghost predicate Justified(cfg: Config, before: seq<Event>, e: Event) {
    var latest := Latest(before, e.id);
    match e
    case Claimed(_, _, _, now) =>
      // A claim waits for the previous lease or the retry time, and never takes a finished row.
      (match latest
       case None => true
       case Some(Claimed(_, _, _, previous)) => previous + cfg.lease <= now
       case Some(Wrote(_, _, _, _, mark, _, _, _)) => mark.MarkRetry? && mark.retryAt <= now
       case Some(Replayed(_)) => true
       case Some(Removed(_)) => false)
    case Wrote(relay, id, token, attempts, mark, result, readAt, at) =>
      // A write-back follows its own claim immediately.
      && latest.Some? && latest.value.Claimed?
      && latest.value.relay == relay && latest.value.token == token
      && latest.value.now <= readAt <= at
      && mark == Decide(cfg, attempts, result, readAt)
      && Carries(before, e.id, attempts, AttemptsOf(before, e.id), latest.value.now)
    case Replayed(_) => !(latest.Some? && latest.value.Removed?)
    case Removed(_) => !(latest.Some? && latest.value.Removed?)
  }

  /** What a justified claim or retry follows. */
  predicate Follows(cfg: Config, latest: Option<Event>, e: Event) {
    && (e.Claimed? && latest.Some? ==>
          || (latest.value.Claimed? && latest.value.now + cfg.lease <= e.now)
          || (latest.value.Wrote? && latest.value.mark.MarkRetry? && latest.value.mark.retryAt <= e.now)
          || latest.value.Replayed?)
    && (e.Wrote? ==> latest.Some? && latest.value.Claimed?)
  }

  lemma JustifiedFollows(cfg: Config, before: seq<Event>, e: Event)
    requires Justified(cfg, before, e)
    ensures Follows(cfg, Latest(before, e.id), e)
  {
  }

  ghost predicate LogJustified(cfg: Config, log: seq<Event>) {
    forall i {:trigger Justified(cfg, log[..i], log[i])} :: 0 <= i < |log| ==> Justified(cfg, log[..i], log[i])
  }

  lemma LogPrefix(cfg: Config, log: seq<Event>, n: nat)
    requires LogJustified(cfg, log) && n <= |log|
    ensures LogJustified(cfg, log[..n])
  {
    forall i | 0 <= i < n ensures Justified(cfg, log[..n][..i], log[..n][i]) {
      assert log[..n][..i] == log[..i];
      assert Justified(cfg, log[..i], log[i]);
    }
  }

  lemma LogShorter(cfg: Config, log: seq<Event>)
    requires log != [] && LogJustified(cfg, log)
    ensures LogJustified(cfg, log[..|log| - 1])
    ensures Justified(cfg, log[..|log| - 1], log[|log| - 1])
  {
    LogPrefix(cfg, log, |log| - 1);
  }

  ghost predicate NeverReplayed(log: seq<Event>, id: int) {
    forall i :: 0 <= i < |log| ==> log[i] != Replayed(id)
  }

  /** The row has been sent or is dead, or it is gone. */
  predicate Closed(latest: Option<Event>) {
    latest.Some? && (latest.value.Removed? || Final(latest.value))
  }

  /** A row that is claimed or written back was not closed before, unless it has been replayed since. */
  lemma {:induction false} OpenBefore(cfg: Config, log: seq<Event>, id: int, m: nat, k: nat)
    requires LogJustified(cfg, log) && forall i :: m <= i < k && i < |log| ==> log[i] != Replayed(id)
    requires m <= k < |log| && log[k].id == id && (log[k].Claimed? || log[k].Wrote?)
    ensures !Closed(Latest(log[..m], id))
    decreases k
  {
    assert Justified(cfg, log[..k], log[k]);
    JustifiedFollows(cfg, log[..k], log[k]);
    var j := LastAbout(log[..k], id);
    if j >= m {
      assert log[..k][j] == log[j];
      OpenBefore(cfg, log, id, m, j);
    } else {
      SameLatest(log, id, m, k);
    }
  }

  lemma SameLatest(log: seq<Event>, id: int, m: nat, k: nat)
    requires m <= k <= |log| && LastAbout(log[..k], id) < m
    ensures Latest(log[..m], id) == Latest(log[..k], id)
  {
    var i, j := LastAbout(log[..m], id), LastAbout(log[..k], id);
    assert j >= 0 ==> log[..m][j] == log[..k][j];
    assert i >= 0 ==> log[..k][i] == log[..m][i];
  }

  /** Tokens are drawn once each, in log order. */
  ghost predicate TokensGrow(log: seq<Event>, issued: nat, clock: int) {
    && (forall i :: 0 <= i < |log| && log[i].Claimed? ==> 1 <= log[i].token <= issued && log[i].now <= clock)
    && (forall i, j :: 0 <= i < j < |log| && log[i].Claimed? && log[j].Claimed? ==> log[i].token < log[j].token)
    && (forall i :: 0 <= i < |log| && log[i].Wrote? ==> log[i].at <= clock)
  }

  // --- The table against the log ---

  /** A row's columns are determined by the last statement about it. */
  ghost predicate RowMatches(cfg: Config, row: Row, latest: Option<Event>) {
    match latest
    case None =>
      && row.status.Pending? && row.attempts == 0 && row.nextRetryAt.None? && row.leasedUntil.None?
      && row.leaseToken == NO_TOKEN && row.sentAt.None? && row.lastError == ""
    case Some(Claimed(_, _, token, now)) =>
      && row.status.Processing? && row.leasedUntil == Some(now + cfg.lease) && row.leaseToken == token
      && Passed(row.nextRetryAt, now) && row.sentAt.None?
    case Some(Wrote(_, _, _, attempts, mark, result, _, _)) =>
      && row.leasedUntil.None? && row.leaseToken == NO_TOKEN
      && row.lastError == (if mark.MarkSent? then "" else result.Reason())
      && (match mark
          case MarkSent(sentAt) => row.status.Sent? && row.nextRetryAt.None? && row.sentAt == Some(sentAt)
          case MarkRetry(retryAt) =>
            row.status.Pending? && row.nextRetryAt == Some(retryAt) && row.attempts == attempts + 1 && row.sentAt.None?
          case MarkDead =>
            row.status.Dead? && row.nextRetryAt.None? && row.attempts == attempts + 1 && row.sentAt.None?)
    case Some(Replayed(_)) =>
      && row.status.Pending? && row.attempts == 0 && row.nextRetryAt.None? && row.leasedUntil.None?
      && row.sentAt.None? && row.lastError == ""
    case Some(Removed(_)) => false
  }

  ghost predicate TableMatches(cfg: Config, t: Table, log: seq<Event>, used: set<int>) {
    && (forall id :: id in t ==>
          id in used && RowMatches(cfg, t[id], Latest(log, id)) && t[id].attempts == AttemptsOf(log, id))
    && (forall id :: id !in t ==> Latest(log, id) == if id in used then Some(Removed(id)) else None)
  }

  // --- What relays remember against table and log ---

  /** Since position `seen`, some write-back set this row's retry time to no later than `now`. */
  ghost predicate Overtaken(log: seq<Event>, seen: nat, id: int, now: int) {
    exists k :: seen <= k < |log| && log[k].Wrote? && log[k].id == id
                && log[k].mark.MarkRetry? && log[k].mark.retryAt <= now <= log[k].at
  }

  ghost predicate ReplayedSince(log: seq<Event>, seen: nat, id: int) {
    exists k :: seen <= k < |log| && log[k] == Replayed(id)
  }

  predicate Blocked(row: Row, now: int) {
    row.Terminal() || !Passed(row.nextRetryAt, now)
  }

  /** A snapshot has the count of the time it was taken. It is still good, or it can no longer be claimed
      at `now`, or the row was written in one of two identified ways since. */
  ghost predicate SnapshotHolds(t: Table, log: seq<Event>, seen: nat, now: int, c: OutboxEvent) {
    c.id in t ==>
      && t[c.id].SameContent(c.row)
      && Dated(log, seen, c.id, c.row.attempts)
      && (Blocked(t[c.id], now) || CarriesFrom(log, seen, c.id, c.row.attempts, t[c.id].attempts, now))
  }

  /** The attempt count is the one the log left at position `seen`. */
  ghost predicate Dated(log: seq<Event>, seen: nat, id: int, attempts: nat) {
    seen <= |log| && attempts == AttemptsOf(log[..seen], id)
  }

  /** ... and still is the current one, save in two identified ways. */
  ghost predicate CarriesFrom(log: seq<Event>, seen: nat, id: int, attempts: nat, current: nat, now: int) {
    && Dated(log, seen, id, attempts)
    && (attempts == current || (current == 0 && ReplayedSince(log, seen, id)) || Overtaken(log, seen, id, now))
  }

  ghost predicate Carries(log: seq<Event>, id: int, attempts: nat, current: nat, now: int) {
    exists seen: nat :: CarriesFrom(log, seen, id, attempts, current, now)
  }

  /** A row in a relay's hands: the claim is on record, and while its lease is the current one the
      attempt count is the one it was read with. */
  ghost predicate HoldingHolds(t: Table, log: seq<Event>, relay: nat, now: int, e: OutboxEvent) {
    && Claimed(relay, e.id, e.row.leaseToken, now) in log
    && e.id > 0
    && (e.id in t ==> t[e.id].SameContent(e.row))
    && (e.id in t && t[e.id].status.Processing? && t[e.id].leaseToken == e.row.leaseToken ==>
          Carries(log, e.id, e.row.attempts, t[e.id].attempts, now))
  }

  /** Elasticsearch answered a delivery under this claim with success. */
  ghost predicate Accepted(delivered: seq<Delivery>, token: nat) {
    exists k :: 0 <= k < |delivered| && delivered[k].token == token && delivered[k].ok
  }

  lemma StillAccepted(delivered: seq<Delivery>, delivered': seq<Delivery>, token: nat)
    requires delivered <= delivered' && Accepted(delivered, token)
    ensures Accepted(delivered', token)
  {
    var k :| 0 <= k < |delivered| && delivered[k].token == token && delivered[k].ok;
    assert delivered'[k] == delivered[k];
  }

  ghost predicate PhaseHolds(t: Table, used: set<int>, clock: int, log: seq<Event>, delivered: seq<Delivery>,
                             relay: nat, p: Phase)
  {
    && (!p.Idle? ==> p.now <= clock)
    && (forall e :: e in p.Held() ==> HoldingHolds(t, log, relay, p.now, e))
    && (p.Claiming? ==>
          && p.seen <= |log|
          && (forall k :: p.seen <= k < |log| && log[k].Wrote? ==> p.now <= log[k].at)
          && (forall c :: c in p.candidates ==> c.id in used && SnapshotHolds(t, log, p.seen, p.now, c)))
    && (p.Timed? ==> p.now <= p.readAt <= clock)
    && ((p.Answered? || p.Timed?) && p.batch != [] && p.result.Ok() ==> Accepted(delivered, p.batch[0].row.leaseToken))
  }

  /** A row is recorded as sent only after Elasticsearch accepted it under that very claim. */
  ghost predicate SentAccepted(log: seq<Event>, delivered: seq<Delivery>) {
    forall i :: 0 <= i < |log| && log[i].Wrote? && log[i].mark.MarkSent? ==> Accepted(delivered, log[i].token)
  }

  ghost predicate Inv(cfg: Config, s: State) {
    && LogJustified(cfg, s.log)
    && TokensGrow(s.log, s.issued, s.clock)
    && TableMatches(cfg, s.table, s.log, s.used)
    && s.nextId >= 1 && (forall id :: id in s.used ==> 0 < id < s.nextId)
    && (forall r :: r in s.relays ==> PhaseHolds(s.table, s.used, s.clock, s.log, s.delivered, r, s.relays[r]))
    && SentAccepted(s.log, s.delivered)
  }

  // --- One statement at a time ---

  /** How one statement may change a row under a relay that still remembers it. */
  ghost predicate RowEvolves(before: Row, after: Row, log: seq<Event>, log': seq<Event>, id: int, clock: int) {
    && before.SameContent(after)
    && (|| after == before
        || (// claimed: a token never seen before, everything a snapshot is checked against kept
            && after.attempts == before.attempts && after.nextRetryAt == before.nextRetryAt && !before.Terminal()
            && (forall k :: 0 <= k < |log| && log[k].Claimed? ==> log[k].token != after.leaseToken))
        || (after.Terminal() && !after.status.Processing?)
        || (// retried
            && !after.status.Processing? && after.nextRetryAt.Some?
            && log' != [] && var e := log'[|log'| - 1];
               && |log'| > |log|
               && e.Wrote? && e.id == id && e.mark == MarkRetry(after.nextRetryAt.value) && e.at == clock)
        || (// replayed
            && !after.status.Processing? && after.attempts == 0
            && |log'| > |log| && log'[|log'| - 1] == Replayed(id)))
  }

  ghost predicate TableEvolves(t: Table, t': Table, log: seq<Event>, log': seq<Event>, used: set<int>, clock: int) {
    && log <= log'
    && (forall k :: |log| <= k < |log'| && log'[k].Wrote? ==> log'[k].at == clock)
    && (forall id :: id in t' && id in used ==> id in t && RowEvolves(t[id], t'[id], log, log', id, clock))
  }

  lemma SnapshotKept(t: Table, t': Table, log: seq<Event>, log': seq<Event>, used: set<int>, clock: int, seen: nat,
                     now: int, c: OutboxEvent)
    requires TableEvolves(t, t', log, log', used, clock)
    requires seen <= |log| && now <= clock && c.id in used
    requires SnapshotHolds(t, log, seen, now, c)
    ensures SnapshotHolds(t', log', seen, now, c)
  {
    if c.id in t' {
      KeptByPrefix(log, log', seen, c.id, now);
      assert log'[..seen] == log[..seen] && Dated(log', seen, c.id, c.row.attempts);
      var before, after := t[c.id], t'[c.id];
      assert RowEvolves(before, after, log, log', c.id, clock);
      if |log'| > |log| && log'[|log'| - 1] == Replayed(c.id) {
        assert ReplayedSince(log', seen, c.id);
      }
      if |log'| > |log| {
        var e := log'[|log'| - 1];
        if e.Wrote? && e.id == c.id && e.mark.MarkRetry? && e.mark.retryAt <= now && e.at == clock {
          assert Overtaken(log', seen, c.id, now);
        }
      }
    }
  }

  lemma KeptByPrefix(log: seq<Event>, log': seq<Event>, seen: nat, id: int, now: int)
    requires log <= log'
    ensures Overtaken(log, seen, id, now) ==> Overtaken(log', seen, id, now)
    ensures ReplayedSince(log, seen, id) ==> ReplayedSince(log', seen, id)
    ensures forall e :: e in log ==> e in log'
  {
    if Overtaken(log, seen, id, now) {
      var k :| seen <= k < |log| && log[k].Wrote? && log[k].id == id
               && log[k].mark.MarkRetry? && log[k].mark.retryAt <= now <= log[k].at;
      assert log'[k] == log[k];
    }
    if ReplayedSince(log, seen, id) {
      var k :| seen <= k < |log| && log[k] == Replayed(id);
      assert log'[k] == log[k];
    }
    forall e | e in log ensures e in log' {
      var k :| 0 <= k < |log| && log[k] == e;
      assert log'[k] == e;
    }
  }

  lemma CarriesKept(log: seq<Event>, log': seq<Event>, id: int, attempts: nat, current: nat, now: int)
    requires log <= log' && Carries(log, id, attempts, current, now)
    ensures Carries(log', id, attempts, current, now)
  {
    var seen: nat :| CarriesFrom(log, seen, id, attempts, current, now);
    KeptByPrefix(log, log', seen, id, now);
    assert log'[..seen] == log[..seen];
    assert CarriesFrom(log', seen, id, attempts, current, now);
  }

  lemma HoldingKept(t: Table, t': Table, log: seq<Event>, log': seq<Event>, used: set<int>, clock: int, relay: nat,
                    now: int, e: OutboxEvent)
    requires TableEvolves(t, t', log, log', used, clock)
    requires e.id in used
    requires HoldingHolds(t, log, relay, now, e)
    ensures HoldingHolds(t', log', relay, now, e)
  {
    KeptByPrefix(log, log', 0, e.id, now);
    if e.id in t' {
      var before, after := t[e.id], t'[e.id];
      assert RowEvolves(before, after, log, log', e.id, clock);
      var k :| 0 <= k < |log| && log[k] == Claimed(relay, e.id, e.row.leaseToken, now);
      assert log[k].Claimed? && log[k].token == e.row.leaseToken;
      if after.status.Processing? && after.leaseToken == e.row.leaseToken {
        CarriesKept(log, log', e.id, e.row.attempts, before.attempts, now);
      }
    }
  }

  lemma ClaimedIsKnown(cfg: Config, s: State, e: Event)
    requires Inv(cfg, s) && e in s.log
    ensures e.id in s.used
  {
    var k :| 0 <= k < |s.log| && s.log[k] == e;
    assert LastAbout(s.log, e.id) >= k;
    assert Latest(s.log, e.id).Some?;
  }

  lemma PhasesKept(cfg: Config, s: State, s': State, except: set<nat>)
    requires Inv(cfg, s)
    requires TableEvolves(s.table, s'.table, s.log, s'.log, s.used, s'.clock)
    requires s.clock <= s'.clock && s.used <= s'.used && s.delivered <= s'.delivered
    requires forall r :: r in s'.relays && r !in except ==> r in s.relays && s'.relays[r] == s.relays[r]
    ensures forall r :: r in s'.relays && r !in except ==>
              PhaseHolds(s'.table, s'.used, s'.clock, s'.log, s'.delivered, r, s'.relays[r])
  {
    forall r | r in s'.relays && r !in except
      ensures PhaseHolds(s'.table, s'.used, s'.clock, s'.log, s'.delivered, r, s'.relays[r])
    {
      PhaseKept(cfg, s, s', r);
    }
  }

  lemma PhaseKept(cfg: Config, s: State, s': State, r: nat)
    requires Inv(cfg, s) && r in s.relays
    requires TableEvolves(s.table, s'.table, s.log, s'.log, s.used, s'.clock)
    requires s.clock <= s'.clock && s.used <= s'.used && s.delivered <= s'.delivered
    ensures PhaseHolds(s'.table, s'.used, s'.clock, s'.log, s'.delivered, r, s.relays[r])
  {
    var p := s.relays[r];
    forall e | e in p.Held() ensures HoldingHolds(s'.table, s'.log, r, p.now, e) {
      ClaimedIsKnown(cfg, s, Claimed(r, e.id, e.row.leaseToken, p.now));
      HoldingKept(s.table, s'.table, s.log, s'.log, s.used, s'.clock, r, p.now, e);
    }
    if p.Claiming? {
      forall c | c in p.candidates ensures SnapshotHolds(s'.table, s'.log, p.seen, p.now, c) {
        SnapshotKept(s.table, s'.table, s.log, s'.log, s.used, s'.clock, p.seen, p.now, c);
      }
    }
    if (p.Answered? || p.Timed?) && p.batch != [] && p.result.Ok() {
      StillAccepted(s.delivered, s'.delivered, p.batch[0].row.leaseToken);
    }
  }

  lemma LogGrows(cfg: Config, log: seq<Event>, e: Event)
    requires LogJustified(cfg, log) && Justified(cfg, log, e)
    ensures LogJustified(cfg, log + [e])
  {
    var log' := log + [e];
    forall i | 0 <= i < |log'| ensures Justified(cfg, log'[..i], log'[i]) {
      assert log'[..i] == log[..i];
      if i == |log| {
        assert log[..i] == log;
      }
    }
  }

  /** The table after a statement about one row matches the longer log. */
  lemma TableMatchesAfter(cfg: Config, t: Table, log: seq<Event>, used: set<int>, e: Event, t': Table)
    requires TableMatches(cfg, t, log, used) && e.id in t
    requires forall id :: id != e.id ==> (id in t' <==> id in t) && (id in t ==> t'[id] == t[id])
    requires e.id in t' ==> RowMatches(cfg, t'[e.id], Some(e)) && t'[e.id].attempts == AttemptsOf(log + [e], e.id)
    requires e.id !in t' ==> e.Removed?
    ensures TableMatches(cfg, t', log + [e], used)
  {
    forall id ensures Latest(log + [e], id) == if e.id == id then Some(e) else Latest(log, id) {
      LatestAfter(log, e, id);
    }
    forall id | id in t' ensures t'[id].attempts == AttemptsOf(log + [e], id) {
      AttemptsAfter(log, e, id);
    }
  }

  /** A statement `e` about one row, run by `actor` (or by nobody in particular). */
  ghost predicate Statement(cfg: Config, s: State, s': State, e: Event) {
    && e.id in s.table
    && s'.log == s.log + [e]
    && Justified(cfg, s.log, e)
    && (forall id :: id != e.id ==>
          (id in s'.table <==> id in s.table) && (id in s.table ==> s'.table[id] == s.table[id]))
    && (e.id in s'.table ==>
          && RowMatches(cfg, s'.table[e.id], Some(e)) && s'.table[e.id].attempts == AttemptsOf(s'.log, e.id)
          && RowEvolves(s.table[e.id], s'.table[e.id], s.log, s'.log, e.id, s.clock))
    && (e.id !in s'.table ==> e.Removed?)
    && s'.clock == s.clock && s'.used == s.used && s'.nextId == s.nextId && s'.delivered == s.delivered
    && (if e.Claimed? then e.token == s.issued + 1 == s'.issued && e.now <= s.clock else s'.issued == s.issued)
    && (e.Wrote? ==> e.at == s.clock && (e.mark.MarkSent? ==> Accepted(s.delivered, e.token)))
  }

  lemma StatementEvolves(cfg: Config, s: State, s': State, e: Event)
    requires Inv(cfg, s) && Statement(cfg, s, s', e)
    ensures TableEvolves(s.table, s'.table, s.log, s'.log, s.used, s'.clock)
  {
    forall id | id in s'.table && id in s.used
      ensures id in s.table && RowEvolves(s.table[id], s'.table[id], s.log, s'.log, id, s'.clock)
    {
      if id != e.id {
        assert s'.table[id] == s.table[id];
      }
    }
  }

  lemma TokensGrowAfter(cfg: Config, s: State, s': State, e: Event)
    requires Inv(cfg, s) && Statement(cfg, s, s', e)
    ensures TokensGrow(s'.log, s'.issued, s'.clock) && SentAccepted(s'.log, s'.delivered)
  {
    assert forall i :: 0 <= i < |s.log| ==> s'.log[i] == s.log[i];
  }

  lemma StatementKeeps(cfg: Config, s: State, s': State, e: Event, actors: set<nat>)
    requires Inv(cfg, s) && Statement(cfg, s, s', e)
    requires forall r :: r in s'.relays && r !in actors ==> r in s.relays && s'.relays[r] == s.relays[r]
    requires forall r :: r in s'.relays && r in actors ==>
               PhaseHolds(s'.table, s'.used, s'.clock, s'.log, s'.delivered, r, s'.relays[r])
    ensures Inv(cfg, s')
  {
    LogGrows(cfg, s.log, e);
    TableMatchesAfter(cfg, s.table, s.log, s.used, e, s'.table);
    StatementEvolves(cfg, s, s', e);
    TokensGrowAfter(cfg, s, s', e);
    PhasesKept(cfg, s, s', actors);
  }

  // --- Each step ---

  lemma InitialInv(cfg: Config, clock: int)
    ensures Inv(cfg, InitialState(clock))
  {
  }

  lemma QuietStep(cfg: Config, s: State, s': State, except: set<nat>)
    requires Inv(cfg, s)
    requires s'.table == s.table && s'.log == s.log && s'.used == s.used && s'.nextId == s.nextId
    requires s.issued <= s'.issued
    requires s.clock <= s'.clock && s.delivered <= s'.delivered
    requires forall r :: r in s'.relays && r !in except ==> r in s.relays && s'.relays[r] == s.relays[r]
    requires forall r :: r in except && r in s'.relays ==>
               PhaseHolds(s'.table, s'.used, s'.clock, s'.log, s'.delivered, r, s'.relays[r])
    ensures Inv(cfg, s')
  {
    PhasesKept(cfg, s, s', except);
    forall i | 0 <= i < |s.log| && s.log[i].Wrote? && s.log[i].mark.MarkSent?
      ensures Accepted(s'.delivered, s.log[i].token)
    {
      StillAccepted(s.delivered, s'.delivered, s.log[i].token);
    }
  }

  lemma TickKeeps(cfg: Config, s: State, step: Step)
    requires cfg.Normalized() && Inv(cfg, s) && Enabled(cfg, s, step) && step.Tick?
    ensures Inv(cfg, Apply(cfg, s, step))
  {
    QuietStep(cfg, s, Apply(cfg, s, step), {});
  }

  lemma InsertKeeps(cfg: Config, s: State, step: Step)
    requires cfg.Normalized() && Inv(cfg, s) && Enabled(cfg, s, step) && step.Insert?
    ensures Inv(cfg, Apply(cfg, s, step))
  {
    PhasesKept(cfg, s, Apply(cfg, s, step), {});
    NeverMentioned(s.log, step.id);
  }

  lemma QueryKeeps(cfg: Config, s: State, step: Step)
    requires cfg.Normalized() && Inv(cfg, s) && Enabled(cfg, s, step) && step.Query?
    ensures Inv(cfg, Apply(cfg, s, step))
  {
    var now := PhaseOf(s, step.relay).now;
    CandidatesAreClaimable(s.table, now, 1, s.nextId, 4 * cfg.batchSize);
    assert s.log[..|s.log|] == s.log;
    QuietStep(cfg, s, Apply(cfg, s, step), {step.relay});
  }

  lemma RelayKeeps(cfg: Config, s: State, step: Step)
    requires cfg.Normalized() && Inv(cfg, s) && Enabled(cfg, s, step)
    requires step.Begin? || step.Release? || step.ReadClock? || step.Crash?
    ensures Inv(cfg, Apply(cfg, s, step))
  {
    QuietStep(cfg, s, Apply(cfg, s, step), {step.relay});
  }

  lemma SendKeeps(cfg: Config, s: State, step: Step)
    requires cfg.Normalized() && Inv(cfg, s) && Enabled(cfg, s, step) && step.Send?
    ensures Inv(cfg, Apply(cfg, s, step))
  {
    var s' := Apply(cfg, s, step);
    var first := s.relays[step.relay].batch[0];
    if step.result.Ok() {
      assert s'.delivered[|s.delivered|] == Delivery(first.id, first.row.op, first.row.leaseToken, true, |s.log|);
      assert Accepted(s'.delivered, first.row.leaseToken);
    }
    QuietStep(cfg, s, s', {step.relay});
  }

  lemma ReplayKeeps(cfg: Config, s: State, step: Step)
    requires cfg.Normalized() && Inv(cfg, s) && Enabled(cfg, s, step) && (step.Replay? || step.Remove?)
    ensures Inv(cfg, Apply(cfg, s, step))
  {
    var s' := Apply(cfg, s, step);
    var e := if step.Replay? then Replayed(step.id) else Removed(step.id);
    AttemptsAfter(s.log, e, e.id);
    StatementKeeps(cfg, s, s', e, {});
  }

  lemma LosingClaimKeeps(cfg: Config, s: State, step: Step)
    requires cfg.Normalized() && Inv(cfg, s) && Enabled(cfg, s, step) && step.Claim?
    requires Apply(cfg, s, step).log == s.log
    ensures Inv(cfg, Apply(cfg, s, step))
  {
    QuietStep(cfg, s, Apply(cfg, s, step), {step.relay});
  }

  lemma WinningClaimKeeps(cfg: Config, s: State, step: Step)
    requires cfg.Normalized() && Inv(cfg, s) && Enabled(cfg, s, step) && step.Claim?
    requires Apply(cfg, s, step).log != s.log
    ensures Inv(cfg, Apply(cfg, s, step))
  {
    var p := s.relays[step.relay];
    var e := Claimed(step.relay, p.candidates[0].id, s.issued + 1, p.now);
    ClaimIsStatement(cfg, s, step);
    StatementEvolves(cfg, s, Apply(cfg, s, step), e);
    ClaimantHolds(cfg, s, step);
    StatementKeeps(cfg, s, Apply(cfg, s, step), e, {step.relay});
  }

  lemma ClaimantHolds(cfg: Config, s: State, step: Step)
    requires cfg.Normalized() && Inv(cfg, s) && Enabled(cfg, s, step) && step.Claim?
    requires var s' := Apply(cfg, s, step);
             s'.log != s.log && TableEvolves(s.table, s'.table, s.log, s'.log, s.used, s'.clock)
    ensures var s' := Apply(cfg, s, step);
            PhaseHolds(s'.table, s'.used, s'.clock, s'.log, s'.delivered, step.relay, s'.relays[step.relay])
  {
    PhaseKept(cfg, s, Apply(cfg, s, step), step.relay);
    WonRowHolds(cfg, s, step);
  }

  lemma ClaimIsStatement(cfg: Config, s: State, step: Step)
    requires cfg.Normalized() && Inv(cfg, s) && Enabled(cfg, s, step) && step.Claim?
    requires Apply(cfg, s, step).log != s.log
    ensures var p := s.relays[step.relay];
            Statement(cfg, s, Apply(cfg, s, step), Claimed(step.relay, p.candidates[0].id, s.issued + 1, p.now))
  {
    var e := WonClaim(cfg, s, step);
    assert PhaseHolds(s.table, s.used, s.clock, s.log, s.delivered, step.relay, s.relays[step.relay]);
    LeaseIsStatement(cfg, s, e, Apply(cfg, s, step).relays);
  }

  /** What a winning claim does to table and log. */
  lemma WonClaim(cfg: Config, s: State, step: Step) returns (e: Event)
    requires cfg.Normalized() && Enabled(cfg, s, step) && step.Claim? && Apply(cfg, s, step).log != s.log
    ensures var p := s.relays[step.relay];
            && e == Claimed(step.relay, p.candidates[0].id, s.issued + 1, p.now)
            && e.id in s.table && Claimable(s.table[e.id], e.now)
            && Apply(cfg, s, step) ==
               s.(table := s.table[e.id := LeaseRow(s.table[e.id], e.now + cfg.lease, e.token)], log := s.log + [e],
                  issued := e.token, relays := Apply(cfg, s, step).relays)
  {
    var p := s.relays[step.relay];
    e := Claimed(step.relay, p.candidates[0].id, s.issued + 1, p.now);
  }

  lemma LeaseIsStatement(cfg: Config, s: State, e: Event, relays: map<nat, Phase>)
    requires Inv(cfg, s) && e.Claimed? && e.token == s.issued + 1 && e.now <= s.clock
    requires e.id in s.table && Claimable(s.table[e.id], e.now)
    ensures var row := LeaseRow(s.table[e.id], e.now + cfg.lease, e.token);
            Statement(cfg, s,
                      s.(table := s.table[e.id := row], log := s.log + [e], issued := e.token, relays := relays), e)
  {
    var row := s.table[e.id];
    assert RowMatches(cfg, row, Latest(s.log, e.id));
    ClaimAllowed(cfg, row, s.log, e);
    LeasedMatches(cfg, row, Latest(s.log, e.id), e);
    LeasedEvolves(cfg, row, s.log, s.issued, s.clock, e);
    AttemptsAfter(s.log, e, e.id);
  }

  lemma LeasedMatches(cfg: Config, row: Row, latest: Option<Event>, e: Event)
    requires e.Claimed? && RowMatches(cfg, row, latest) && Claimable(row, e.now)
    ensures RowMatches(cfg, LeaseRow(row, e.now + cfg.lease, e.token), Some(e))
  {
  }

  lemma LeasedEvolves(cfg: Config, row: Row, log: seq<Event>, issued: nat, clock: int, e: Event)
    requires e.Claimed? && e.token == issued + 1 && TokensGrow(log, issued, clock) && !row.Terminal()
    ensures RowEvolves(row, LeaseRow(row, e.now + cfg.lease, e.token), log, log + [e], e.id, clock)
  {
  }

  /** A row that passes the claimability test may be claimed as far as the log is concerned. */
  lemma ClaimAllowed(cfg: Config, row: Row, log: seq<Event>, e: Event)
    requires e.Claimed? && RowMatches(cfg, row, Latest(log, e.id)) && Claimable(row, e.now)
    ensures Justified(cfg, log, e)
  {
  }

  /** The row just claimed is as good as its snapshot was. */
  lemma WonRowHolds(cfg: Config, s: State, step: Step)
    requires cfg.Normalized() && Inv(cfg, s) && Enabled(cfg, s, step) && step.Claim?
    requires Apply(cfg, s, step).log != s.log
    ensures var s', p := Apply(cfg, s, step), s.relays[step.relay];
            var c := p.candidates[0];
            HoldingHolds(s'.table, s'.log, step.relay, p.now,
                         OutboxEvent(c.id, LeaseRow(c.row, p.now + cfg.lease, s.issued + 1)))
  {
    var p := s.relays[step.relay];
    var e := WonClaim(cfg, s, step);
    assert SnapshotHolds(s.table, s.log, p.seen, p.now, p.candidates[0]);
    LeasedIsHeld(s.table, s.log, p.seen, p.candidates[0], p.now + cfg.lease, e);
  }

  lemma LeasedIsHeld(t: Table, log: seq<Event>, seen: nat, c: OutboxEvent, leaseUntil: int, e: Event)
    requires e.Claimed? && e.id == c.id && c.id > 0 && c.id in t && Claimable(t[c.id], e.now)
    requires SnapshotHolds(t, log, seen, e.now, c)
    ensures HoldingHolds(t[c.id := LeaseRow(t[c.id], leaseUntil, e.token)], log + [e], e.relay, e.now,
                         OutboxEvent(c.id, LeaseRow(c.row, leaseUntil, e.token)))
  {
    assert CarriesFrom(log, seen, c.id, c.row.attempts, t[c.id].attempts, e.now);
    CarriesKept(log, log + [e], c.id, c.row.attempts, t[c.id].attempts, e.now);
    assert (log + [e])[|log|] == e;
  }

  /** A write-back takes effect exactly when its claim is the last statement about the row. */
  lemma WriteBackIff(cfg: Config, s: State, relay: nat, now: int, e: OutboxEvent, mark: Mark, reason: string)
    requires Inv(cfg, s)
    requires HoldingHolds(s.table, s.log, relay, now, e)
    ensures WriteBack(s.table, e, mark, reason).Success? <==>
              Latest(s.log, e.id) == Some(Claimed(relay, e.id, e.row.leaseToken, now))
  {
    var mine := Claimed(relay, e.id, e.row.leaseToken, now);
    var k :| 0 <= k < |s.log| && s.log[k] == mine;
    var i := LastAbout(s.log, e.id);
    assert s.log[k].Claimed? && 1 <= s.log[k].token;
    if WriteBack(s.table, e, mark, reason).Success? {
      assert RowMatches(cfg, s.table[e.id], Latest(s.log, e.id));
      assert i >= k;
      assert s.log[i].Claimed? && s.log[i].token == s.log[k].token;
      assert i == k;
    }
  }

  lemma FailedWriteKeeps(cfg: Config, s: State, step: Step)
    requires cfg.Normalized() && Inv(cfg, s) && Enabled(cfg, s, step) && step.Write?
    requires Apply(cfg, s, step).log == s.log
    ensures Inv(cfg, Apply(cfg, s, step))
  {
    QuietStep(cfg, s, Apply(cfg, s, step), {step.relay});
  }

  lemma WriteKeeps(cfg: Config, s: State, step: Step)
    requires cfg.Normalized() && Inv(cfg, s) && Enabled(cfg, s, step) && step.Write?
    requires Apply(cfg, s, step).log != s.log
    ensures Inv(cfg, Apply(cfg, s, step))
  {
    var s' := Apply(cfg, s, step);
    var r := step.relay;
    var p := s.relays[r];
    var event := p.batch[0];
    var mark := Decide(cfg, event.row.attempts, p.result, p.readAt);
    var e := Wrote(r, event.id, event.row.leaseToken, event.row.attempts, mark, p.result, p.readAt, s.clock);
    assert Statement(cfg, s, s', e) by {
      WriteIsStatement(cfg, s, step);
    }
    StatementEvolves(cfg, s, s', e);
    PhaseKept(cfg, s, s', r);
    assert forall x :: x in p.batch[1..] ==> x in p.batch;
    StatementKeeps(cfg, s, s', e, {r});
  }

  lemma WriteIsStatement(cfg: Config, s: State, step: Step)
    requires cfg.Normalized() && Inv(cfg, s) && Enabled(cfg, s, step) && step.Write?
    requires Apply(cfg, s, step).log != s.log
    ensures var p := s.relays[step.relay];
            var event := p.batch[0];
            Statement(cfg, s, Apply(cfg, s, step),
                      Wrote(step.relay, event.id, event.row.leaseToken, event.row.attempts,
                            Decide(cfg, event.row.attempts, p.result, p.readAt), p.result, p.readAt, s.clock))
  {
    var p := s.relays[step.relay];
    var event := p.batch[0];
    var mark := Decide(cfg, event.row.attempts, p.result, p.readAt);
    WriteBackIff(cfg, s, step.relay, p.now, event, mark, p.result.Reason());
    var e := Wrote(step.relay, event.id, event.row.leaseToken, event.row.attempts, mark, p.result, p.readAt, s.clock);
    AttemptsAfter(s.log, e, event.id);
  }

  lemma StepKeeps(cfg: Config, s: State, step: Step)
    requires cfg.Normalized() && Inv(cfg, s) && Enabled(cfg, s, step)
    ensures Inv(cfg, Apply(cfg, s, step))
  {
    match step
    case Tick(_) => TickKeeps(cfg, s, step);
    case Insert(_, _, _) => InsertKeeps(cfg, s, step);
    case Query(_) => QueryKeeps(cfg, s, step);
    case Claim(_) =>
      if Apply(cfg, s, step).log == s.log {
        LosingClaimKeeps(cfg, s, step);
      } else {
        WinningClaimKeeps(cfg, s, step);
      }
    case Write(_, _) =>
      if Apply(cfg, s, step).log == s.log {
        FailedWriteKeeps(cfg, s, step);
      } else {
        WriteKeeps(cfg, s, step);
      }
    case Send(_, _, _) => SendKeeps(cfg, s, step);
    case Replay(_) => ReplayKeeps(cfg, s, step);
    case Remove(_) => ReplayKeeps(cfg, s, step);
    case _ => RelayKeeps(cfg, s, step);
  }

  lemma {:induction false} RunKeeps(cfg: Config, s: State, steps: seq<Step>)
    requires cfg.Normalized() && Inv(cfg, s) && Allowed(cfg, s, steps)
    ensures Inv(cfg, Exec(cfg, s, steps))
    decreases |steps|
  {
    if steps != [] {
      StepKeeps(cfg, s, steps[0]);
      RunKeeps(cfg, Apply(cfg, s, steps[0]), steps[1..]);
    }
  }

  /** The invariant holds in every state any interleaving can reach. */
  lemma ReachableInv(cfg: Config, s: State)
    requires cfg.Normalized() && Reachable(cfg, s)
    ensures Inv(cfg, s)
  {
    var clock: int, steps: seq<Step> :|
      Allowed(cfg, InitialState(clock), steps) && Exec(cfg, InitialState(clock), steps) == s;
    InitialInv(cfg, clock);
    RunKeeps(cfg, InitialState(clock), steps);
  }
}
