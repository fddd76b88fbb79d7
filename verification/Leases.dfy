/** Fencing, lease exclusion and progress, over every interleaving of the protocol. */
module Leases {
  import opened Wrappers
  import opened Documents
  import opened Policy
  import opened Outbox
  import opened Protocol
  import opened ProtocolInvariant

  // --- Fencing ---

  /** A relay about to write back changes the table if and only if its own claim is the last thing
      that happened to the row; otherwise nothing changes and it gives up its batch. */
  lemma WriteTakesEffectIff(cfg: Config, s: State, relay: nat, acknowledged: bool)
    requires cfg.Normalized() && Reachable(cfg, s) && Enabled(cfg, s, Write(relay, acknowledged))
    ensures var p, s' := PhaseOf(s, relay), Apply(cfg, s, Write(relay, acknowledged));
            var e := p.batch[0];
            && (s'.log != s.log <==> Latest(s.log, e.id) == Some(Claimed(relay, e.id, e.row.leaseToken, p.now)))
            && (s'.log == s.log ==> s' == Put(s, relay, Idle))
  {
    ReachableInv(cfg, s);
    var p := PhaseOf(s, relay);
    WriteBackIff(cfg, s, relay, p.now, p.batch[0],
                 Decide(cfg, p.batch[0].row.attempts, p.result, p.readAt), p.result.Reason());
  }

  /** Position of the claim under which log[i] was written. */
  lemma WrittenUnder(cfg: Config, log: seq<Event>, i: nat) returns (j: nat)
    requires LogJustified(cfg, log) && i < |log| && log[i].Wrote?
    ensures j < i && j == LastAbout(log[..i], log[i].id) && log[j].Claimed?
    ensures log[j].relay == log[i].relay && log[j].token == log[i].token
  {
    assert Justified(cfg, log[..i], log[i]);
    j := LastAbout(log[..i], log[i].id);
    assert log[..i][j] == log[j];
  }

  /** In every run each effective write-back directly follows its own claim among the statements
      about its row, and no two write-backs share a claim. */
  lemma FencedWrites(cfg: Config, s: State)
    requires cfg.Normalized() && Reachable(cfg, s)
    ensures forall i :: 0 <= i < |s.log| && s.log[i].Wrote? ==>
              var j := LastAbout(s.log[..i], s.log[i].id);
              && j >= 0 && s.log[j].Claimed?
              && s.log[j].relay == s.log[i].relay && s.log[j].token == s.log[i].token
    ensures forall i, k :: 0 <= i < k < |s.log| && s.log[i].Wrote? && s.log[k].Wrote? ==>
              s.log[i].token != s.log[k].token
  {
    ReachableInv(cfg, s);
    forall i | 0 <= i < |s.log| && s.log[i].Wrote?
      ensures var j := LastAbout(s.log[..i], s.log[i].id);
              && j >= 0 && s.log[j].Claimed?
              && s.log[j].relay == s.log[i].relay && s.log[j].token == s.log[i].token
    {
      var j := WrittenUnder(cfg, s.log, i);
    }
    forall i, k | 0 <= i < k < |s.log| && s.log[i].Wrote? && s.log[k].Wrote?
      ensures s.log[i].token != s.log[k].token
    {
      TokensDiffer(cfg, s.log, s.issued, s.clock, i, k);
    }
  }

  /** With one claim per token, two writes with one token would share a claim; but the first one lies
      between the second and its claim. */
  lemma TokensDiffer(cfg: Config, log: seq<Event>, issued: nat, clock: int, i: nat, k: nat)
    requires LogJustified(cfg, log) && TokensGrow(log, issued, clock)
    requires i < k < |log| && log[i].Wrote? && log[k].Wrote?
    ensures log[i].token != log[k].token
  {
    var m := WrittenUnder(cfg, log, i);
    var n := WrittenUnder(cfg, log, k);
    assert log[..k][i] == log[i];
  }

  /** A row recorded as sent was accepted by Elasticsearch under the claim that recorded it. */
  lemma SentWasAccepted(cfg: Config, s: State, id: int)
    requires cfg.Normalized() && Reachable(cfg, s) && id in s.table && s.table[id].status.Sent?
    ensures var e := Latest(s.log, id);
            e.Some? && e.value.Wrote? && e.value.result.Ok() && Accepted(s.delivered, e.value.token)
  {
    ReachableInv(cfg, s);
    var i := LastAbout(s.log, id);
    assert RowMatches(cfg, s.table[id], Latest(s.log, id));
    assert Justified(cfg, s.log[..i], s.log[i]);
  }

  /** What the finished columns say is true: a row carries a sending time exactly while it is sent, taken
      between its claim and now; and its error text is that of the failure recorded last. */
  lemma OutcomeIsRecorded(cfg: Config, s: State, id: int)
    requires cfg.Normalized() && Reachable(cfg, s) && id in s.table
    ensures var row, e := s.table[id], Latest(s.log, id);
            && (row.sentAt.Some? <==> row.status.Sent?)
            && (row.status.Sent? ==>
                  && e.Some? && e.value.Wrote? && e.value.readAt == row.sentAt.value <= s.clock && row.lastError == ""
                  && exists i ::
                       0 <= i < |s.log| && s.log[i].Claimed? && s.log[i].id == id && s.log[i].now <= row.sentAt.value)
            && (e.Some? && e.value.Wrote? && !row.status.Sent? ==>
                  !e.value.result.Ok() && row.lastError == e.value.result.Reason())
  {
    ReachableInv(cfg, s);
    var i := LastAbout(s.log, id);
    assert RowMatches(cfg, s.table[id], Latest(s.log, id));
    if i >= 0 && s.log[i].Wrote? {
      assert Justified(cfg, s.log[..i], s.log[i]);
      var j := LastAbout(s.log[..i], id);
      assert s.log[..i][j] == s.log[j];
    }
  }

  // --- Lease exclusion ---

  ghost predicate NoReplayBetween(log: seq<Event>, i: int, j: int, id: int) {
    forall k :: i < k < j && 0 <= k < |log| ==> log[k] != Replayed(id)
  }

  ghost predicate NoWriteBetween(log: seq<Event>, i: int, j: int, id: int) {
    forall k :: i < k < j && 0 <= k < |log| ==> !(log[k].Wrote? && log[k].id == id)
  }

  /** Two claims of one row, not separated by a replay, are made at increasing times; unless the
      row was written back in between, the second is made at least a lease after the first. */
  lemma {:induction false} LeaseExclusion(cfg: Config, s: State, i: nat, j: nat)
    requires cfg.Valid() && Reachable(cfg, s)
    requires i < j < |s.log| && s.log[i].Claimed? && s.log[j].Claimed? && s.log[i].id == s.log[j].id
    requires NoReplayBetween(s.log, i, j, s.log[i].id)
    ensures s.log[i].now < s.log[j].now
    ensures NoWriteBetween(s.log, i, j, s.log[i].id) ==> s.log[i].now + cfg.lease <= s.log[j].now
    decreases j
  {
    ReachableInv(cfg, s);
    var id := s.log[i].id;
    assert Justified(cfg, s.log[..j], s.log[j]);
    JustifiedFollows(cfg, s.log[..j], s.log[j]);
    var k := LastAbout(s.log[..j], id);
    assert s.log[..j][i] == s.log[i] && k >= i;
    assert s.log[..j][k] == s.log[k];
    if s.log[k].Claimed? {
      if k > i {
        LeaseExclusion(cfg, s, i, k);
      }
    } else if s.log[k].Wrote? {
      var m := RetriedUnder(cfg, s.log, k);
      assert s.log[..k][i] == s.log[i] && m >= i;
      if m > i {
        LeaseExclusion(cfg, s, i, m);
      }
    }
  }

  /** A retry time lies after the claim under which it was set. */
  lemma RetriedUnder(cfg: Config, log: seq<Event>, k: nat) returns (m: nat)
    requires cfg.Valid() && LogJustified(cfg, log) && k < |log| && log[k].Wrote? && log[k].mark.MarkRetry?
    ensures m < k && m == LastAbout(log[..k], log[k].id) && log[m].Claimed? && log[m].now < log[k].mark.retryAt
  {
    m := WrittenUnder(cfg, log, k);
    assert Justified(cfg, log[..k], log[k]);
    assert log[..k][m] == log[m];
    BackoffBounds(cfg, log[k].attempts + 1, log[k].attempts + 1);
  }

  /** Batches claimed at the same clock reading, or within a lease of each other and not yet
      written back, never share a row. */
  lemma OverlappingClaimsAreDisjoint(cfg: Config, s: State, i: nat, j: nat)
    requires cfg.Valid() && Reachable(cfg, s)
    requires i < j < |s.log| && s.log[i].Claimed? && s.log[j].Claimed?
    requires NoReplayBetween(s.log, i, j, s.log[i].id)
    requires || s.log[j].now <= s.log[i].now
             || (s.log[j].now < s.log[i].now + cfg.lease && NoWriteBetween(s.log, i, j, s.log[i].id))
    ensures s.log[i].id != s.log[j].id
  {
    if s.log[i].id == s.log[j].id {
      LeaseExclusion(cfg, s, i, j);
    }
  }

  // --- Stale snapshots ---

  ghost predicate WrittenSince(log: seq<Event>, seen: nat, id: int) {
    exists k :: seen <= k < |log| && log[k].id == id && (log[k].Wrote? || log[k].Replayed?)
  }

  /** A claim that wins has been overtaken by a write-back or a replay if and only if the row was
      replayed, or retried with a retry time already due at the claim's clock reading. */
  lemma ClaimOvertakenIff(cfg: Config, s: State, relay: nat)
    requires cfg.Normalized() && Reachable(cfg, s) && Enabled(cfg, s, Claim(relay))
    requires Apply(cfg, s, Claim(relay)).log != s.log
    ensures var p := PhaseOf(s, relay);
            var id := p.candidates[0].id;
            WrittenSince(s.log, p.seen, id) <==> ReplayedSince(s.log, p.seen, id) || Overtaken(s.log, p.seen, id, p.now)
  {
    ReachableInv(cfg, s);
    var p := PhaseOf(s, relay);
    var id := p.candidates[0].id;
    if ReplayedSince(s.log, p.seen, id) {
      var k :| p.seen <= k < |s.log| && s.log[k] == Replayed(id);
      assert WrittenSince(s.log, p.seen, id);
    }
    if Overtaken(s.log, p.seen, id, p.now) {
      var k :| p.seen <= k < |s.log| && s.log[k].Wrote? && s.log[k].id == id
               && s.log[k].mark.MarkRetry? && s.log[k].mark.retryAt <= p.now <= s.log[k].at;
      assert WrittenSince(s.log, p.seen, id);
    }
    if WrittenSince(s.log, p.seen, id) && !ReplayedSince(s.log, p.seen, id) {
      WonRowWasClaimable(cfg, s, relay);
      DueWriteOvertakes(cfg, s.table[id], s.log, p.seen, id, p.now);
    }
  }

  lemma WonRowWasClaimable(cfg: Config, s: State, relay: nat)
    requires cfg.Normalized() && Reachable(cfg, s) && Enabled(cfg, s, Claim(relay))
    requires Apply(cfg, s, Claim(relay)).log != s.log
    ensures var p := PhaseOf(s, relay);
            && p.candidates[0].id in s.table && Claimable(s.table[p.candidates[0].id], p.now)
            && forall k :: p.seen <= k < |s.log| && s.log[k].Wrote? ==> p.now <= s.log[k].at
  {
    ReachableInv(cfg, s);
  }

  lemma DueWriteOvertakes(cfg: Config, row: Row, log: seq<Event>, seen: nat, id: int, now: int)
    requires cfg.Normalized() && LogJustified(cfg, log) && RowMatches(cfg, row, Latest(log, id)) && Claimable(row, now)
    requires WrittenSince(log, seen, id) && !ReplayedSince(log, seen, id)
    requires forall k :: seen <= k < |log| && log[k].Wrote? ==> now <= log[k].at
    ensures Overtaken(log, seen, id, now)
  {
    var k :| seen <= k < |log| && log[k].id == id && (log[k].Wrote? || log[k].Replayed?);
    assert log[k] == Replayed(id) || !log[k].Replayed?;
    LastWriteDue(cfg, row, log, k, now);
    var w := LastWrite(log, id, k);
    assert log[w].mark.retryAt <= now <= log[w].at;
  }

  /** Position of the last write-back of row `id` at or after the write-back at `from`. */
  function LastWrite(log: seq<Event>, id: int, from: nat): (w: nat)
    requires from < |log| && log[from].Wrote? && log[from].id == id
    ensures from <= w < |log| && log[w].Wrote? && log[w].id == id
    ensures forall k :: w < k < |log| ==> !(log[k].Wrote? && log[k].id == id)
    decreases |log|
  {
    if log[|log| - 1].Wrote? && log[|log| - 1].id == id then |log| - 1
    else LastWrite(log[..|log| - 1], id, from)
  }

  lemma LastWriteDue(cfg: Config, row: Row, log: seq<Event>, from: nat, now: int)
    requires cfg.Normalized() && LogJustified(cfg, log) && from < |log| && log[from].Wrote?
    requires RowMatches(cfg, row, Latest(log, log[from].id)) && Claimable(row, now)
    requires !ReplayedSince(log, from, log[from].id)
    ensures var w := LastWrite(log, log[from].id, from);
            log[w].mark.MarkRetry? && log[w].mark.retryAt <= now
  {
    var id := log[from].id;
    var w := LastWrite(log, id, from);
    var e := Claimed(0, id, 1, now);
    ClaimableFollows(cfg, row, log, e);
    DueAfterWrite(cfg, log, w, e);
  }

  /** What a claim allowed now says about the last write-back, if no replay has come after it. */
  lemma DueAfterWrite(cfg: Config, log: seq<Event>, w: nat, e: Event)
    requires cfg.Normalized() && LogJustified(cfg, log) && w < |log| && log[w].Wrote? && log[w].id == e.id
    requires NoWriteBetween(log, w, |log|, e.id) && NoReplayBetween(log, w, |log|, e.id)
    requires e.Claimed? && Follows(cfg, Latest(log, e.id), e)
    ensures log[w].mark.MarkRetry? && log[w].mark.retryAt <= e.now
  {
    var i := LastAbout(log, e.id);
    assert i >= w;
    if i > w {
      assert log[i] == Replayed(e.id) || !log[i].Replayed?;
      ClaimsSince(cfg, log, w, i);
    }
  }

  lemma ClaimableFollows(cfg: Config, row: Row, log: seq<Event>, e: Event)
    requires e.Claimed? && RowMatches(cfg, row, Latest(log, e.id)) && Claimable(row, e.now)
    ensures Follows(cfg, Latest(log, e.id), e)
  {
    ClaimAllowed(cfg, row, log, e);
    JustifiedFollows(cfg, log, e);
  }

  /** After a write-back only claims follow; each is made no earlier than the retry time. */
  lemma {:induction false} ClaimsSince(cfg: Config, log: seq<Event>, w: nat, i: nat)
    requires cfg.Normalized() && LogJustified(cfg, log)
    requires w < i < |log| && log[w].Wrote? && log[i].id == log[w].id
    requires NoWriteBetween(log, w, i + 1, log[w].id) && NoReplayBetween(log, w, i + 1, log[w].id)
    requires !log[i].Removed?
    ensures log[i].Claimed? && log[w].mark.MarkRetry? && log[w].mark.retryAt <= log[i].now
    decreases i
  {
    var id := log[w].id;
    assert log[i] == Replayed(id) || !log[i].Replayed?;
    assert Justified(cfg, log[..i], log[i]);
    JustifiedFollows(cfg, log[..i], log[i]);
    var k := LastAbout(log[..i], id);
    assert log[..i][w] == log[w] && k >= w;
    assert log[..i][k] == log[k];
    if k > w {
      ClaimsSince(cfg, log, w, k);
    }
  }

  /** A winning claim that nothing has overtaken hands out exactly what the table holds: stale
      snapshots are harmless. */
  lemma ClaimedRowIsCurrent(cfg: Config, s: State, relay: nat)
    requires cfg.Normalized() && Reachable(cfg, s) && Enabled(cfg, s, Claim(relay))
    requires Apply(cfg, s, Claim(relay)).log != s.log
    requires var p := PhaseOf(s, relay);
             && !ReplayedSince(s.log, p.seen, p.candidates[0].id)
             && !Overtaken(s.log, p.seen, p.candidates[0].id, p.now)
    ensures var p', c := PhaseOf(Apply(cfg, s, Claim(relay)), relay), PhaseOf(s, relay).candidates[0];
            var mine := p'.claimed[|p'.claimed| - 1];
            && mine.id == c.id
            && mine.row.SameContent(s.table[c.id]) && mine.row.op == s.table[c.id].op
            && mine.row.attempts == s.table[c.id].attempts
  {
    ReachableInv(cfg, s);
    var p := PhaseOf(s, relay);
    assert SnapshotHolds(s.table, s.log, p.seen, p.now, p.candidates[0]);
  }

  // --- No row is lost or stuck ---

  /** The earliest clock reading at which an unfinished row can be claimed. */
  function ReadyAt(row: Row, otherwise: int): int {
    var retry := if row.nextRetryAt.Some? then row.nextRetryAt.value else otherwise;
    var lease := if row.leasedUntil.Some? then row.leasedUntil.value else otherwise;
    if row.nextRetryAt.None? then lease
    else if row.leasedUntil.None? then retry
    else Max(retry, lease)
  }

  /** In every reachable state, whatever crashed before: a pending row has no lease, a row in
      processing has a token and a lease end, an unfinished row is claimable from ReadyAt on and
      not before, and that time is at most one lease or one largest backoff away. */
  lemma NoRowIsStuck(cfg: Config, s: State, id: int)
    requires cfg.Valid() && Reachable(cfg, s) && id in s.table
    ensures var row := s.table[id];
            && (row.status.Pending? ==> row.leasedUntil.None?)
            && (row.status.Processing? ==> row.leasedUntil.Some? && row.leaseToken != NO_TOKEN)
            && (row.Terminal() ==> forall t: int :: !Claimable(row, t))
            && (!row.Terminal() ==>
                  && (forall t: int :: Claimable(row, t) <==> ReadyAt(row, t) <= t)
                  && ReadyAt(row, s.clock) <= s.clock + Max(cfg.lease, 256 * cfg.pollInterval))
  {
    ReachableInv(cfg, s);
    var row := s.table[id];
    var i := LastAbout(s.log, id);
    assert RowMatches(cfg, row, Latest(s.log, id));
    if i >= 0 {
      assert Justified(cfg, s.log[..i], s.log[i]);
      if s.log[i].Wrote? {
        BackoffBounds(cfg, s.log[i].attempts + 1, s.log[i].attempts + 1);
      }
    }
  }

  lemma StepPersists(cfg: Config, s: State, step: Step, id: int)
    requires cfg.Normalized() && Enabled(cfg, s, step) && id in s.table && id in s.used && step != Remove(id)
    ensures id in Apply(cfg, s, step).table && Apply(cfg, s, step).table[id].SameContent(s.table[id])
  {
  }

  /** Only removal takes a row out of the table, and nothing ever changes what it asks to deliver. */
  lemma {:induction false} RowsPersist(cfg: Config, s: State, steps: seq<Step>, id: int)
    requires cfg.Normalized() && Allowed(cfg, s, steps) && Inv(cfg, s) && id in s.table
    requires Remove(id) !in steps
    ensures var t := Exec(cfg, s, steps).table;
            && id in t && t[id].SameContent(s.table[id])
            && t[id].tableName == s.table[id].tableName && t[id].op == s.table[id].op
            && t[id].createdAt == s.table[id].createdAt
    decreases |steps|
  {
    if steps != [] {
      StepPersists(cfg, s, steps[0], id);
      StepKeeps(cfg, s, steps[0]);
      RowsPersist(cfg, Apply(cfg, s, steps[0]), steps[1..], id);
    }
  }

  /** In every run each row still carries what it was inserted with, and its created_at is the clock reading
      of that insert. */
  lemma {:induction false} CreatedAtInsert(cfg: Config, epoch: int, steps: seq<Step>, s: State, id: int)
    returns (k: nat)
    requires cfg.Normalized() && Led(cfg, epoch, steps, s) && id in s.table
    ensures k < |steps| && Allowed(cfg, InitialState(epoch), steps[..k])
    ensures steps[k] == Step.Insert(id, s.table[id].tableName, s.table[id].op)
    ensures s.table[id].createdAt == Exec(cfg, InitialState(epoch), steps[..k]).clock
    decreases |steps|
  {
    var n := |steps| - 1;
    assert steps == steps[..n] + [steps[n]];
    ExecSplit(cfg, InitialState(epoch), steps[..n], [steps[n]]);
    var before := Exec(cfg, InitialState(epoch), steps[..n]);
    ReachableInv(cfg, before);
    if id in before.table {
      StepPersists(cfg, before, steps[n], id);
      k := CreatedAtInsert(cfg, epoch, steps[..n], before, id);
      assert steps[..n][..k] == steps[..k];
    } else {
      k := n;
    }
  }
}
