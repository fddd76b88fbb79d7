/** One relay counts right, however late its write-backs are: nothing else writes between its query and its
    claims. */
module OneRelayBudget {
  import opened Wrappers
  import opened Documents
  import opened Policy
  import opened Outbox
  import opened Protocol
  import opened ProtocolInvariant
  import opened Account
  import opened Budget
  import opened Crashes

  // --- The relay's copies have the table's counts ---

  ghost predicate SameCounts(t: Table, events: seq<OutboxEvent>) {
    forall i :: 0 <= i < |events| ==> events[i].id in t && t[events[i].id].attempts == events[i].row.attempts
  }

  /** Every write-back was made from the count the table held. */
  ghost predicate NeverShort(log: seq<Event>) {
    forall i :: 0 <= i < |log| && log[i].Wrote? ==> ShortBy(log, i) == 0
  }

  ghost predicate OwnInv(cfg: Config, s: State, me: nat) {
    && Inv(cfg, s) && OnlyRelay(s, PhaseOf(s, me)) && InOrder(PhaseOf(s, me))
    && SameCounts(s.table, Batch(PhaseOf(s, me))) && NeverShort(s.log)
  }

  lemma SameCountsKept(cfg: Config, s: State, step: Step, me: nat)
    requires cfg.Normalized() && Inv(cfg, s) && InOrder(PhaseOf(s, me)) && Enabled(cfg, s, step) && LoneStep(step, me)
    requires SameCounts(s.table, Batch(PhaseOf(s, me)))
    ensures SameCounts(Apply(cfg, s, step).table, Batch(PhaseOf(Apply(cfg, s, step), me)))
  {
    match step {
      case Insert(_, _, _) =>
      case Query(_) => CountsAfterQuery(cfg, s, me);
      case Claim(_) => CountsAfterClaim(cfg, s, me);
      case Release(_) => CountsAfterRelease(cfg, s, me);
      case Write(_, _) => CountsAfterWrite(cfg, s, step, me);
      case _ => SameBatch(cfg, s, step, me);
    }
  }

  lemma CountsAfterQuery(cfg: Config, s: State, me: nat)
    requires cfg.Normalized() && Enabled(cfg, s, Query(me))
    ensures SameCounts(s.table, Batch(PhaseOf(Apply(cfg, s, Query(me)), me)))
  {
    FoundCounts(s.table, PhaseOf(s, me).now, s.nextId, 4 * cfg.batchSize);
    assert Batch(PhaseOf(Apply(cfg, s, Query(me)), me)) == PhaseOf(Apply(cfg, s, Query(me)), me).candidates;
  }

  lemma FoundCounts(t: Table, now: int, until: int, limit: nat)
    ensures SameCounts(t, Candidates(t, now, 1, until, limit))
  {
    var found := Candidates(t, now, 1, until, limit);
    CandidatesAreClaimable(t, now, 1, until, limit);
    assert forall i :: 0 <= i < |found| ==> found[i] in found;
  }

  lemma CountsAfterClaim(cfg: Config, s: State, me: nat)
    requires cfg.Normalized() && Enabled(cfg, s, Claim(me)) && SameCounts(s.table, Batch(PhaseOf(s, me)))
    ensures SameCounts(Apply(cfg, s, Claim(me)).table, Batch(PhaseOf(Apply(cfg, s, Claim(me)), me)))
  {
    var s' := Apply(cfg, s, Claim(me));
    var p, p' := PhaseOf(s, me), PhaseOf(s', me);
    var n := |p.claimed|;
    assert Batch(p)[n] == p.candidates[0];
    forall i | 0 <= i < |Batch(p')|
      ensures Batch(p')[i].id in s'.table && s'.table[Batch(p')[i].id].attempts == Batch(p')[i].row.attempts
    {
      var k := if i < n || s'.log != s.log then i else i + 1;
      assert Batch(p')[i].id == Batch(p)[k].id && Batch(p')[i].row.attempts == Batch(p)[k].row.attempts;
    }
  }

  lemma CountsAfterRelease(cfg: Config, s: State, me: nat)
    requires cfg.Normalized() && Enabled(cfg, s, Release(me)) && SameCounts(s.table, Batch(PhaseOf(s, me)))
    ensures SameCounts(s.table, Batch(PhaseOf(Apply(cfg, s, Release(me)), me)))
  {
    var p, p' := PhaseOf(s, me), PhaseOf(Apply(cfg, s, Release(me)), me);
    assert forall i :: 0 <= i < |Batch(p')| ==> Batch(p')[i] == Batch(p)[i];
  }

  lemma CountsAfterWrite(cfg: Config, s: State, step: Step, me: nat)
    requires cfg.Normalized() && Enabled(cfg, s, step) && LoneStep(step, me) && step.Write?
    requires InOrder(PhaseOf(s, me)) && SameCounts(s.table, Batch(PhaseOf(s, me)))
    ensures SameCounts(Apply(cfg, s, step).table, Batch(PhaseOf(Apply(cfg, s, step), me)))
  {
    var s' := Apply(cfg, s, step);
    var p, p' := PhaseOf(s, me), PhaseOf(s', me);
    if p'.Delivering? {
      var row, e := WriteEffect(cfg, s, step, me);
      assert Batch(p) == p.batch && Batch(p') == p.batch[1..];
      RestKeepsCounts(s.table, p.batch, row);
    }
  }

  lemma RestKeepsCounts(t: Table, batch: seq<OutboxEvent>, row: Row)
    requires batch != [] && InIdOrder(batch) && SameCounts(t, batch)
    ensures SameCounts(t[batch[0].id := row], batch[1..])
  {
    assert forall i :: 0 <= i < |batch[1..]| ==> batch[1..][i] == batch[i + 1] && batch[0].id < batch[i + 1].id;
  }

  // --- So its write-backs are never short ---

  lemma NeverShortAfter(log: seq<Event>, e: Event)
    requires NeverShort(log) && (e.Wrote? ==> e.attempts == AttemptsOf(log, e.id))
    ensures NeverShort(log + [e])
  {
    var log' := log + [e];
    forall i | 0 <= i < |log'| && log'[i].Wrote? ensures ShortBy(log', i) == 0 {
      assert log'[..i] == log[..i];
      if i < |log| {
        assert ShortBy(log, i) == 0;
      } else {
        assert log[..i] == log;
      }
    }
  }

  lemma NeverShortKept(cfg: Config, s: State, step: Step, me: nat)
    requires cfg.Normalized() && OwnInv(cfg, s, me) && Enabled(cfg, s, step) && LoneStep(step, me)
    ensures NeverShort(Apply(cfg, s, step).log)
  {
    var s' := Apply(cfg, s, step);
    if s'.log != s.log {
      var e := s'.log[|s.log|];
      assert s'.log == s.log + [e];
      if e.Wrote? {
        assert Batch(PhaseOf(s, me))[0] == PhaseOf(s, me).batch[0];
      }
      NeverShortAfter(s.log, e);
    }
  }

  lemma {:induction false} RunKeepsCounts(cfg: Config, s: State, steps: seq<Step>, me: nat)
    requires cfg.Normalized() && Allowed(cfg, s, steps) && forall i :: 0 <= i < |steps| ==> LoneStep(steps[i], me)
    requires OwnInv(cfg, s, me)
    ensures OwnInv(cfg, Exec(cfg, s, steps), me)
    decreases |steps|
  {
    if steps != [] {
      StepKeeps(cfg, s, steps[0]);
      OnlyRelayKept(cfg, s, steps[0], me);
      OrderKept(cfg, s, steps[0], me);
      SameCountsKept(cfg, s, steps[0], me);
      NeverShortKept(cfg, s, steps[0], me);
      RunKeepsCounts(cfg, Apply(cfg, s, steps[0]), steps[1..], me);
    }
  }

  /** In every run of one relay each write-back is made from the count the table holds. */
  lemma OneRelayCountsRight(cfg: Config, s: State, me: nat)
    requires cfg.Normalized() && LoneReachable(cfg, s, me)
    ensures NeverShort(s.log) && Reachable(cfg, s)
    ensures forall id :: NeverReplayed(s.log, id)
  {
    var clock: int, steps: seq<Step> :|
      Led(cfg, clock, steps, s) && forall i :: 0 <= i < |steps| ==> LoneStep(steps[i], me);
    InitialInv(cfg, clock);
    RunKeepsCounts(cfg, InitialState(clock), steps, me);
  }

  lemma CurrentPrefix(log: seq<Event>, n: nat, id: int)
    requires NeverShort(log) && n <= |log|
    ensures Current(log[..n], id) && Lost(log[..n], id) == 0
  {
    forall i | 0 <= i < n && log[i].Wrote? ensures ShortBy(log[..n], i) == 0 {
      assert log[..n][..i] == log[..i] && log[..n][i] == log[i];
      assert ShortBy(log, i) == 0;
    }
    NothingLost(log[..n], id);
  }

  // --- And keep the budget ---

  /** One relay, whatever it crashes on and however late it writes: the attempts of a row that has not died
      are its retries, and at most MaxAttempts answers send it back. */
  lemma OneRelayKeepsBudget(cfg: Config, s: State, me: nat, id: int)
    requires cfg.Normalized() && LoneReachable(cfg, s, me)
    ensures AnswerRetries(s.log, id) <= cfg.maxAttempts
    ensures id in s.table && !s.table[id].status.Dead? ==> s.table[id].attempts == Retries(s.log, id)
  {
    OneRelayCountsRight(cfg, s, me);
    ReachableInv(cfg, s);
    CurrentPrefix(s.log, |s.log|, id);
    assert s.log[..|s.log|] == s.log;
    AttemptsAccount(cfg, s.log, id);
    assert id in s.table ==> RowMatches(cfg, s.table[id], Latest(s.log, id));
    if AnswerRetries(s.log, id) > cfg.maxAttempts {
      BudgetExceededIff(cfg, s, id);
      var i :| Since(s.log, id) <= i < |s.log| && OneTooMany(cfg, s.log, id, i);
      CurrentPrefix(s.log, i, id);
    }
  }

  /** ... and a retryable answer kills the row exactly when its failures number MaxAttempts; the answers among
      them number MaxAttempts if and only if none of its first MaxAttempts failures was a transport failure. */
  lemma OneRelayKillsWhen(cfg: Config, s: State, me: nat, i: nat)
    requires cfg.Normalized() && LoneReachable(cfg, s, me)
    requires i < |s.log| && s.log[i].Wrote? && s.log[i].result.RetryableAnswer()
    ensures s.log[i].mark.MarkDead? <==> Retries(s.log[..i], s.log[i].id) >= cfg.maxAttempts
    ensures s.log[i].mark.MarkDead? ==>
              var failures := Failures(s.log[..i], s.log[i].id);
              && cfg.maxAttempts <= |failures|
              && (AnswerRetries(s.log[..i], s.log[i].id) == cfg.maxAttempts <==>
                  forall j :: 0 <= j < cfg.maxAttempts ==> failures[j].Answer?)
  {
    OneRelayCountsRight(cfg, s, me);
    CurrentPrefix(s.log, i, s.log[i].id);
    KilledExactlyWhen(cfg, s, i);
    if s.log[i].mark.MarkDead? {
      DocumentedBudgetOfRuns(cfg, s, i);
    }
  }
}
