/** One relay that may crash, lose statements and retry at any point: what its runs keep. */
module Crashes {
  import opened Wrappers
  import opened Documents
  import opened Policy
  import opened Outbox
  import opened Protocol
  import opened ProtocolInvariant

  // --- Runs of one relay ---

  /** A step of relay `me`, of the clock or of a business transaction. */
  predicate LoneStep(step: Step, me: nat) {
    step.Tick? || step.Insert? || TakenBy(step, me)
  }

  /** `s` can be reached from an empty outbox with relay `me` alone. */
  ghost predicate LoneReachable(cfg: Config, s: State, me: nat)
    requires cfg.Normalized()
  {
    exists clock: int, steps: seq<Step> ::
      Led(cfg, clock, steps, s) && forall i :: 0 <= i < |steps| ==> LoneStep(steps[i], me)
  }

  lemma LoneReach(cfg: Config, s: State, step: Step, me: nat)
    requires cfg.Normalized() && LoneReachable(cfg, s, me) && Enabled(cfg, s, step) && LoneStep(step, me)
    ensures LoneReachable(cfg, Apply(cfg, s, step), me)
  {
    var clock: int, steps: seq<Step> :|
      Led(cfg, clock, steps, s) && forall i :: 0 <= i < |steps| ==> LoneStep(steps[i], me);
    OneMore(cfg, InitialState(clock), steps, step);
    assert Led(cfg, clock, steps + [step], Apply(cfg, s, step));
  }

  // --- What such runs keep ---

  /** The rows in hand, and those still to be claimed. */
  function Batch(p: Phase): seq<OutboxEvent> {
    p.Held() + if p.Claiming? then p.candidates else []
  }

  ghost predicate InOrder(p: Phase) {
    && InIdOrder(Batch(p))
    && (p.Delivering? || p.Answered? || p.Timed? ==> p.batch != [])
  }

  /** No operator has interfered, and no claim was made later than the current batch's clock reading. */
  ghost predicate OnlyRelay(s: State, p: Phase) {
    && (forall id :: id in s.used ==> id in s.table)
    && (forall i :: 0 <= i < |s.log| ==> s.log[i].Claimed? || s.log[i].Wrote?)
    && (!p.Idle? ==> forall i :: 0 <= i < |s.log| && s.log[i].Claimed? ==> s.log[i].now <= p.now)
  }

  ghost predicate Own(log: seq<Event>, me: nat, now: int, e: OutboxEvent) {
    Latest(log, e.id) == Some(Claimed(me, e.id, e.row.leaseToken, now))
  }

  /** Nothing has happened to the rows in hand since they were claimed. */
  ghost predicate OwnLatest(log: seq<Event>, me: nat, p: Phase) {
    forall i :: 0 <= i < |p.Held()| ==> Own(log, me, p.now, p.Held()[i])
  }

  /** An open row before a row in the batch is in the batch itself, or could not be claimed for it. */
  ghost predicate BehindBatch(t: Table, log: seq<Event>, batch: seq<OutboxEvent>, now: int) {
    forall i, a :: 0 <= i < |batch| && a in t && a < batch[i].id ==>
      Mentions(batch, a) || Latest(log, a).None? || !Claimable(t[a], now)
  }

  ghost predicate Behind(t: Table, log: seq<Event>, p: Phase) {
    !p.Idle? ==> BehindBatch(t, log, Batch(p), p.now)
  }

  ghost predicate LoneInv(cfg: Config, s: State, me: nat) {
    && Inv(cfg, s)
    && OnlyRelay(s, PhaseOf(s, me)) && InOrder(PhaseOf(s, me)) && OwnLatest(s.log, me, PhaseOf(s, me))
    && Behind(s.table, s.log, PhaseOf(s, me))
  }

  lemma LoneStepKeeps(cfg: Config, s: State, step: Step, me: nat)
    requires cfg.Valid() && LoneInv(cfg, s, me) && Enabled(cfg, s, step) && LoneStep(step, me)
    ensures LoneInv(cfg, Apply(cfg, s, step), me)
  {
    StepKeeps(cfg, s, step);
    OnlyRelayKept(cfg, s, step, me);
    OrderKept(cfg, s, step, me);
    OwnKept(cfg, s, step, me);
    BehindKept(cfg, s, step, me);
  }

  lemma OnlyRelayKept(cfg: Config, s: State, step: Step, me: nat)
    requires cfg.Normalized() && Inv(cfg, s) && OnlyRelay(s, PhaseOf(s, me))
    requires Enabled(cfg, s, step) && LoneStep(step, me)
    ensures OnlyRelay(Apply(cfg, s, step), PhaseOf(Apply(cfg, s, step), me))
  {
  }

  lemma OrderKept(cfg: Config, s: State, step: Step, me: nat)
    requires cfg.Normalized() && InOrder(PhaseOf(s, me)) && Enabled(cfg, s, step) && LoneStep(step, me)
    ensures InOrder(PhaseOf(Apply(cfg, s, step), me))
  {
    match step {
      case Insert(_, _, _) =>
      case Query(_) => OrderAfterQuery(cfg, s, me);
      case Claim(_) => OrderAfterClaim(cfg, s, me);
      case Release(_) => OrderAfterRelease(cfg, s, me);
      case Write(_, _) => OrderAfterWrite(cfg, s, step, me);
      case _ => SameBatch(cfg, s, step, me);
    }
  }

  lemma OrderAfterQuery(cfg: Config, s: State, me: nat)
    requires cfg.Normalized() && Enabled(cfg, s, Query(me))
    ensures InOrder(PhaseOf(Apply(cfg, s, Query(me)), me))
  {
    CandidatesAreClaimable(s.table, PhaseOf(s, me).now, 1, s.nextId, 4 * cfg.batchSize);
  }

  lemma OrderAfterClaim(cfg: Config, s: State, me: nat)
    requires cfg.Normalized() && InOrder(PhaseOf(s, me)) && Enabled(cfg, s, Claim(me))
    ensures InOrder(PhaseOf(Apply(cfg, s, Claim(me)), me))
  {
    var p, p' := PhaseOf(s, me), PhaseOf(Apply(cfg, s, Claim(me)), me);
    ClaimOrder(p.claimed, p.candidates, p'.claimed);
  }

  lemma OrderAfterRelease(cfg: Config, s: State, me: nat)
    requires cfg.Normalized() && InOrder(PhaseOf(s, me)) && Enabled(cfg, s, Release(me))
    ensures InOrder(PhaseOf(Apply(cfg, s, Release(me)), me))
  {
    var p, p' := PhaseOf(s, me), PhaseOf(Apply(cfg, s, Release(me)), me);
    assert Batch(p') == p'.Held() && forall i :: 0 <= i < |p.claimed| ==> p.claimed[i] == Batch(p)[i];
  }

  lemma OrderAfterWrite(cfg: Config, s: State, step: Step, me: nat)
    requires cfg.Normalized() && InOrder(PhaseOf(s, me)) && Enabled(cfg, s, step) && LoneStep(step, me) && step.Write?
    ensures InOrder(PhaseOf(Apply(cfg, s, step), me))
  {
    var p, p' := PhaseOf(s, me), PhaseOf(Apply(cfg, s, step), me);
    assert Batch(p) == p.batch && Batch(p') == p'.Held();
  }

  lemma ClaimOrder(claimed: seq<OutboxEvent>, candidates: seq<OutboxEvent>, claimed': seq<OutboxEvent>)
    requires candidates != [] && InIdOrder(claimed + candidates)
    requires claimed' == claimed
             || (|claimed'| == |claimed| + 1 && claimed'[..|claimed|] == claimed
                 && claimed'[|claimed|].id == candidates[0].id)
    ensures InIdOrder(claimed' + candidates[1..])
  {
    var all, all' := claimed + candidates, claimed' + candidates[1..];
    var skip := |claimed| + 1 - |claimed'|;
    assert forall i :: 0 <= i < |claimed| ==> all'[i] == all[i];
    assert forall i :: |claimed| <= i < |all'| ==> all'[i].id == all[i + skip].id;
  }

  // --- The rows in hand stay the relay's own ---

  lemma OwnKept(cfg: Config, s: State, step: Step, me: nat)
    requires cfg.Normalized() && InOrder(PhaseOf(s, me)) && OwnLatest(s.log, me, PhaseOf(s, me))
    requires Enabled(cfg, s, step) && LoneStep(step, me)
    ensures OwnLatest(Apply(cfg, s, step).log, me, PhaseOf(Apply(cfg, s, step), me))
  {
    if step.Claim? {
      OwnAfterClaim(cfg, s, me);
    } else if step.Write? {
      OwnAfterWrite(cfg, s, step, me);
    }
  }

  lemma OwnAfterClaim(cfg: Config, s: State, me: nat)
    requires cfg.Normalized() && InOrder(PhaseOf(s, me)) && OwnLatest(s.log, me, PhaseOf(s, me))
    requires Enabled(cfg, s, Claim(me))
    ensures OwnLatest(Apply(cfg, s, Claim(me)).log, me, PhaseOf(Apply(cfg, s, Claim(me)), me))
  {
    var s' := Apply(cfg, s, Claim(me));
    var p, c := PhaseOf(s, me), PhaseOf(s, me).candidates[0];
    if s'.log != s.log {
      forall i | 0 <= i < |p.claimed| ensures Own(s'.log, me, p.now, p.claimed[i]) {
        assert Own(s.log, me, p.now, p.Held()[i]);
        assert Batch(p)[i].id < Batch(p)[|p.claimed|].id;
        LatestAfter(s.log, Claimed(me, c.id, s.issued + 1, p.now), p.claimed[i].id);
      }
      LatestAfter(s.log, Claimed(me, c.id, s.issued + 1, p.now), c.id);
    }
  }

  lemma OwnAfterWrite(cfg: Config, s: State, step: Step, me: nat)
    requires cfg.Normalized() && InOrder(PhaseOf(s, me)) && OwnLatest(s.log, me, PhaseOf(s, me))
    requires Enabled(cfg, s, step) && LoneStep(step, me) && step.Write?
    ensures OwnLatest(Apply(cfg, s, step).log, me, PhaseOf(Apply(cfg, s, step), me))
  {
    var s' := Apply(cfg, s, step);
    var p, p' := PhaseOf(s, me), PhaseOf(s', me);
    if p'.Delivering? {
      var row, e := WriteEffect(cfg, s, step, me);
      forall i | 0 <= i < |p'.batch| ensures Own(s'.log, me, p.now, p'.batch[i]) {
        assert p'.batch[i] == p.Held()[i + 1];
        assert Own(s.log, me, p.now, p.Held()[i + 1]);
        assert Batch(p)[0].id < Batch(p)[i + 1].id;
        OwnStill(s.log, e, me, p.now, p'.batch[i]);
      }
    }
  }

  lemma OwnStill(log: seq<Event>, e: Event, me: nat, now: int, event: OutboxEvent)
    requires Own(log, me, now, event) && e.id != event.id
    ensures Own(log + [e], me, now, event)
  {
    LatestAfter(log, e, event.id);
  }

  /** A write-back that took effect, on its row and in the log. */
  lemma WriteEffect(cfg: Config, s: State, step: Step, me: nat) returns (row: Row, e: Event)
    requires cfg.Normalized() && Enabled(cfg, s, step) && LoneStep(step, me) && step.Write?
    requires PhaseOf(Apply(cfg, s, step), me).Delivering?
    ensures var s', p := Apply(cfg, s, step), PhaseOf(s, me);
            && e.Wrote? && e.id == p.batch[0].id && e.id in s.table
            && (row.Terminal() <==> Final(e))
            && (!Final(e) ==> row.status.Pending? && row.nextRetryAt == Some(e.mark.retryAt))
            && e.mark == Decide(cfg, p.batch[0].row.attempts, p.result, p.readAt)
            && s'.table == s.table[e.id := row] && s'.log == s.log + [e]
            && PhaseOf(s', me) == Delivering(p.now, p.batch[1..])
  {
    var p := PhaseOf(s, me);
    var event := p.batch[0];
    var mark := Decide(cfg, event.row.attempts, p.result, p.readAt);
    e := Wrote(me, event.id, event.row.leaseToken, event.row.attempts, mark, p.result, p.readAt, s.clock);
    row := Marked(s.table[event.id], event.row.attempts, mark, p.result.Reason());
  }

  // --- Earlier rows are in the batch or could not be claimed for it ---

  lemma BehindKept(cfg: Config, s: State, step: Step, me: nat)
    requires cfg.Valid() && Inv(cfg, s) && InOrder(PhaseOf(s, me)) && Enabled(cfg, s, step) && LoneStep(step, me)
    requires Behind(s.table, s.log, PhaseOf(s, me))
    ensures Behind(Apply(cfg, s, step).table, Apply(cfg, s, step).log, PhaseOf(Apply(cfg, s, step), me))
  {
    match step {
      case Insert(id, _, _) => assert Latest(s.log, id).None?;
      case Query(_) => QueryBehind(cfg, s, me);
      case Claim(_) => ClaimBehind(cfg, s, me);
      case Release(_) => ReleaseBehind(cfg, s, me);
      case Write(_, _) => WriteBehind(cfg, s, step, me);
      case _ => SameBatch(cfg, s, step, me);
    }
  }

  lemma SameBatch(cfg: Config, s: State, step: Step, me: nat)
    requires cfg.Normalized() && Enabled(cfg, s, step) && LoneStep(step, me)
    requires step.Tick? || step.Begin? || step.Send? || step.ReadClock? || step.Crash?
    ensures var s' := Apply(cfg, s, step);
            var p, p' := PhaseOf(s, me), PhaseOf(s', me);
            && s'.table == s.table && s'.log == s.log
            && (p'.Idle? || Batch(p') == [] || (!p.Idle? && Batch(p') == Batch(p) && p'.now == p.now))
  {
  }

  /** A row leaves the batch that cannot be claimed again for it. */
  lemma DropBehind(t: Table, log: seq<Event>, batch: seq<OutboxEvent>, n: nat, now: int)
    requires BehindBatch(t, log, batch, now) && n < |batch|
    requires batch[n].id in t ==> !Claimable(t[batch[n].id], now)
    ensures BehindBatch(t, log, batch[..n] + batch[n + 1..], now)
  {
    var rest := batch[..n] + batch[n + 1..];
    forall i, a | 0 <= i < |rest| && a in t && a < rest[i].id
      ensures Mentions(rest, a) || Latest(log, a).None? || !Claimable(t[a], now)
    {
      assert rest[i] == batch[if i < n then i else i + 1];
      if Mentions(batch, a) && a != batch[n].id {
        var k :| 0 <= k < |batch| && batch[k].id == a;
        assert rest[if k < n then k else k - 1].id == a;
      }
    }
  }

  /** A statement about a row of the batch leaves everything else as it is. */
  lemma ChangeBehind(t: Table, log: seq<Event>, batch: seq<OutboxEvent>, now: int, batch': seq<OutboxEvent>,
                     row: Row, e: Event)
    requires BehindBatch(t, log, batch, now) && Mentions(batch, e.id)
    requires |batch'| == |batch| && forall i :: 0 <= i < |batch| ==> batch'[i].id == batch[i].id
    ensures BehindBatch(t[e.id := row], log + [e], batch', now)
  {
    forall i, a | 0 <= i < |batch'| && a in t[e.id := row] && a < batch'[i].id
      ensures Mentions(batch', a) || Latest(log + [e], a).None? || !Claimable(t[e.id := row][a], now)
    {
      LatestAfter(log, e, a);
      if Mentions(batch, a) {
        var k :| 0 <= k < |batch| && batch[k].id == a;
        assert batch'[k].id == a;
      } else {
        assert batch[i].id == batch'[i].id;
      }
    }
  }

  /** The candidate query passes over no claimable row before one it returns. */
  lemma {:induction false} NoneSkipped(t: Table, now: int, from: int, until: int, limit: nat, c: OutboxEvent, id: int)
    requires c in Candidates(t, now, from, until, limit)
    requires from <= id < c.id && id in t && Claimable(t[id], now)
    ensures Mentions(Candidates(t, now, from, until, limit), id)
    decreases until - from
  {
    var all := Candidates(t, now, from, until, limit);
    if from in t && Claimable(t[from], now) {
      var rest := Candidates(t, now, from + 1, until, limit - 1);
      if from == id {
        assert all[0].id == id;
      } else {
        NoneSkipped(t, now, from + 1, until, limit - 1, c, id);
        var i :| 0 <= i < |rest| && rest[i].id == id;
        assert all[i + 1].id == id;
      }
    } else {
      NoneSkipped(t, now, from + 1, until, limit, c, id);
    }
  }

  lemma QueryBehind(cfg: Config, s: State, me: nat)
    requires cfg.Normalized() && Inv(cfg, s) && Enabled(cfg, s, Query(me))
    ensures var s' := Apply(cfg, s, Query(me)); Behind(s'.table, s'.log, PhaseOf(s', me))
  {
    var now := PhaseOf(s, me).now;
    var found := Candidates(s.table, now, 1, s.nextId, 4 * cfg.batchSize);
    assert Batch(PhaseOf(Apply(cfg, s, Query(me)), me)) == found;
    forall i, a | 0 <= i < |found| && a in s.table && a < found[i].id && Claimable(s.table[a], now)
      ensures Mentions(found, a)
    {
      assert found[i] in found;
      NoneSkipped(s.table, now, 1, s.nextId, 4 * cfg.batchSize, found[i], a);
    }
  }

  lemma ClaimBehind(cfg: Config, s: State, me: nat)
    requires cfg.Normalized() && Inv(cfg, s) && Enabled(cfg, s, Claim(me))
    requires Behind(s.table, s.log, PhaseOf(s, me))
    ensures var s' := Apply(cfg, s, Claim(me)); Behind(s'.table, s'.log, PhaseOf(s', me))
  {
    var s' := Apply(cfg, s, Claim(me));
    var p := PhaseOf(s, me);
    var n := |p.claimed|;
    assert Batch(p)[n] == p.candidates[0];
    if s'.log == s.log {
      assert Batch(PhaseOf(s', me)) == Batch(p)[..n] + Batch(p)[n + 1..];
      DropBehind(s.table, s.log, Batch(p), n, p.now);
    } else {
      WonBehind(cfg, s, me);
    }
  }

  lemma WonBatch(cfg: Config, s: State, me: nat)
    requires cfg.Normalized() && Enabled(cfg, s, Claim(me)) && Apply(cfg, s, Claim(me)).log != s.log
    ensures var batch, batch' := Batch(PhaseOf(s, me)), Batch(PhaseOf(Apply(cfg, s, Claim(me)), me));
            && Mentions(batch, PhaseOf(s, me).candidates[0].id)
            && |batch'| == |batch| && forall i :: 0 <= i < |batch| ==> batch'[i].id == batch[i].id
  {
    assert Batch(PhaseOf(s, me))[|PhaseOf(s, me).claimed|] == PhaseOf(s, me).candidates[0];
  }

  lemma WonBehind(cfg: Config, s: State, me: nat)
    requires cfg.Normalized() && Inv(cfg, s) && Enabled(cfg, s, Claim(me)) && Apply(cfg, s, Claim(me)).log != s.log
    requires BehindBatch(s.table, s.log, Batch(PhaseOf(s, me)), PhaseOf(s, me).now)
    ensures var s' := Apply(cfg, s, Claim(me));
            BehindBatch(s'.table, s'.log, Batch(PhaseOf(s', me)), PhaseOf(s, me).now)
  {
    var p, p' := PhaseOf(s, me), PhaseOf(Apply(cfg, s, Claim(me)), me);
    var c := p.candidates[0];
    WonBatch(cfg, s, me);
    ChangeBehind(s.table, s.log, Batch(p), p.now, Batch(p'), LeaseRow(s.table[c.id], p.now + cfg.lease, s.issued + 1),
                 Claimed(me, c.id, s.issued + 1, p.now));
  }

  lemma ReleaseBehind(cfg: Config, s: State, me: nat)
    requires cfg.Normalized() && InOrder(PhaseOf(s, me)) && Enabled(cfg, s, Release(me))
    requires Behind(s.table, s.log, PhaseOf(s, me))
    ensures var s' := Apply(cfg, s, Release(me)); Behind(s'.table, s'.log, PhaseOf(s', me))
  {
    var s' := Apply(cfg, s, Release(me));
    var p, p' := PhaseOf(s, me), PhaseOf(s', me);
    if p'.Delivering? {
      assert Batch(p') == p.claimed && forall i :: 0 <= i < |p.claimed| ==> Batch(p)[i] == p.claimed[i];
      forall i, a | 0 <= i < |p.claimed| && a < p.claimed[i].id && Mentions(Batch(p), a)
        ensures Mentions(p.claimed, a)
      {
        var k :| 0 <= k < |Batch(p)| && Batch(p)[k].id == a;
        assert k < i;
      }
    }
  }

  lemma WriteBehind(cfg: Config, s: State, step: Step, me: nat)
    requires cfg.Valid() && Inv(cfg, s) && Enabled(cfg, s, step) && LoneStep(step, me) && step.Write?
    requires Behind(s.table, s.log, PhaseOf(s, me))
    ensures Behind(Apply(cfg, s, step).table, Apply(cfg, s, step).log, PhaseOf(Apply(cfg, s, step), me))
  {
    var s' := Apply(cfg, s, step);
    var p, p' := PhaseOf(s, me), PhaseOf(s', me);
    if p'.Delivering? {
      var row, e := WriteEffect(cfg, s, step, me);
      NotReadyAgain(cfg, s, me, row, e);
      assert Batch(p) == p.batch && Batch(p') == p.batch[1..] && Mentions(Batch(p), e.id);
      ChangeBehind(s.table, s.log, Batch(p), p.now, Batch(p), row, e);
      DropBehind(s'.table, s'.log, Batch(p), 0, p.now);
      assert Batch(p)[..0] + Batch(p)[1..] == Batch(p');
    }
  }

  /** A row just written back cannot be claimed again for the same batch. */
  lemma NotReadyAgain(cfg: Config, s: State, me: nat, row: Row, e: Event)
    requires cfg.Valid() && Inv(cfg, s) && PhaseOf(s, me).Timed? && PhaseOf(s, me).batch != []
    requires e.Wrote? && (row.Terminal() <==> Final(e))
    requires !Final(e) ==> row.status.Pending? && row.nextRetryAt == Some(e.mark.retryAt)
    requires var p := PhaseOf(s, me); e.mark == Decide(cfg, p.batch[0].row.attempts, p.result, p.readAt)
    ensures !Claimable(row, PhaseOf(s, me).now)
  {
    var p := PhaseOf(s, me);
    assert PhaseHolds(s.table, s.used, s.clock, s.log, s.delivered, me, p);
    BackoffBounds(cfg, p.batch[0].row.attempts + 1, p.batch[0].row.attempts + 1);
  }

  // --- Runs ---

  lemma {:induction false} LoneRunKeeps(cfg: Config, s: State, steps: seq<Step>, me: nat)
    requires cfg.Valid() && LoneInv(cfg, s, me) && Allowed(cfg, s, steps)
    requires forall i :: 0 <= i < |steps| ==> LoneStep(steps[i], me)
    ensures LoneInv(cfg, Exec(cfg, s, steps), me)
    decreases |steps|
  {
    if steps != [] {
      LoneStepKeeps(cfg, s, steps[0], me);
      LoneRunKeeps(cfg, Apply(cfg, s, steps[0]), steps[1..], me);
    }
  }

  lemma LoneReachableInv(cfg: Config, s: State, me: nat)
    requires cfg.Valid() && LoneReachable(cfg, s, me)
    ensures LoneInv(cfg, s, me)
  {
    var clock: int, steps: seq<Step> :|
      Led(cfg, clock, steps, s) && forall i :: 0 <= i < |steps| ==> LoneStep(steps[i], me);
    InitialInv(cfg, clock);
    LoneRunKeeps(cfg, InitialState(clock), steps, me);
  }
}
