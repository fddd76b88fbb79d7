/** A run in which a replayed row dies at its first failure: the relay had read it before the replay. */
module StaleReplay {
  import opened Wrappers
  import opened Documents
  import opened Policy
  import opened Outbox
  import opened Protocol
  import opened Account
  import opened DyingTime
  import opened LateRetry

  /** The row as its first failure, at 0, leaves it. */
  function Failed(): Row {
    NewRow("articles", OP, 0).(attempts := 1, nextRetryAt := Some(1), lastError := "busy")
  }

  function FirstFailed(): State {
    State(map[1 := Failed()], {1}, 2, 0, 1, map[0 := Idle],
          [Claimed(0, 1, 1, 0), Wrote(0, 1, 1, 0, MarkRetry(1), BUSY, 0, 0)], [])
  }

  function FirstTimed(): State {
    FirstClaimed().(relays := map[0 := Timed(0, PhaseOf(FirstClaimed(), 0).batch, BUSY, 0)])
  }

  lemma ReachFirstTimed()
    ensures Reachable(CFG, FirstTimed())
  {
    ReachFirstClaimed();
    var s0 := FirstClaimed();
    Reach(CFG, s0, Send(0, BUSY, false));
    var s1 := Apply(CFG, s0, Send(0, BUSY, false));
    Reach(CFG, s1, ReadClock(0));
    assert Apply(CFG, s1, ReadClock(0)).relays == FirstTimed().relays;
  }

  lemma ReachFirstFailed()
    ensures Reachable(CFG, FirstFailed())
  {
    ReachFirstTimed();
    assert Pow2(Shift(1)) == 1 && RelayBackoff(1, 1) == 1;
    Reach(CFG, FirstTimed(), Write(0, true));
    var s := Apply(CFG, FirstTimed(), Write(0, true));
    assert s.table == FirstFailed().table && s.log == FirstFailed().log && s.relays == FirstFailed().relays;
  }

  /** The retry time has come and the relay has read the row; then it is replayed. */
  function Replayed(): State {
    State(map[1 := Reset(Failed())], {1}, 2, 1, 1, map[0 := Claiming(1, 2, [OutboxEvent(1, Failed())], [])],
          FirstFailed().log + [Event.Replayed(1)], [])
  }

  lemma ReachReplayed()
    ensures Reachable(CFG, Replayed())
  {
    ReachFirstFailed();
    var s0 := FirstFailed();
    Reach(CFG, s0, Tick(1));
    var s1 := Apply(CFG, s0, Tick(1));
    Reach(CFG, s1, Begin(0));
    var s2 := Apply(CFG, s1, Begin(0));
    assert Candidates(s2.table, 1, 1, 2, 4) == [OutboxEvent(1, Failed())] by {
      assert Candidates(s2.table, 1, 2, 2, 3) == [];
    }
    Reach(CFG, s2, Query(0));
    var s3 := Apply(CFG, s2, Query(0));
    Reach(CFG, s3, Replay(1));
    var s4 := Apply(CFG, s3, Replay(1));
    assert s4.table == Replayed().table && s4.relays == Replayed().relays;
  }

  /** The claim wins, and hands out the attempts read before the replay. */
  function Reclaimed(): State {
    Replayed().(table := map[1 := LeaseRow(Reset(Failed()), 11, 2)], issued := 2,
                relays := map[0 := Delivering(1, [OutboxEvent(1, LeaseRow(Failed(), 11, 2))])],
                log := Replayed().log + [Claimed(0, 1, 2, 1)])
  }

  lemma ReachReclaimed()
    ensures Reachable(CFG, Reclaimed())
  {
    ReachReplayed();
    var s0 := Replayed();
    Reach(CFG, s0, Claim(0));
    var s1 := Apply(CFG, s0, Claim(0));
    var mine := [OutboxEvent(1, LeaseRow(Failed(), 11, 2))];
    assert s1.table == Reclaimed().table && s1.log == Reclaimed().log;
    assert PhaseOf(s1, 0).candidates == [] && PhaseOf(s1, 0).claimed == mine;
    Reach(CFG, s1, Release(0));
    assert Apply(CFG, s1, Release(0)).relays == Reclaimed().relays;
  }

  /** Its next failure kills it. */
  function DiedLog(): seq<Event> {
    Reclaimed().log + [Wrote(0, 1, 2, 1, MarkDead, BUSY, 1, 1)]
  }

  lemma ReachDied()
    ensures exists s: State :: Reachable(CFG, s) && s.log == DiedLog()
  {
    ReachReclaimed();
    var s0 := Reclaimed();
    Reach(CFG, s0, Send(0, BUSY, false));
    var s1 := Apply(CFG, s0, Send(0, BUSY, false));
    Reach(CFG, s1, ReadClock(0));
    var s2 := Apply(CFG, s1, ReadClock(0));
    Reach(CFG, s2, Write(0, true));
    assert Apply(CFG, s2, Write(0, true)).log == DiedLog();
  }

  lemma NoFailureSinceReplay()
    ensures FirstFailure(Reclaimed().log, 1).None? && Retries(Reclaimed().log, 1) == 0
  {
    TrackersAfter(Replayed().log, Claimed(0, 1, 2, 1), 1);
    CountersAfter(Replayed().log, Claimed(0, 1, 2, 1), 1);
    TrackersAfter(FirstFailed().log, Event.Replayed(1), 1);
    CountersAfter(FirstFailed().log, Event.Replayed(1), 1);
  }

  /** Replaying a row does not give it a new budget if a relay has already read it: it dies of its first
      failure since, without any delay. */
  lemma ReplayedRowDiesAtOnce()
    ensures exists s: State, i: nat ::
              && Reachable(CFG, s) && i < |s.log| && s.log[i].Wrote? && s.log[i].mark.MarkDead?
              && s.log[i].result.RetryableAnswer() && FirstFailure(s.log[..i], s.log[i].id).None?
              && Retries(s.log[..i], s.log[i].id) < CFG.maxAttempts
  {
    ReachDied();
    NoFailureSinceReplay();
    var s: State :| Reachable(CFG, s) && s.log == DiedLog();
    assert |s.log| == 5 && s.log[..4] == Reclaimed().log;
    assert s.log[4] == Wrote(0, 1, 2, 1, MarkDead, BUSY, 1, 1);
  }
}
