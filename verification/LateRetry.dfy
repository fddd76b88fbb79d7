/** A run in which two relays spend one attempt: the retry time is read from the clock before the
    write-back, and the write-back is late. */
module LateRetry {
  import opened Wrappers
  import opened Documents
  import opened Policy
  import opened Outbox
  import opened Protocol
  import opened Account

  const CFG := Config(1, 1, 1, 10)
  const OP := Operation(Key("articles", "1"), Index, map[])
  const BUSY := SendResult(503, SendFailed("busy"))

  function Leased(until: int, token: nat, attempts: nat, retry: Option<int>, error: string): Row {
    Row("articles", OP, Processing, attempts, retry, error, Some(until), token, 0, None)
  }

  function FirstClaimed(): State {
    var row := Leased(10, 1, 0, None, "");
    State(map[1 := row], {1}, 2, 0, 1, map[0 := Delivering(0, [OutboxEvent(1, row)])], [Claimed(0, 1, 1, 0)], [])
  }

  function FirstQueried(): State {
    var row := NewRow("articles", OP, 0);
    State(map[1 := row], {1}, 2, 0, 0, map[0 := Claiming(0, 0, [OutboxEvent(1, row)], [])], [], [])
  }

  lemma ReachFirstQueried()
    ensures Reachable(CFG, FirstQueried())
  {
    var s0 := InitialState(0);
    assert Exec(CFG, s0, []) == s0;
    var s1 := Apply(CFG, s0, Insert(1, "articles", OP));
    Reach(CFG, s0, Insert(1, "articles", OP));
    var s2 := Apply(CFG, s1, Begin(0));
    Reach(CFG, s1, Begin(0));
    assert s2 == State(map[1 := NewRow("articles", OP, 0)], {1}, 2, 0, 0, map[0 := Started(0)], [], []);
    Reach(CFG, s2, Query(0));
    assert Candidates(s2.table, 0, 1, 2, 4) == [OutboxEvent(1, NewRow("articles", OP, 0))] by {
      assert Candidates(s2.table, 0, 2, 2, 3) == [];
    }
    assert Apply(CFG, s2, Query(0)).relays == FirstQueried().relays;
  }

  lemma ReachFirstClaimed()
    ensures Reachable(CFG, FirstClaimed())
  {
    ReachFirstQueried();
    var s3 := FirstQueried();
    var s4 := Apply(CFG, s3, Claim(0));
    Reach(CFG, s3, Claim(0));
    var s5 := Apply(CFG, s4, Release(0));
    Reach(CFG, s4, Release(0));
    var mine := [OutboxEvent(1, Leased(10, 1, 0, None, ""))];
    assert s4.table == FirstClaimed().table && s4.log == FirstClaimed().log;
    assert PhaseOf(s4, 0).candidates == [] && PhaseOf(s4, 0).claimed == mine;
    assert s4.relays == map[0 := Claiming(0, 0, [], mine)];
    assert s5.relays == FirstClaimed().relays;
    assert s5 == FirstClaimed();
  }

  /** Relay 0 has read the clock for its retry at 0 and stalls; relay 1 starts at 10, the lease over. */
  function SecondStarted(): State {
    var row := Leased(10, 1, 0, None, "");
    State(map[1 := row], {1}, 2, 10, 1,
          map[0 := Timed(0, [OutboxEvent(1, row)], BUSY, 0), 1 := Started(10)],
          [Claimed(0, 1, 1, 0)], [])
  }

  lemma ReachSecondStarted()
    ensures Reachable(CFG, SecondStarted())
  {
    ReachFirstClaimed();
    var s0 := FirstClaimed();
    var s1 := Apply(CFG, s0, Send(0, BUSY, false));
    Reach(CFG, s0, Send(0, BUSY, false));
    var s2 := Apply(CFG, s1, ReadClock(0));
    Reach(CFG, s1, ReadClock(0));
    var s3 := Apply(CFG, s2, Tick(10));
    Reach(CFG, s2, Tick(10));
    var s4 := Apply(CFG, s3, Begin(1));
    Reach(CFG, s3, Begin(1));
    assert s4.relays == SecondStarted().relays;
    assert s4 == SecondStarted();
  }

  function SecondQueried(): State {
    Put(SecondStarted(), 1, Claiming(10, 1, [OutboxEvent(1, Leased(10, 1, 0, None, ""))], []))
  }

  lemma ReachSecondQueried()
    ensures Reachable(CFG, SecondQueried())
  {
    ReachSecondStarted();
    var s := SecondStarted();
    Reach(CFG, s, Query(1));
    var row := Leased(10, 1, 0, None, "");
    assert Claimable(row, 10);
    assert Candidates(s.table, 10, 1, 2, 4) == [OutboxEvent(1, row)] by {
      assert Candidates(s.table, 10, 2, 2, 3) == [];
    }
  }

  /** Relay 0's late retry is written; it was due at 1 already. */
  function SecondClaiming(): State {
    var s := SecondQueried();
    s.(table := map[1 := Leased(10, 1, 0, None, "").(status := Pending, attempts := 1, nextRetryAt := Some(1),
                                                    lastError := "busy", leasedUntil := None, leaseToken := NO_TOKEN)],
       relays := map[0 := Idle, 1 := s.relays[1]],
       log := [Claimed(0, 1, 1, 0), Wrote(0, 1, 1, 0, MarkRetry(1), BUSY, 0, 10)])
  }

  lemma ReachSecondClaiming()
    ensures Reachable(CFG, SecondClaiming())
  {
    ReachSecondQueried();
    assert Pow2(Shift(1)) == 1 && RelayBackoff(1, 1) == 1;
    Reach(CFG, SecondQueried(), Write(0, true));
    var s := Apply(CFG, SecondQueried(), Write(0, true));
    assert s.table == SecondClaiming().table;
    assert s.relays == SecondClaiming().relays;
    assert s.log == SecondClaiming().log;
  }

  /** Relay 1's claim at 10 has won all the same, with the attempt count it read before. */
  function BothFailed(): State {
    var retry := Wrote(0, 1, 1, 0, MarkRetry(1), BUSY, 0, 10);
    State(map[1 := Leased(20, 2, 1, Some(1), "busy")], {1}, 2, 10, 2,
          map[0 := Idle, 1 := Timed(10, [OutboxEvent(1, Leased(20, 2, 0, None, ""))], BUSY, 10)],
          [Claimed(0, 1, 1, 0), retry, Claimed(1, 1, 2, 10)], [])
  }

  function SecondClaimed(): State {
    BothFailed().(relays := map[0 := Idle, 1 := Delivering(10, [OutboxEvent(1, Leased(20, 2, 0, None, ""))])])
  }

  lemma ReachSecondClaimed()
    ensures Reachable(CFG, SecondClaimed())
  {
    ReachSecondClaiming();
    var s1 := SecondClaiming();
    var s2 := Apply(CFG, s1, Claim(1));
    Reach(CFG, s1, Claim(1));
    var late := [OutboxEvent(1, Leased(20, 2, 0, None, ""))];
    assert s2.table == BothFailed().table && s2.log == BothFailed().log;
    assert PhaseOf(s2, 1).candidates == [] && PhaseOf(s2, 1).claimed == late;
    Reach(CFG, s2, Release(1));
    assert Apply(CFG, s2, Release(1)).relays == SecondClaimed().relays;
  }

  lemma ReachBothFailed()
    ensures Reachable(CFG, BothFailed())
  {
    ReachSecondClaimed();
    var s3 := SecondClaimed();
    var s4 := Apply(CFG, s3, Send(1, BUSY, false));
    Reach(CFG, s3, Send(1, BUSY, false));
    Reach(CFG, s4, ReadClock(1));
    assert Apply(CFG, s4, ReadClock(1)).relays == BothFailed().relays;
  }

  /** Without punctual retries the budget can be exceeded: here MaxAttempts is 1, and two retryable
      answers send the row back to pending. */
  lemma LateRetryExceedsBudget()
    ensures exists s: State :: Reachable(CFG, s) && AnswerRetries(s.log, 1) > CFG.maxAttempts && !Punctual(s.log, 1)
  {
    ReachBothFailed();
    var s0 := BothFailed();
    assert Pow2(Shift(1)) == 1 && RelayBackoff(1, 1) == 1;
    var s := Apply(CFG, s0, Write(1, true));
    Reach(CFG, s0, Write(1, true));
    var a, b, c := s.log[0], s.log[1], s.log[2];
    assert s.log[..3] == [a, b, c] && [a, b, c][..2] == [a, b] && [a, b][..1] == [a] && [a][..0] == [];
    assert AnswerRetries([a], 1) == 0;
    assert AnswerRetries([a, b], 1) == 1;
    assert AnswerRetries([a, b, c], 1) == 1;
    assert AnswerRetries(s.log, 1) == 2;
    assert Retry(s.log[1], 1);
  }
}
