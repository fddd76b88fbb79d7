/** One relay, two rows about one document, one crash after a send: the old version comes back. */
module RevertingRun {
  import opened Wrappers
  import opened Documents
  import opened Policy
  import opened Outbox
  import opened Protocol
  import opened Reordering
  import opened Deliveries
  import opened Crashes
  import Overtaking

  const CFG := Config(1, 1, 1, 10)
  const KEY := Key("articles", "1")
  const DRAFT := Operation(KEY, Index, map["title" := Text("draft")])
  const FINAL := Operation(KEY, Index, map["title" := Text("final")])
  const ACCEPTED := SendResult(200, NoError)

  function Leased(op: Operation, until: int, token: nat): Row {
    NewRow("articles", op, 0).(status := Processing, leasedUntil := Some(until), leaseToken := token)
  }

  function Done(op: Operation, at: int): Row {
    NewRow("articles", op, 0).(status := Sent, sentAt := Some(at))
  }

  function Committed(): State {
    InitialState(0).(table := map[1 := NewRow("articles", DRAFT, 0), 2 := NewRow("articles", FINAL, 0)],
                     used := {1, 2}, nextId := 3)
  }

  lemma ReachCommitted()
    ensures LoneReachable(CFG, Committed(), 0)
  {
    var s0 := InitialState(0);
    assert Led(CFG, 0, [], s0);
    LoneReach(CFG, s0, Insert(1, "articles", DRAFT), 0);
    var s1 := Apply(CFG, s0, Insert(1, "articles", DRAFT));
    LoneReach(CFG, s1, Insert(2, "articles", FINAL), 0);
    var s2 := Apply(CFG, s1, Insert(2, "articles", FINAL));
    assert s2.table == Committed().table && s2.used == Committed().used;
  }

  predicate FindsFirst(s: State, id: int) {
    var found := Candidates(s.table, s.clock, 1, s.nextId, 4);
    id in s.table && Claimable(s.table[id], s.clock) && found != [] && found[0] == OutboxEvent(id, s.table[id])
  }

  function Queried(s: State): State {
    Put(s, 0, Claiming(s.clock, |s.log|, Candidates(s.table, s.clock, 1, s.nextId, 4), []))
  }

  lemma QueryOne(s: State)
    requires LoneReachable(CFG, s, 0) && PhaseOf(s, 0) == Idle
    ensures LoneReachable(CFG, Queried(s), 0)
  {
    LoneReach(CFG, s, Begin(0), 0);
    var s1 := Apply(CFG, s, Begin(0));
    LoneReach(CFG, s1, Query(0), 0);
    assert Apply(CFG, s1, Query(0)).relays == Queried(s).relays;
  }

  /** From idle to a claimed batch of one row. */
  lemma ClaimOne(s: State, id: int)
    requires LoneReachable(CFG, s, 0) && PhaseOf(s, 0) == Idle && FindsFirst(s, id)
    ensures var row := LeaseRow(s.table[id], s.clock + 10, s.issued + 1);
            LoneReachable(CFG, Put(s, 0, Delivering(s.clock, [OutboxEvent(id, row)]))
                                 .(table := s.table[id := row], issued := s.issued + 1,
                                   log := s.log + [Claimed(0, id, s.issued + 1, s.clock)]), 0)
  {
    QueryOne(s);
    var s2 := Queried(s);
    LoneReach(CFG, s2, Claim(0), 0);
    var s3 := Apply(CFG, s2, Claim(0));
    var row := LeaseRow(s.table[id], s.clock + 10, s.issued + 1);
    assert PhaseOf(s3, 0).claimed == [OutboxEvent(id, row)];
    LoneReach(CFG, s3, Release(0), 0);
    assert Apply(CFG, s3, Release(0)).relays == s.relays[0 := Delivering(s.clock, [OutboxEvent(id, row)])];
  }

  /** The one row in hand is carried out, and the process dies before it writes that down. */
  lemma SendAndDie(s: State, now: int, e: OutboxEvent)
    requires LoneReachable(CFG, s, 0) && PhaseOf(s, 0) == Delivering(now, [e]) && !e.row.op.action.Other?
    ensures LoneReachable(CFG,
              Put(s, 0, Idle)
                .(delivered := s.delivered + [Delivery(e.id, e.row.op, e.row.leaseToken, true, |s.log|)]), 0)
  {
    LoneReach(CFG, s, Send(0, ACCEPTED, true), 0);
    var s1 := Apply(CFG, s, Send(0, ACCEPTED, true));
    LoneReach(CFG, s1, Crash(0), 0);
    assert Apply(CFG, s1, Crash(0)).relays == s.relays[0 := Idle];
  }

  /** The one row in hand is carried out and marked sent. */
  lemma SendAndFinish(s: State, now: int, e: OutboxEvent)
    requires LoneReachable(CFG, s, 0) && PhaseOf(s, 0) == Delivering(now, [e]) && !e.row.op.action.Other?
    requires WriteBack(s.table, e, MarkSent(s.clock), "").Success?
    ensures LoneReachable(CFG,
              Put(s, 0, Idle).(delivered := s.delivered + [Delivery(e.id, e.row.op, e.row.leaseToken, true, |s.log|)],
                               table := WriteBack(s.table, e, MarkSent(s.clock), "").value,
                               log := s.log + [Wrote(0, e.id, e.row.leaseToken, e.row.attempts, MarkSent(s.clock),
                                                     ACCEPTED, s.clock, s.clock)]), 0)
  {
    LoneReach(CFG, s, Send(0, ACCEPTED, true), 0);
    var s1 := Apply(CFG, s, Send(0, ACCEPTED, true));
    LoneReach(CFG, s1, ReadClock(0), 0);
    var s2 := Apply(CFG, s1, ReadClock(0));
    LoneReach(CFG, s2, Write(0, true), 0);
    assert Apply(CFG, s2, Write(0, true)).relays == s.relays[0 := Idle];
  }

  function Draft(until: int, token: nat): OutboxEvent { OutboxEvent(1, Leased(DRAFT, until, token)) }
  function Newer(): OutboxEvent { OutboxEvent(2, Leased(FINAL, 10, 2)) }

  /** Row 1 has been carried out; its claim is abandoned. */
  function Died(): State {
    Committed().(table := map[1 := Draft(10, 1).row, 2 := NewRow("articles", FINAL, 0)], issued := 1,
                 relays := map[0 := Idle],
                 log := [Claimed(0, 1, 1, 0)], delivered := [Delivery(1, DRAFT, 1, true, 1)])
  }

  lemma ReachDied()
    ensures LoneReachable(CFG, Died(), 0)
  {
    ReachCommitted();
    var s0 := Committed();
    assert Candidates(s0.table, 0, 1, 3, 4)[0] == OutboxEvent(1, s0.table[1]);
    ClaimOne(s0, 1);
    var s1 := Put(s0, 0, Delivering(0, [Draft(10, 1)]))
                .(table := s0.table[1 := Draft(10, 1).row], issued := 1, log := [Claimed(0, 1, 1, 0)]);
    assert s0.log + [Claimed(0, 1, 1, 0)] == s1.log;
    SendAndDie(s1, 0, Draft(10, 1));
    var s2 := Put(s1, 0, Idle).(delivered := [Delivery(1, DRAFT, 1, true, 1)]);
    assert s1.delivered + [Delivery(1, DRAFT, 1, true, 1)] == s2.delivered;
    assert s2.table == Died().table && s2.relays == Died().relays;
  }

  /** The next batch passes over row 1, whose lease is not over, and finishes row 2. */
  function Passed(): State {
    Died().(table := map[1 := Draft(10, 1).row, 2 := Done(FINAL, 0)], issued := 2,
            log := [Claimed(0, 1, 1, 0), Claimed(0, 2, 2, 0), Wrote(0, 2, 2, 0, MarkSent(0), ACCEPTED, 0, 0)],
            delivered := [Delivery(1, DRAFT, 1, true, 1), Delivery(2, FINAL, 2, true, 2)])
  }

  lemma ReachPassed()
    ensures LoneReachable(CFG, Passed(), 0)
  {
    ReachDied();
    var s0 := Died();
    assert Candidates(s0.table, 0, 1, 3, 4) == Candidates(s0.table, 0, 2, 3, 4);
    assert Candidates(s0.table, 0, 2, 3, 4)[0] == OutboxEvent(2, s0.table[2]);
    ClaimOne(s0, 2);
    var s1 := Put(s0, 0, Delivering(0, [Newer()]))
                .(table := s0.table[2 := Newer().row], issued := 2, log := [Claimed(0, 1, 1, 0), Claimed(0, 2, 2, 0)]);
    assert s0.log + [Claimed(0, 2, 2, 0)] == s1.log;
    SendAndFinish(s1, 0, Newer());
    assert WriteBack(s1.table, Newer(), MarkSent(0), "").value == Passed().table;
    assert s1.log + [Wrote(0, 2, 2, 0, MarkSent(0), ACCEPTED, 0, 0)] == Passed().log;
    assert s1.delivered + [Delivery(2, FINAL, 2, true, 2)] == Passed().delivered;
    assert Put(s1, 0, Idle).relays == Passed().relays;
  }

  /** Once the lease is over, row 1 is claimed and carried out again. */
  function Reverted(): State {
    Passed().(table := map[1 := Done(DRAFT, 10), 2 := Done(FINAL, 0)], clock := 10, issued := 3,
              log := Passed().log + [Claimed(0, 1, 3, 10), Wrote(0, 1, 3, 0, MarkSent(10), ACCEPTED, 10, 10)],
              delivered := Passed().delivered + [Delivery(1, DRAFT, 3, true, 4)])
  }

  function Reclaimed(): State {
    Passed().(table := map[1 := Draft(20, 3).row, 2 := Done(FINAL, 0)], clock := 10, issued := 3,
              relays := map[0 := Delivering(10, [Draft(20, 3)])], log := Passed().log + [Claimed(0, 1, 3, 10)])
  }

  lemma ReachReclaimed()
    ensures LoneReachable(CFG, Reclaimed(), 0)
  {
    ReachPassed();
    LoneReach(CFG, Passed(), Tick(10), 0);
    var s0 := Apply(CFG, Passed(), Tick(10));
    assert Candidates(s0.table, 10, 1, 3, 4)[0] == OutboxEvent(1, s0.table[1]);
    ClaimOne(s0, 1);
    assert s0.table[1 := Draft(20, 3).row] == Reclaimed().table;
    assert Put(s0, 0, Delivering(10, [Draft(20, 3)])).relays == Reclaimed().relays;
  }

  lemma ReachReverted()
    ensures LoneReachable(CFG, Reverted(), 0)
  {
    ReachReclaimed();
    var s1 := Reclaimed();
    SendAndFinish(s1, 10, Draft(20, 3));
    assert WriteBack(s1.table, Draft(20, 3), MarkSent(10), "").value == Reverted().table;
    assert s1.log + [Wrote(0, 1, 3, 0, MarkSent(10), ACCEPTED, 10, 10)] == Reverted().log;
    assert Put(s1, 0, Idle).relays == Reverted().relays;
  }

  lemma DraftOrFinal()
    ensures DRAFT.fields != FINAL.fields
    ensures PerformAll(map[], [DRAFT, FINAL]) == map[KEY := FINAL.fields]
    ensures PerformAll(map[], [DRAFT, FINAL, DRAFT]) == map[KEY := DRAFT.fields]
  {
    var start: Docs := map[];
    var drafted, finished: Docs := map[KEY := DRAFT.fields], map[KEY := FINAL.fields];
    assert Perform(start, DRAFT) == Perform(finished, DRAFT) == drafted && Perform(drafted, FINAL) == finished;
    assert [DRAFT][1..] == [] && PerformAll(finished, [DRAFT]) == drafted;
    assert [FINAL][1..] == [] && PerformAll(drafted, [FINAL]) == finished;
    assert [FINAL, DRAFT][1..] == [DRAFT] && PerformAll(drafted, [FINAL, DRAFT]) == drafted;
    assert [DRAFT, FINAL, DRAFT][1..] == [FINAL, DRAFT] && PerformAll(start, [DRAFT, FINAL, DRAFT]) == drafted;
    assert [DRAFT, FINAL][1..] == [FINAL] && PerformAll(start, [DRAFT, FINAL]) == finished;
    assert DRAFT.fields["title"] != FINAL.fields["title"];
  }

  /** Every row has been sent, and the document is the older row's. */
  lemma CrashReverts()
    ensures exists s: State ::
              && LoneReachable(CFG, s, 0)
              && s.table.Keys == {1, 2} && s.table[1].status.Sent? && s.table[2].status.Sent?
              && PerformAll(map[], Requests(s.delivered)) == map[KEY := DRAFT.fields]
              && PerformAll(map[], OpsAt(Overtaking.Asks(s.table), [1, 2])) == map[KEY := FINAL.fields]
              && DRAFT.fields != FINAL.fields
  {
    ReachReverted();
    DraftOrFinal();
    var s := Reverted();
    assert [1, 2][0] == 1 && [1, 2][1] == 2;
    assert Requests(s.delivered) == [DRAFT, FINAL, DRAFT];
    assert OpsAt(Overtaking.Asks(s.table), [1, 2]) == [DRAFT, FINAL];
  }
}
