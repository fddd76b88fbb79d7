/** What one relay leaves behind when it sends a row, and when that shows in the documents. */
module Overtaking {
  import opened Wrappers
  import opened Documents
  import opened Fields
  import opened Policy
  import opened Outbox
  import opened Protocol
  import opened ProtocolInvariant
  import opened Reordering
  import opened Deliveries
  import opened Crashes

  // --- What is left behind when a row is sent ---

  /** When row `b` was sent, with `at` log entries written, row `a` was still open: not claimed yet, held by
      an abandoned claim whose lease was not over when `b` was claimed, or waiting for a retry time not due
      then. */
  ghost predicate LeftBehind(cfg: Config, log: seq<Event>, at: nat, b: int, a: int)
    requires at <= |log|
  {
    var mine := Latest(log[..at], b);
    && mine.Some? && mine.value.Claimed?
    && match Latest(log[..at], a)
       case None => true
       case Some(Claimed(_, _, _, now)) => now <= mine.value.now < now + cfg.lease
       case Some(Wrote(_, _, _, _, mark, _, _, _)) => mark.MarkRetry? && mine.value.now < mark.retryAt
       case _ => false
  }

  /** The row was sent under a claim, after every earlier row but those left behind. */
  ghost predicate Placed(cfg: Config, log: seq<Event>, d: Delivery) {
    && d.at <= |log|
    && Latest(log[..d.at], d.id).Some? && Latest(log[..d.at], d.id).value.Claimed?
    && forall a :: a < d.id ==> LeftBehind(cfg, log, d.at, d.id, a) || Closed(Latest(log[..d.at], a))
  }

  ghost predicate SentInOrder(cfg: Config, log: seq<Event>, delivered: seq<Delivery>) {
    && (forall i :: 0 <= i < |delivered| ==> Placed(cfg, log, delivered[i]))
    && (forall i, j :: 0 <= i < j < |delivered| ==> delivered[i].at <= delivered[j].at)
  }

  lemma PlacedStill(cfg: Config, log: seq<Event>, log': seq<Event>, d: Delivery)
    requires log <= log' && Placed(cfg, log, d)
    ensures Placed(cfg, log', d)
  {
    assert log'[..d.at] == log[..d.at];
    forall a | a < d.id ensures LeftBehind(cfg, log', d.at, d.id, a) || Closed(Latest(log'[..d.at], a)) {
      assert LeftBehind(cfg, log, d.at, d.id, a) || Closed(Latest(log[..d.at], a));
    }
  }

  /** The first row in hand, when it is sent now. */
  lemma SentNow(cfg: Config, s: State, me: nat, d: Delivery)
    requires cfg.Normalized() && LoneInv(cfg, s, me) && PhaseOf(s, me).Delivering?
    requires d.id == PhaseOf(s, me).batch[0].id && d.at == |s.log|
    ensures Placed(cfg, s.log, d)
  {
    var p := PhaseOf(s, me);
    assert s.log[..|s.log|] == s.log && p.Held()[0] == p.batch[0];
    assert Own(s.log, me, p.now, p.Held()[0]);
    forall a | a < d.id ensures LeftBehind(cfg, s.log, d.at, d.id, a) || Closed(Latest(s.log, a)) {
      if a in s.table {
        NotInHand(p, a);
        assert RowMatches(cfg, s.table[a], Latest(s.log, a));
        LatestIsRelays(s, p, a);
      }
    }
  }

  lemma NotInHand(p: Phase, a: int)
    requires InOrder(p) && p.Delivering? && a < p.batch[0].id
    ensures Batch(p) == p.batch && !Mentions(Batch(p), a)
  {
  }

  lemma LatestIsRelays(s: State, p: Phase, a: int)
    requires OnlyRelay(s, p)
    ensures var latest := Latest(s.log, a);
            latest.Some? ==>
              && (latest.value.Claimed? || latest.value.Wrote?)
              && (!p.Idle? && latest.value.Claimed? ==> latest.value.now <= p.now)
  {
  }

  lemma StepKeepsOrder(cfg: Config, s: State, step: Step, me: nat)
    requires cfg.Normalized() && LoneInv(cfg, s, me) && Enabled(cfg, s, step) && LoneStep(step, me)
    requires SentInOrder(cfg, s.log, s.delivered)
    ensures SentInOrder(cfg, Apply(cfg, s, step).log, Apply(cfg, s, step).delivered)
  {
    var s' := Apply(cfg, s, step);
    OneStepExtends(cfg, s, step);
    forall i | 0 <= i < |s'.delivered| ensures Placed(cfg, s'.log, s'.delivered[i]) {
      if i < |s.delivered| {
        assert s'.delivered[i] == s.delivered[i];
        PlacedStill(cfg, s.log, s'.log, s.delivered[i]);
      } else {
        SentNow(cfg, s, me, s'.delivered[i]);
      }
    }
  }

  lemma OneStepExtends(cfg: Config, s: State, step: Step)
    requires cfg.Normalized() && Enabled(cfg, s, step)
    ensures s.log <= Apply(cfg, s, step).log
    ensures var s' := Apply(cfg, s, step);
            && s.delivered <= s'.delivered && |s'.delivered| <= |s.delivered| + 1
            && (|s'.delivered| > |s.delivered| ==>
                  step.Send? && s'.log == s.log && s'.delivered[|s.delivered|].at == |s.log|
                  && s'.delivered[|s.delivered|].id == PhaseOf(s, step.relay).batch[0].id)
  {
  }

  lemma {:induction false} RunKeepsOrder(cfg: Config, s: State, steps: seq<Step>, me: nat)
    requires cfg.Valid() && Allowed(cfg, s, steps) && forall i :: 0 <= i < |steps| ==> LoneStep(steps[i], me)
    requires LoneInv(cfg, s, me) && SentInOrder(cfg, s.log, s.delivered)
    ensures SentInOrder(cfg, Exec(cfg, s, steps).log, Exec(cfg, s, steps).delivered)
    decreases |steps|
  {
    if steps != [] {
      LoneStepKeeps(cfg, s, steps[0], me);
      StepKeepsOrder(cfg, s, steps[0], me);
      RunKeepsOrder(cfg, Apply(cfg, s, steps[0]), steps[1..], me);
    }
  }

  /** In every run of one relay, each request carried out left no earlier row open but those that were not
      claimed yet, under an abandoned lease, or waiting for their retry time. */
  lemma SendsLeaveBehind(cfg: Config, s: State, me: nat)
    requires cfg.Valid() && LoneReachable(cfg, s, me)
    ensures LoneInv(cfg, s, me) && SentInOrder(cfg, s.log, s.delivered)
    ensures CarriesOut(Asks(s.table), s.delivered)
  {
    var clock: int, steps: seq<Step> :|
      Led(cfg, clock, steps, s) && forall i :: 0 <= i < |steps| ==> LoneStep(steps[i], me);
    LoneReachableInv(cfg, s, me);
    InitialInv(cfg, clock);
    RunKeepsOrder(cfg, InitialState(clock), steps, me);
    RunsAreFaithful(cfg, clock, steps, s);
    StillCarriedOut(Inserted(steps), s.table, s.used, s.delivered);
  }

  lemma StillCarriedOut(rows: Contents, t: Table, used: set<int>, delivered: seq<Delivery>)
    requires CarriesOut(rows, delivered) && rows.Keys == used
    requires forall id :: id in used ==> id in t
    requires forall id :: id in t ==> id in rows && t[id].op == rows[id]
    ensures CarriesOut(Asks(t), delivered)
  {
    forall i | 0 <= i < |delivered|
      ensures delivered[i].id in Asks(t) && delivered[i].op == Asks(t)[delivered[i].id]
    {
      assert delivered[i].id in used;
    }
  }

  function Asks(t: Table): Contents {
    map id | id in t :: t[id].op
  }

  // --- Overtaken rows ---

  /** Some row about this document was left behind by the last delivery of a later row about it, and was
      carried out afterwards. */
  ghost predicate SomeOvertaken(cfg: Config, log: seq<Event>, delivered: seq<Delivery>, key: Key)
    requires forall i :: 0 <= i < |delivered| ==> delivered[i].at <= |log|
  {
    exists i, j :: 0 <= i < j < |delivered| && Overtakes(cfg, log, delivered, key, i, j)
  }

  ghost predicate Overtakes(cfg: Config, log: seq<Event>, delivered: seq<Delivery>, key: Key, i: nat, j: nat)
    requires i < j < |delivered| && delivered[i].at <= |log|
  {
    && delivered[i].op.key == key && delivered[j].op.key == key
    && delivered[j].id < delivered[i].id && IsLast(delivered, i)
    && LeftBehind(cfg, log, delivered[i].at, delivered[i].id, delivered[j].id)
  }

  /** Rows of a document were last carried out out of order exactly when one of them was overtaken. */
  lemma OvertakenIff(cfg: Config, rows: Contents, log: seq<Event>, delivered: seq<Delivery>, key: Key)
    requires LogJustified(cfg, log) && SentInOrder(cfg, log, delivered) && CarriesOut(rows, delivered)
    requires forall i :: 0 <= i < |log| ==> !log[i].Replayed?
    ensures forall i :: 0 <= i < |LastOrder(delivered)| ==> LastOrder(delivered)[i] in rows
    ensures OutOfOrder(rows, LastOrder(delivered), key) <==> SomeOvertaken(cfg, log, delivered, key)
  {
    var order := LastOrder(delivered);
    LastOrderWithin(rows, delivered);
    var at := LastPositions(delivered);
    if OutOfOrder(rows, order, key) {
      var x, y :| 0 <= x < y < |order| && order[x] > order[y] && rows[order[x]].key == key && rows[order[y]].key == key;
      SentAgain(cfg, log, delivered, at[x], at[y]);
      assert Overtakes(cfg, log, delivered, key, at[x], at[y]);
    }
    if SomeOvertaken(cfg, log, delivered, key) {
      var i, j :| 0 <= i < j < |delivered| && Overtakes(cfg, log, delivered, key, i, j);
      OvertakenOutOfOrder(rows, delivered, at, i, j);
    }
  }

  lemma OvertakenOutOfOrder(rows: Contents, delivered: seq<Delivery>, at: seq<nat>, i: nat, j: nat)
    requires CarriesOut(rows, delivered) && LastPlaces(delivered, LastOrder(delivered), at)
    requires i < j < |delivered| && delivered[j].id < delivered[i].id && IsLast(delivered, i)
    requires delivered[i].op.key == delivered[j].op.key
    requires forall i :: 0 <= i < |LastOrder(delivered)| ==> LastOrder(delivered)[i] in rows
    ensures OutOfOrder(rows, LastOrder(delivered), delivered[i].op.key)
  {
    var x := PositionOf(delivered, at, i);
    var y := PositionOf(delivered, at, j);
    assert x < y;
  }

  /** Where the row of a delivery comes in the order of the last deliveries. */
  lemma PositionOf(delivered: seq<Delivery>, at: seq<nat>, i: nat) returns (x: nat)
    requires i < |delivered| && LastPlaces(delivered, LastOrder(delivered), at)
    ensures x < |at| && LastOrder(delivered)[x] == delivered[i].id
    ensures i <= at[x] && (IsLast(delivered, i) ==> at[x] == i)
  {
    assert WasDelivered(delivered, delivered[i].id);
    x :| 0 <= x < |LastOrder(delivered)| && LastOrder(delivered)[x] == delivered[i].id;
  }

  /** An earlier row that was carried out after a later one had been left behind. */
  lemma SentAgain(cfg: Config, log: seq<Event>, delivered: seq<Delivery>, i: nat, j: nat)
    requires LogJustified(cfg, log) && SentInOrder(cfg, log, delivered)
    requires forall i :: 0 <= i < |log| ==> !log[i].Replayed?
    requires i < j < |delivered| && delivered[j].id < delivered[i].id
    ensures LeftBehind(cfg, log, delivered[i].at, delivered[i].id, delivered[j].id)
  {
    var a, m, n := delivered[j].id, delivered[i].at, delivered[j].at;
    assert Placed(cfg, log, delivered[i]) && Placed(cfg, log, delivered[j]);
    var k := LastAbout(log[..n], a);
    assert log[..n][k] == log[k];
    if k >= m {
      OpenBefore(cfg, log, a, m, k);
    } else {
      SameLatest(log, a, m, n);
    }
  }

  lemma OvertakingShowsIff(cfg: Config, rows: Contents, log: seq<Event>, delivered: seq<Delivery>, start: Docs,
                           sorted: seq<int>)
    requires LogJustified(cfg, log) && SentInOrder(cfg, log, delivered) && CarriesOut(rows, delivered)
    requires forall i :: 0 <= i < |log| ==> !log[i].Replayed?
    requires Ascending(sorted) && forall id :: id in sorted <==> WasDelivered(delivered, id)
    ensures Rearranges(rows, LastOrder(delivered), sorted)
    ensures var order := LastOrder(delivered);
            PerformAll(start, Requests(delivered)) == PerformAll(start, OpsAt(rows, sorted))
            <==> forall key :: SomeOvertaken(cfg, log, delivered, key) ==>
                   LeaveTheSame(OpsAt(rows, order), OpsAt(rows, sorted), key, Lookup(start, key))
  {
    LastOrderShowsIff(start, rows, delivered, sorted);
    forall key ensures OutOfOrder(rows, LastOrder(delivered), key) <==> SomeOvertaken(cfg, log, delivered, key) {
      OvertakenIff(cfg, rows, log, delivered, key);
    }
  }

  /** One relay that crashes, loses statements and retries as it may: Elasticsearch ends up as if the rows
      carried out had been delivered once each, in id order, if and only if for each document with an
      overtaken row, its rows leave the same of it in the order of their last deliveries. */
  lemma InterruptionsShowIff(cfg: Config, s: State, me: nat, start: Docs, sorted: seq<int>)
    requires cfg.Valid() && LoneReachable(cfg, s, me)
    requires Ascending(sorted) && forall id :: id in sorted <==> WasDelivered(s.delivered, id)
    ensures Rearranges(Asks(s.table), LastOrder(s.delivered), sorted)
    ensures forall i :: 0 <= i < |s.delivered| ==> s.delivered[i].at <= |s.log|
    ensures var rows, order := Asks(s.table), LastOrder(s.delivered);
            PerformAll(start, Requests(s.delivered)) == PerformAll(start, OpsAt(rows, sorted))
            <==> forall key :: SomeOvertaken(cfg, s.log, s.delivered, key) ==>
                   LeaveTheSame(OpsAt(rows, order), OpsAt(rows, sorted), key, Lookup(start, key))
  {
    SendsLeaveBehind(cfg, s, me);
    OvertakingShowsIff(cfg, Asks(s.table), s.log, s.delivered, start, sorted);
  }
}
