/** Whatever the relays do, how many there are and whatever operators replay or remove: each row counts
    once, where it was carried out last, and that decides when the documents show it. */
module Deliveries {
  import opened Wrappers
  import opened Documents
  import opened Fields
  import opened Policy
  import opened Outbox
  import opened Protocol
  import opened Redelivery
  import opened Reordering

  function Requests(delivered: seq<Delivery>): (ops: seq<Operation>)
    ensures |ops| == |delivered|
    ensures forall i :: 0 <= i < |delivered| ==> ops[i] == delivered[i].op
  {
    seq(|delivered|, i requires 0 <= i < |delivered| => delivered[i].op)
  }

  ghost predicate WasDelivered(delivered: seq<Delivery>, id: int) {
    exists i :: 0 <= i < |delivered| && delivered[i].id == id
  }

  /** The rows that were carried out, each once, in the order of their last delivery. */
  function LastOrder(delivered: seq<Delivery>): (order: seq<int>)
    ensures forall i, j :: 0 <= i < j < |order| ==> order[i] != order[j]
    ensures forall id :: id in order <==> WasDelivered(delivered, id)
  {
    if delivered == [] then []
    else
      var later := LastOrder(delivered[1..]);
      assert forall id :: WasDelivered(delivered, id) <==>
                          id == delivered[0].id || WasDelivered(delivered[1..], id) by {
        DeliveredFirst(delivered);
      }
      if delivered[0].id in later then later else [delivered[0].id] + later
  }

  lemma DeliveredFirst(delivered: seq<Delivery>)
    requires delivered != []
    ensures forall id :: WasDelivered(delivered, id) <==> id == delivered[0].id || WasDelivered(delivered[1..], id)
  {
    forall id | WasDelivered(delivered[1..], id) ensures WasDelivered(delivered, id) {
      var i :| 0 <= i < |delivered[1..]| && delivered[1..][i].id == id;
      assert delivered[i + 1].id == id;
    }
    forall id | WasDelivered(delivered, id) && id != delivered[0].id ensures WasDelivered(delivered[1..], id) {
      var i :| 0 <= i < |delivered| && delivered[i].id == id;
      assert delivered[1..][i - 1].id == id;
    }
  }

  ghost predicate IsLast(delivered: seq<Delivery>, i: nat)
    requires i < |delivered|
  {
    forall k :: i < k < |delivered| ==> delivered[k].id != delivered[i].id
  }

  /** These are the places of the last deliveries. */
  ghost predicate LastPlaces(delivered: seq<Delivery>, order: seq<int>, at: seq<nat>) {
    && |at| == |order|
    && (forall x :: 0 <= x < |at| ==>
          at[x] < |delivered| && delivered[at[x]].id == order[x] && IsLast(delivered, at[x]))
    && (forall x, y :: 0 <= x < y < |at| ==> at[x] < at[y])
  }

  lemma PlacesShift(delivered: seq<Delivery>, order: seq<int>, at: seq<nat>) returns (shifted: seq<nat>)
    requires delivered != [] && LastPlaces(delivered[1..], order, at)
    ensures LastPlaces(delivered, order, shifted) && forall x :: 0 <= x < |shifted| ==> shifted[x] > 0
  {
    shifted := seq(|at|, x requires 0 <= x < |at| => at[x] + 1);
    forall x | 0 <= x < |at| ensures delivered[shifted[x]].id == order[x] && IsLast(delivered, shifted[x]) {
      assert IsLast(delivered[1..], at[x]);
      assert forall k :: shifted[x] <= k < |delivered| ==> delivered[k] == delivered[1..][k - 1];
    }
  }

  lemma PlacesFirst(delivered: seq<Delivery>, order: seq<int>, at: seq<nat>)
    requires LastPlaces(delivered, order, at) && delivered != [] && !WasDelivered(delivered[1..], delivered[0].id)
    requires forall x :: 0 <= x < |at| ==> at[x] > 0
    ensures LastPlaces(delivered, [delivered[0].id] + order, [0] + at)
  {
    forall k | 0 < k < |delivered| ensures delivered[k].id != delivered[0].id {
      assert delivered[1..][k - 1] == delivered[k];
    }
  }

  lemma {:induction false} LastPositions(delivered: seq<Delivery>) returns (at: seq<nat>)
    ensures LastPlaces(delivered, LastOrder(delivered), at)
    decreases |delivered|
  {
    at := [];
    if delivered != [] {
      var later := LastOrder(delivered[1..]);
      at := LastPositions(delivered[1..]);
      at := PlacesShift(delivered, later, at);
      if delivered[0].id !in later {
        PlacesFirst(delivered, later, at);
        at := [0] + at;
      }
    }
  }

  /** Every delivery carries what its row asks for. */
  ghost predicate CarriesOut(rows: Contents, delivered: seq<Delivery>) {
    forall i :: 0 <= i < |delivered| ==> delivered[i].id in rows && delivered[i].op == rows[delivered[i].id]
  }

  lemma LastOrderWithin(rows: Contents, delivered: seq<Delivery>)
    requires CarriesOut(rows, delivered)
    ensures forall i :: 0 <= i < |LastOrder(delivered)| ==> LastOrder(delivered)[i] in rows
  {
    forall i | 0 <= i < |LastOrder(delivered)| ensures LastOrder(delivered)[i] in rows {
      assert LastOrder(delivered)[i] in LastOrder(delivered);
    }
  }

  /** Deliveries in any order and number leave the documents of delivering each row once, in the order of
      the last deliveries. */
  lemma {:induction false} LastDeliveriesDecide(docs: Docs, rows: Contents, delivered: seq<Delivery>)
    requires CarriesOut(rows, delivered)
    ensures forall i :: 0 <= i < |LastOrder(delivered)| ==> LastOrder(delivered)[i] in rows
    ensures PerformAll(docs, Requests(delivered)) == PerformAll(docs, OpsAt(rows, LastOrder(delivered)))
    decreases |delivered|
  {
    LastOrderWithin(rows, delivered);
    if delivered != [] {
      var d, rest := delivered[0], delivered[1..];
      assert Requests(delivered) == [d.op] + Requests(rest);
      LastOrderWithin(rows, rest);
      if d.id in LastOrder(rest) {
        var i :| 0 <= i < |rest| && rest[i].id == d.id;
        assert Requests(rest)[i] == d.op;
        CompletePassDecides(docs, [d.op], Requests(rest));
        LastDeliveriesDecide(docs, rows, rest);
      } else {
        LastDeliveriesDecide(Perform(docs, d.op), rows, rest);
        assert OpsAt(rows, LastOrder(delivered)) == [d.op] + OpsAt(rows, LastOrder(rest));
        assert ([d.op] + Requests(rest))[1..] == Requests(rest);
        assert ([d.op] + OpsAt(rows, LastOrder(rest)))[1..] == OpsAt(rows, LastOrder(rest));
      }
    }
  }

  // --- What rows ask for never changes, even after they are removed ---

  /** The rows a run has inserted. */
  function Inserted(steps: seq<Step>): Contents {
    if steps == [] then map[]
    else
      var before, last := Inserted(steps[..|steps| - 1]), steps[|steps| - 1];
      if last.Insert? then before[last.id := last.op] else before
  }

  ghost predicate Copied(rows: Contents, events: seq<OutboxEvent>) {
    forall i :: 0 <= i < |events| ==> events[i].id in rows && events[i].row.op == rows[events[i].id]
  }

  ghost predicate InHand(rows: Contents, p: Phase) {
    Copied(rows, p.Held()) && (p.Claiming? ==> Copied(rows, p.candidates))
  }

  /** The table, the relays' copies and the requests carried out all say what was inserted. */
  ghost predicate Faithful(rows: Contents, s: State) {
    && rows.Keys == s.used
    && (forall id :: id in s.table ==> id in rows && s.table[id].op == rows[id])
    && (forall relay :: InHand(rows, PhaseOf(s, relay)))
    && CarriesOut(rows, s.delivered)
  }

  lemma FaithfulAfter(cfg: Config, s: State, step: Step, rows: Contents, rows': Contents)
    requires cfg.Normalized() && Enabled(cfg, s, step) && Faithful(rows, s)
    requires rows' == if step.Insert? then rows[step.id := step.op] else rows
    ensures Faithful(rows', Apply(cfg, s, step))
  {
    var s' := Apply(cfg, s, step);
    forall relay ensures InHand(rows', PhaseOf(s', relay)) {
      assert InHand(rows, PhaseOf(s, relay));
      HandAfter(cfg, s, step, rows, relay);
    }
    DeliveredAfter(cfg, s, step, rows);
  }

  lemma HandAfter(cfg: Config, s: State, step: Step, rows: Contents, relay: nat)
    requires cfg.Normalized() && Enabled(cfg, s, step) && InHand(rows, PhaseOf(s, relay))
    requires forall id :: id in s.table ==> id in rows && s.table[id].op == rows[id]
    ensures InHand(rows, PhaseOf(Apply(cfg, s, step), relay))
  {
    var p := PhaseOf(s, relay);
    if step == Query(relay) {
      var found := Candidates(s.table, p.now, 1, s.nextId, 4 * cfg.batchSize);
      CandidatesAreClaimable(s.table, p.now, 1, s.nextId, 4 * cfg.batchSize);
      assert forall i :: 0 <= i < |found| ==> found[i] in found;
    }
  }

  lemma DeliveredAfter(cfg: Config, s: State, step: Step, rows: Contents)
    requires cfg.Normalized() && Enabled(cfg, s, step) && CarriesOut(rows, s.delivered)
    requires forall relay :: InHand(rows, PhaseOf(s, relay))
    ensures CarriesOut(rows, Apply(cfg, s, step).delivered)
  {
    if step.Send? {
      assert InHand(rows, PhaseOf(s, step.relay));
      assert PhaseOf(s, step.relay).Held()[0] == PhaseOf(s, step.relay).batch[0];
    }
  }

  lemma {:induction false} RunsAreFaithful(cfg: Config, epoch: int, steps: seq<Step>, s: State)
    requires cfg.Normalized() && Led(cfg, epoch, steps, s)
    ensures Faithful(Inserted(steps), s)
    decreases |steps|
  {
    if steps != [] {
      var n := |steps| - 1;
      assert steps == steps[..n] + [steps[n]];
      ExecSplit(cfg, InitialState(epoch), steps[..n], [steps[n]]);
      var before := Exec(cfg, InitialState(epoch), steps[..n]);
      RunsAreFaithful(cfg, epoch, steps[..n], before);
      assert [steps[n]][1..] == [];
      FaithfulAfter(cfg, before, steps[n], Inserted(steps[..n]), Inserted(steps));
    }
  }

  // --- When the documents show it ---

  lemma LastOrderShowsIff(start: Docs, rows: Contents, delivered: seq<Delivery>, sorted: seq<int>)
    requires CarriesOut(rows, delivered)
    requires Ascending(sorted) && forall id :: id in sorted <==> WasDelivered(delivered, id)
    ensures Rearranges(rows, LastOrder(delivered), sorted)
    ensures var order := LastOrder(delivered);
            PerformAll(start, Requests(delivered)) == PerformAll(start, OpsAt(rows, sorted))
            <==> forall key :: OutOfOrder(rows, order, key) ==>
                   LeaveTheSame(OpsAt(rows, order), OpsAt(rows, sorted), key, Lookup(start, key))
  {
    LastDeliveriesDecide(start, rows, delivered);
    forall i | 0 <= i < |sorted| ensures sorted[i] in rows {
      assert sorted[i] in sorted;
    }
    ReorderingShowsIff(start, rows, LastOrder(delivered), sorted);
  }

  /** In every run of any number of relays, with any crashes, retries, replays and removals: Elasticsearch
      ends up as if the rows carried out had been delivered once each, in id order, if and only if for each
      document with rows last delivered out of order, those rows leave the same of it in both orders. */
  lemma DeliveriesShowIff(cfg: Config, epoch: int, steps: seq<Step>, s: State, start: Docs, sorted: seq<int>)
    requires cfg.Normalized() && Led(cfg, epoch, steps, s)
    requires Ascending(sorted) && forall id :: id in sorted <==> WasDelivered(s.delivered, id)
    ensures var rows, order := Inserted(steps), LastOrder(s.delivered);
            && Rearranges(rows, order, sorted)
            && (PerformAll(start, Requests(s.delivered)) == PerformAll(start, OpsAt(rows, sorted))
                <==> forall key :: OutOfOrder(rows, order, key) ==>
                       LeaveTheSame(OpsAt(rows, order), OpsAt(rows, sorted), key, Lookup(start, key)))
  {
    RunsAreFaithful(cfg, epoch, steps, s);
    LastOrderShowsIff(start, Inserted(steps), s.delivered, sorted);
  }
}
