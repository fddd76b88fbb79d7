/** The operator's statements of ops.go that change the outbox: CleanupOutbox and ReplayOutbox. */
module Ops {
  import opened Wrappers
  import opened Documents
  import opened Policy
  import opened Outbox
  import opened Protocol
  import opened ProtocolInvariant
  import opened Store

  /** A WHERE clause on the outbox; each condition is absent or must hold. */
  datatype Filter = Filter(ids: Option<set<int>>, statuses: Option<set<Status>>, createdBy: Option<int>) {
    predicate Matches(id: int, row: Row) {
      && (ids.Some? ==> id in ids.value)
      && (statuses.Some? ==> row.status in statuses.value)
      && (createdBy.Some? ==> row.createdAt <= createdBy.value)
    }
  }

  /** Ids of the matching rows in [from, until), ascending. */
  function Matching(t: Table, filter: Filter, from: int, until: int): seq<int>
    decreases until - from
  {
    if from >= until then []
    else (if from in t && filter.Matches(from, t[from]) then [from] else []) + Matching(t, filter, from + 1, until)
  }

  function Limited(ids: seq<int>, limit: int): seq<int> {
    if limit <= 0 || |ids| <= limit then ids else ids[..limit]
  }

  lemma {:induction false} MatchingIsExact(t: Table, filter: Filter, from: int, until: int)
    ensures var found := Matching(t, filter, from, until);
            && (forall i, j :: 0 <= i < j < |found| ==> found[i] < found[j])
            && (forall id :: id in found <==> from <= id < until && id in t && filter.Matches(id, t[id]))
    decreases until - from
  {
    if from < until {
      MatchingIsExact(t, filter, from + 1, until);
      var rest := Matching(t, filter, from + 1, until);
      assert forall i :: 0 <= i < |rest| ==> rest[i] in rest;
    }
  }

  /** The first of the wanted rows in id order: all of them, or as many as a positive limit allows. */
  ghost predicate FirstOf(ids: seq<int>, limit: int, wanted: set<int>) {
    && (forall i, j :: 0 <= i < j < |ids| ==> ids[i] < ids[j])
    && (forall id :: id in ids ==> id in wanted)
    && (limit > 0 ==> |ids| <= limit)
    && (forall id :: id in wanted && id !in ids ==> limit > 0 && |ids| == limit && forall k :: k in ids ==> k < id)
  }

  function Chosen(t: Table, filter: Filter): set<int> {
    set id | id in t && filter.Matches(id, t[id])
  }

  lemma LimitedAreFirst(t: Table, filter: Filter, until: int, limit: int)
    requires Covers(t, until)
    ensures FirstOf(Limited(Matching(t, filter, 1, until), limit), limit, Chosen(t, filter))
  {
    var found := Matching(t, filter, 1, until);
    MatchingIsExact(t, filter, 1, until);
    var ids := Limited(found, limit);
    assert forall i :: 0 <= i < |ids| ==> ids[i] == found[i] && found[i] in found;
    forall id | id in Chosen(t, filter) && id !in ids
      ensures limit > 0 && |ids| == limit && forall k :: k in ids ==> k < id
    {
      var j :| 0 <= j < |found| && found[j] == id;
      assert j >= |ids|;
    }
  }

  function RemoveAll(t: Table, ids: seq<int>): Table {
    map id | id in t && id !in ids :: t[id]
  }

  function ResetAll(t: Table, ids: seq<int>): Table {
    map id | id in t :: if id in ids then Reset(t[id]) else t[id]
  }

  /** One run of a statement: the ids picked, and where in the run and in which state they were picked and
      acted upon. With a limit the ids come from a query of their own, and the statement does not repeat
      the filter. */
  datatype Picked = Picked(ids: seq<int>, from: nat, selected: State, to: nat, acted: State)

  class Operator {
    const store: OutboxStore

    constructor (store: OutboxStore)
      ensures this.store == store
    {
      this.store := store;
    }

    method Pick(filter: Filter, limit: int) returns (r: Result<seq<int>>, ghost run: Picked)
      requires store.Valid()
      modifies store
      ensures store.Valid() && PhaseOf(store.st, store.me) == old(PhaseOf(store.st, store.me))
      ensures old(store.run) <= store.run
      ensures run.to == |store.run| && run.acted == store.st && old(store.clock) <= run.selected.clock <= store.clock
      ensures |old(store.run)| <= run.from && Picks(store.cfg, store.epoch, store.run, run)
      ensures limit <= 0 || store.solo ==> run.acted.table == run.selected.table
      ensures store.solo ==> store.rows == old(store.rows) && store.nextId == old(store.nextId)
      ensures r.Success? ==>
                && run.ids == r.value
                && FirstOf(run.ids, limit, Chosen(run.selected.table, filter))
      ensures store.steady ==> r.Success?
      ensures r.Success? ==> forall k :: 0 <= k < |r.value| ==> r.value[k] in run.selected.table
    {
      store.Others();
      run := Picked([], |store.run|, store.st, |store.run|, store.st);
      assert store.run[..|store.run|] == store.run;
      var broken: bool := *;
      if broken && !store.steady {
        return Failure("select ids"), run;
      }
      ReachableInv(store.cfg, store.st);
      var ids := Limited(Matching(store.rows, filter, 1, store.nextId), limit);
      assert forall k :: 0 <= k < |ids| ==> ids[k] == Matching(store.rows, filter, 1, store.nextId)[k];
      MatchingIsExact(store.rows, filter, 1, store.nextId);
      LimitedAreFirst(store.rows, filter, store.nextId, limit);
      if limit > 0 {
        ghost var before := store.run;
        store.Others();
        assert store.run[..|before|] == before && store.run[..|store.run|] == store.run;
      }
      r := Success(ids);
      run := run.(ids := ids, to := |store.run|, acted := store.st);
    }

    /** Dead rows unless told otherwise; with `olderThan`, only rows created that long before a clock reading
        of this call. The last clause says which of the rows deleted were open: with a limit, those replayed
        after they were selected and not sent or dead since; without one, none that had finished. */
    method CleanupOutbox(statuses: set<Status>, olderThan: int, limit: int)
      returns (r: Result<nat>, ghost run: Picked, ghost readAt: int)
      requires store.Valid()
      modifies store
      ensures store.Valid() && PhaseOf(store.st, store.me) == old(PhaseOf(store.st, store.me))
      ensures old(store.run) <= store.run
      ensures old(store.clock) <= readAt <= run.selected.clock <= store.clock
      ensures |old(store.run)| <= run.from && Picks(store.cfg, store.epoch, store.run, run)
      ensures r.Success? ==>
                var t := run.selected.table;
                var wanted := if statuses == {} then {Dead} else statuses;
                FirstOf(run.ids, limit, set id | id in t && t[id].status in wanted
                                                 && (olderThan > 0 ==> t[id].createdAt <= readAt - olderThan))
      ensures r.Success? ==>
                && store.rows == run.acted.table - (set id | id in run.ids)
                && r.value == |run.acted.table| - |store.rows|
      ensures store.steady ==> r.Success?
      ensures limit <= 0 || store.solo ==> run.acted.table == run.selected.table
      ensures store.solo ==> run.selected.table == old(store.rows)
      ensures r.Success? ==> forall id ::
                && id in run.ids && id in run.selected.table && run.selected.table[id].Terminal()
                && id in run.acted.table ==>
                && id !in store.rows
                && (run.acted.table[id].Terminal() <==> !ReopenedSince(run.acted.log, |run.selected.log|, id))
    {
      store.Others();
      var now := store.Now();
      readAt := now;
      var filter := Filter(None, Some(if statuses == {} then {Dead} else statuses),
                           if olderThan > 0 then Some(now - olderThan) else None);
      var picked;
      picked, run := Pick(filter, limit);
      if picked.Failure? {
        return Failure(picked.error), run, readAt;
      }
      ChosenForCleanup(run.selected.table, filter.statuses.value, olderThan, now);
      DroppedWhen(store.cfg, store.epoch, store.run, run);
      ghost var before := store.run;
      var removed := RemoveEach(picked.value);
      PicksStill(store.cfg, store.epoch, before, store.run, run);
      r := Success(removed);
    }

    /** DELETE ... WHERE id IN ids */
    method RemoveEach(ids: seq<int>) returns (removed: nat)
      requires store.Valid()
      modifies store
      ensures store.Valid() && PhaseOf(store.st, store.me) == old(PhaseOf(store.st, store.me))
      ensures old(store.run) <= store.run
      ensures store.rows == old(store.rows) - (set id | id in ids) && store.clock == old(store.clock)
      ensures removed == |old(store.rows)| - |store.rows|
    {
      ghost var before := store.rows;
      removed := 0;
      for i := 0 to |ids|
        invariant store.Valid() && PhaseOf(store.st, store.me) == old(PhaseOf(store.st, store.me))
        invariant old(store.run) <= store.run
        invariant store.rows == RemoveAll(before, ids[..i]) && removed == |before| - |store.rows|
        invariant store.clock == old(store.clock)
      {
        RemoveOneMore(before, ids, i);
        if ids[i] in store.rows {
          store.Take(Remove(ids[i]));
          store.rows := store.rows - {ids[i]};
          removed := removed + 1;
        }
      }
      assert ids[..|ids|] == ids;
      assert store.rows == before - (set id | id in ids);
    }

    /** The rows named by id, in whatever status, or else every dead row. */
    method ReplayOutbox(ids: set<int>, allDead: bool, limit: int) returns (r: Result<nat>, ghost run: Picked)
      requires store.Valid()
      modifies store
      ensures store.Valid() && PhaseOf(store.st, store.me) == old(PhaseOf(store.st, store.me))
      ensures old(store.run) <= store.run
      ensures ids == {} && !allDead ==> r.Failure? && store.rows == old(store.rows)
      ensures ids != {} || allDead ==>
                |old(store.run)| <= run.from && Picks(store.cfg, store.epoch, store.run, run)
      ensures r.Success? ==>
                var t := run.selected.table;
                FirstOf(run.ids, limit, set id | id in t && if ids != {} then id in ids else t[id].status.Dead?)
      ensures r.Success? ==>
                && store.rows.Keys == run.acted.table.Keys
                && (forall id :: id in store.rows && id !in run.ids ==> store.rows[id] == run.acted.table[id])
                && (forall id :: id in store.rows && id in run.ids ==>
                      store.rows[id] ==
                      run.acted.table[id].(status := Pending, attempts := 0, nextRetryAt := None, lastError := "",
                                           leasedUntil := None, sentAt := None))
                && r.value <= |run.ids|
      ensures store.steady && (ids != {} || allDead) ==> r.Success?
      ensures r.Success? && (limit <= 0 || store.solo) ==> r.value == |run.ids|
      ensures limit <= 0 || store.solo ==> run.acted.table == run.selected.table
      ensures store.solo && r.Success? ==> run.selected.table == old(store.rows)
    {
      var filter := if ids != {} then Filter(Some(ids), None, None) else Filter(None, Some({Dead}), None);
      run := Picked([], |store.run|, store.st, |store.run|, store.st);
      if ids == {} && !allDead {
        return Failure("no ids provided and all_dead disabled"), run;
      }
      var picked;
      picked, run := Pick(filter, limit);
      if picked.Failure? {
        return Failure(picked.error), run;
      }
      ChosenForReplay(run.selected.table, ids);
      ghost var before := store.run;
      var reset := ResetEach(picked.value);
      PicksStill(store.cfg, store.epoch, before, store.run, run);
      r := Success(reset);
    }

    /** UPDATE ... WHERE id IN ids */
    method ResetEach(ids: seq<int>) returns (reset: nat)
      requires store.Valid()
      modifies store
      ensures store.Valid() && PhaseOf(store.st, store.me) == old(PhaseOf(store.st, store.me))
      ensures old(store.run) <= store.run
      ensures store.rows == ResetAll(old(store.rows), ids) && reset <= |ids|
      ensures (forall k :: 0 <= k < |ids| ==> ids[k] in old(store.rows)) ==> reset == |ids|
    {
      ghost var before := store.rows;
      reset := 0;
      for i := 0 to |ids|
        invariant store.Valid() && PhaseOf(store.st, store.me) == old(PhaseOf(store.st, store.me))
        invariant old(store.run) <= store.run
        invariant store.rows == ResetAll(before, ids[..i]) && reset <= i
        invariant (forall k :: 0 <= k < |ids| ==> ids[k] in before) ==> reset == i
      {
        ResetOneMore(before, ids, i);
        if ids[i] in store.rows {
          store.Take(Replay(ids[i]));
          store.rows := store.rows[ids[i] := Reset(store.rows[ids[i]])];
          reset := reset + 1;
        }
      }
      assert ids[..|ids|] == ids;
    }
  }

  ghost predicate Covers(t: Table, until: int) {
    forall id :: id in t ==> 1 <= id < until
  }

  /** The two positions are in the run, and the two states are those it was in there. */
  ghost predicate Picks(cfg: Config, epoch: int, steps: seq<Step>, run: Picked)
    requires cfg.Normalized()
  {
    && run.from <= run.to <= |steps|
    && Led(cfg, epoch, steps[..run.from], run.selected) && Led(cfg, epoch, steps[..run.to], run.acted)
  }

  lemma PicksStill(cfg: Config, epoch: int, steps: seq<Step>, steps': seq<Step>, run: Picked)
    requires cfg.Normalized() && Picks(cfg, epoch, steps, run) && steps <= steps'
    ensures Picks(cfg, epoch, steps', run)
  {
    assert steps'[..run.from] == steps[..run.from] && steps'[..run.to] == steps[..run.to];
  }

  lemma ChosenForCleanup(t: Table, statuses: set<Status>, olderThan: int, now: int)
    ensures Chosen(t, Filter(None, Some(statuses), if olderThan > 0 then Some(now - olderThan) else None)) ==
            set id | id in t && t[id].status in statuses && (olderThan > 0 ==> t[id].createdAt <= now - olderThan)
  {
  }

  lemma ChosenForReplay(t: Table, ids: set<int>)
    ensures Chosen(t, if ids != {} then Filter(Some(ids), None, None) else Filter(None, Some({Dead}), None)) ==
            set id | id in t && if ids != {} then id in ids else t[id].status.Dead?
  {
  }

  lemma RemoveOneMore(t: Table, ids: seq<int>, i: nat)
    requires i < |ids|
    ensures var before := RemoveAll(t, ids[..i]);
            && RemoveAll(t, ids[..i + 1]) == before - {ids[i]}
            && (ids[i] in before ==> |before - {ids[i]}| == |before| - 1)
            && (ids[i] !in before ==> before - {ids[i]} == before)
  {
    var before := RemoveAll(t, ids[..i]);
    assert ids[..i + 1] == ids[..i] + [ids[i]];
    if ids[i] in before {
      assert (before - {ids[i]}).Keys == before.Keys - {ids[i]};
    }
  }

  lemma ResetOneMore(t: Table, ids: seq<int>, i: nat)
    requires i < |ids|
    ensures var before := ResetAll(t, ids[..i]);
            && before.Keys == t.Keys && (ids[i] in before <==> ids[i] in t)
            && ResetAll(t, ids[..i + 1]) == if ids[i] in before then before[ids[i] := Reset(before[ids[i]])] else before
  {
    var before, after := ResetAll(t, ids[..i]), ResetAll(t, ids[..i + 1]);
    assert ids[..i + 1] == ids[..i] + [ids[i]];
    assert after.Keys == before.Keys == t.Keys;
    forall id | id in t ensures after[id] == if id == ids[i] then Reset(before[id]) else before[id] {
    }
  }

  // --- Between the two statements of a limited cleanup ---

  /** The row was replayed at or after position `from` of the log, and not sent or dead since. */
  ghost predicate ReopenedSince(log: seq<Event>, from: nat, id: int) {
    exists k :: from <= k < |log| && log[k] == Replayed(id)
                && forall m :: k < m < |log| && log[m].id == id ==> !Final(log[m])
  }

  /** Since position `from` the row is open exactly if it was reopened, unless it has been removed. */
  ghost predicate OpenIfReopened(log: seq<Event>, from: nat, id: int) {
    var latest := Latest(log, id);
    && latest.Some?
    && (!latest.value.Removed? ==> (Final(latest.value) <==> !ReopenedSince(log, from, id)))
  }

  lemma {:induction false} OpenIffReopened(cfg: Config, log: seq<Event>, from: nat, id: int)
    requires LogJustified(cfg, log) && from <= |log|
    requires Latest(log[..from], id).Some? && Final(Latest(log[..from], id).value)
    ensures OpenIfReopened(log, from, id)
    decreases |log|
  {
    if from == |log| {
      assert log[..from] == log;
    } else {
      var before, e := log[..|log| - 1], log[|log| - 1];
      LogShorter(cfg, log);
      assert before[..from] == log[..from] && log == before + [e];
      OpenIffReopened(cfg, before, from, id);
      JustifiedFollows(cfg, before, e);
      OpenAfter(cfg, before, e, from, id);
    }
  }

  lemma OpenAfter(cfg: Config, before: seq<Event>, e: Event, from: nat, id: int)
    requires from <= |before| && OpenIfReopened(before, from, id) && Follows(cfg, Latest(before, e.id), e)
    ensures OpenIfReopened(before + [e], from, id)
  {
    ReopenedAfter(before, e, from, id);
    LatestAfter(before, e, id);
    assert e.id == id && e.Replayed? ==> e == Replayed(id);
  }

  lemma ReopenedAfter(before: seq<Event>, e: Event, from: nat, id: int)
    requires from <= |before|
    ensures ReopenedSince(before + [e], from, id) <==>
            e == Replayed(id) || (ReopenedSince(before, from, id) && !(e.id == id && Final(e)))
  {
    var log := before + [e];
    if ReopenedSince(before, from, id) && !(e.id == id && Final(e)) {
      var k :| from <= k < |before| && before[k] == Replayed(id)
               && forall m :: k < m < |before| && before[m].id == id ==> !Final(before[m]);
      assert log[k] == Replayed(id);
    }
    if e == Replayed(id) {
      assert log[|before|] == Replayed(id);
    }
    if ReopenedSince(log, from, id) && e != Replayed(id) {
      var k :| from <= k < |log| && log[k] == Replayed(id)
               && forall m :: k < m < |log| && log[m].id == id ==> !Final(log[m]);
      assert before[k] == Replayed(id);
      assert forall m :: k < m < |before| ==> log[m] == before[m];
      assert log[|before|] == e;
    }
  }

  /** A finished row that a cleanup selected and still finds is open when it is deleted if and only if it
      was replayed in between, and not sent or dead since. */
  lemma DroppedIff(cfg: Config, epoch: int, steps: seq<Step>, run: Picked, id: int)
    requires cfg.Normalized() && Picks(cfg, epoch, steps, run)
    requires id in run.selected.table && run.selected.table[id].Terminal() && id in run.acted.table
    ensures run.acted.table[id].Terminal() <==> !ReopenedSince(run.acted.log, |run.selected.log|, id)
  {
    var s, s' := run.selected, run.acted;
    ReachableInv(cfg, s);
    ReachableInv(cfg, s');
    assert steps[..run.to] == steps[..run.from] + steps[run.from..run.to];
    ExecSplit(cfg, InitialState(epoch), steps[..run.from], steps[run.from..run.to]);
    LogExtends(cfg, s, steps[run.from..run.to]);
    OpenRowIff(cfg, s.table[id], s.log, s'.table[id], s'.log, id);
  }

  lemma DroppedWhen(cfg: Config, epoch: int, steps: seq<Step>, run: Picked)
    requires cfg.Normalized() && Picks(cfg, epoch, steps, run)
    ensures forall id ::
              id in run.selected.table && run.selected.table[id].Terminal() && id in run.acted.table ==>
                (run.acted.table[id].Terminal() <==> !ReopenedSince(run.acted.log, |run.selected.log|, id))
  {
    forall id | id in run.selected.table && run.selected.table[id].Terminal() && id in run.acted.table
      ensures run.acted.table[id].Terminal() <==> !ReopenedSince(run.acted.log, |run.selected.log|, id)
    {
      DroppedIff(cfg, epoch, steps, run, id);
    }
  }

  lemma OpenRowIff(cfg: Config, row: Row, log: seq<Event>, row': Row, log': seq<Event>, id: int)
    requires LogJustified(cfg, log') && log <= log' && row.Terminal()
    requires RowMatches(cfg, row, Latest(log, id)) && RowMatches(cfg, row', Latest(log', id))
    ensures row'.Terminal() <==> !ReopenedSince(log', |log|, id)
  {
    assert log'[..|log|] == log;
    OpenIffReopened(cfg, log', |log|, id);
  }

  lemma TerminalStep(cfg: Config, s: State, step: Step, id: int)
    requires cfg.Normalized() && Enabled(cfg, s, step) && step != Replay(id) && step != Remove(id)
    requires id in s.table && id in s.used && s.table[id].Terminal()
    ensures id in Apply(cfg, s, step).table && Apply(cfg, s, step).table[id] == s.table[id]
    ensures LastAbout(Apply(cfg, s, step).log, id) == LastAbout(s.log, id)
  {
    var s' := Apply(cfg, s, step);
    assert s'.log == s.log || (|s'.log| == |s.log| + 1 && s'.log[..|s.log|] == s.log && s'.log[|s.log|].id != id);
  }

  /** A finished row that is not removed is left alone if and only if nobody replays it, whatever the
      relays do; and then it stays as it is. */
  lemma {:induction false} FinishedRowsStay(cfg: Config, s: State, steps: seq<Step>, id: int)
    requires cfg.Normalized() && Inv(cfg, s) && Allowed(cfg, s, steps) && Remove(id) !in steps
    requires id in s.table && s.table[id].Terminal()
    ensures LastAbout(Exec(cfg, s, steps).log, id) == LastAbout(s.log, id) <==> Replay(id) !in steps
    ensures Replay(id) !in steps ==> id in Exec(cfg, s, steps).table && Exec(cfg, s, steps).table[id] == s.table[id]
    decreases |steps|
  {
    if steps != [] {
      var s1 := Apply(cfg, s, steps[0]);
      if steps[0] == Replay(id) {
        LogExtends(cfg, s1, steps[1..]);
        LastAboutGrows(s1.log, Exec(cfg, s, steps).log, id);
      } else {
        TerminalStep(cfg, s, steps[0], id);
        StepKeeps(cfg, s, steps[0]);
        FinishedRowsStay(cfg, s1, steps[1..], id);
      }
    }
  }

  lemma LastAboutGrows(log: seq<Event>, log': seq<Event>, id: int)
    requires log <= log'
    ensures LastAbout(log, id) <= LastAbout(log', id)
  {
    var i := LastAbout(log, id);
    if i >= 0 {
      assert log'[i] == log[i];
    }
  }

  /** And that is how it goes wrong: a limited cleanup of dead rows whose selection reaches `id` deletes the
      row although a replay has made it claimable, while the same statement without a limit spares it. */
  lemma LimitDropsReplayedRow(cfg: Config, s: State, statuses: set<Status>, limit: int, id: int)
    requires cfg.Normalized() && Reachable(cfg, s) && id in s.table && Pending !in statuses && limit > 0
    requires var filter := Filter(None, Some(statuses), None);
             id in Limited(Matching(s.table, filter, 1, s.nextId), limit)
    ensures var filter, s' := Filter(None, Some(statuses), None), Apply(cfg, s, Replay(id));
            && Reachable(cfg, s') && Claimable(s'.table[id], s.clock)
            && id !in RemoveAll(s'.table, Limited(Matching(s.table, filter, 1, s.nextId), limit))
            && id in RemoveAll(s'.table, Matching(s'.table, filter, 1, s'.nextId))
  {
    var filter, s' := Filter(None, Some(statuses), None), Apply(cfg, s, Replay(id));
    MatchingIsExact(s.table, filter, 1, s.nextId);
    MatchingIsExact(s'.table, filter, 1, s'.nextId);
    assert id in Matching(s.table, filter, 1, s.nextId);
    Reach(cfg, s, Replay(id));
  }
}
