/** From business transactions to search: what committed statements leave in the outbox, drained in
    order, gives the documents a rebuild would. */
module EndToEnd {
  import opened Wrappers
  import opened Documents
  import opened Policy
  import opened Outbox
  import opened Protocol
  import ProtocolInvariant
  import opened Models
  import opened Callbacks
  import opened Scan
  import opened Agreement
  import opened Transactions
  import Relay

  // --- A commit as the protocol sees it ---

  /** Committing a transaction is a run of the protocol's insert steps: no relay is disturbed. */
  lemma {:induction false} CommitIsInserts(cfg: Config, s: State, t': Table, next': nat, events: seq<WriteEvent>,
                                           ids: seq<int>)
    returns (s': State)
    requires cfg.Normalized() && Reachable(cfg, s) && Gained(s.table, s.nextId, t', next', events, ids)
    requires forall i :: 0 <= i < |ids| ==> t'[ids[i]].createdAt == s.clock
    ensures Reachable(cfg, s') && s'.table == t' && s'.nextId <= next'
    ensures s'.relays == s.relays && s'.log == s.log && s'.clock == s.clock && s'.issued == s.issued
    decreases |events|
  {
    s' := s;
    if events == [] {
      GainedNothing(s.table, s.nextId, t', next', ids);
    } else {
      ProtocolInvariant.ReachableInv(cfg, s);
      var step := Step.Insert(ids[0], events[0].tableName, events[0].op);
      Reach(cfg, s, step);
      GainedRest(s.table, s.nextId, t', next', events, ids, s.clock);
      s' := CommitIsInserts(cfg, Apply(cfg, s, step), t', next', events[1..], ids[1..]);
    }
  }

  lemma GainedRest(t: Table, next: nat, t': Table, next': nat, events: seq<WriteEvent>, ids: seq<int>, now: int)
    requires Gained(t, next, t', next', events, ids) && events != [] && t'[ids[0]].createdAt == now
    ensures Gained(t[ids[0] := NewRow(events[0].tableName, events[0].op, now)], ids[0] + 1, t', next',
                   events[1..], ids[1..])
  {
    assert ids == [ids[0]] + ids[1..];
    assert IsNew(t'[ids[0]], events[0]);
  }

  // --- Statements as changes ---

  predicate About(statement: Statement, model: Instance, change: Change) {
    match statement
    case Create => change == Created(model.pk, model.columns)
    case Update(changed) => change == Updated(model.pk, changed, model.columns)
    case Remove(unscoped, deletedAt) =>
      change.Deleted? && change.pk == model.pk && change.unscoped == unscoped && change.deletedAt == deletedAt
  }

  /** An auto-synced statement changed exactly the rows of its models, in order. */
  ghost predicate Does(entry: ModelEntry, work: Work, rows: Rows, changes: seq<Change>) {
    && work.entry == entry && entry.autoSync
    && Resolve(work.candidates).Some?
    && var models := Resolve(work.candidates).value;
       && |changes| == |models|
       && (forall i :: 0 <= i < |models| ==> About(work.statement, models[i], changes[i]))
       && work.result == ExecuteAll(entry, rows, changes)
  }

  function Flatten(changes: seq<seq<Change>>): seq<Change> {
    if changes == [] then [] else Flatten(changes[..|changes| - 1]) + changes[|changes| - 1]
  }

  function RowsAfter(rows: Rows, work: seq<Work>): Rows {
    if work == [] then rows else work[|work| - 1].result
  }

  ghost predicate AllDo(entry: ModelEntry, rows: Rows, work: seq<Work>, changes: seq<seq<Change>>)
    decreases |work|
  {
    && |work| == |changes|
    && (work != [] ==>
          var n := |work| - 1;
          AllDo(entry, rows, work[..n], changes[..n]) && Does(entry, work[n], RowsAfter(rows, work[..n]), changes[n]))
  }

  lemma {:induction false} EventsAppend(entry: ModelEntry, a: seq<Change>, b: seq<Change>)
    ensures EventsOf(entry, a + b) == EventsOf(entry, a) + EventsOf(entry, b)
    decreases |a|
  {
    if a == [] {
      assert a + b == b;
    } else {
      assert (a + b)[1..] == a[1..] + b;
      EventsAppend(entry, a[1..], b);
    }
  }

  lemma {:induction false} ExecuteAppend(entry: ModelEntry, rows: Rows, a: seq<Change>, b: seq<Change>)
    ensures ExecuteAll(entry, rows, a + b) == ExecuteAll(entry, ExecuteAll(entry, rows, a), b)
    decreases |a|
  {
    if a == [] {
      assert a + b == b;
    } else {
      assert (a + b)[1..] == a[1..] + b;
      ExecuteAppend(entry, Execute(entry, rows, a[0]), a[1..], b);
    }
  }

  lemma {:induction false} StatementEvents(entry: ModelEntry, statement: Statement, models: seq<Instance>,
                                           changes: seq<Change>)
    requires |changes| == |models| && forall i :: 0 <= i < |models| ==> About(statement, models[i], changes[i])
    ensures EventsOf(entry, changes) == EventsFor(entry, statement, models)
    decreases |models|
  {
    if models != [] {
      var n := |models| - 1;
      StatementEvents(entry, statement, models[..n], changes[..n]);
      EventsAppend(entry, changes[..n], [changes[n]]);
      assert changes == changes[..n] + [changes[n]];
      assert [changes[n]][1..] == [];
    }
  }

  lemma OwedForStatement(entry: ModelEntry, work: Work, rows: Rows, changes: seq<Change>)
    requires Does(entry, work, rows, changes)
    ensures work.Owed() == Addressed(entry.tableName, EventsOf(entry, changes))
    ensures work.result == ExecuteAll(entry, rows, changes)
  {
    StatementEvents(entry, work.statement, Resolve(work.candidates).value, changes);
  }

  lemma AddressedAppend(tableName: string, a: seq<Operation>, b: seq<Operation>)
    ensures Addressed(tableName, a + b) == Addressed(tableName, a) + Addressed(tableName, b)
  {
  }

  /** The outbox is owed the history's events, and the table is what the history leaves. */
  lemma {:induction false} WorkIsHistory(entry: ModelEntry, rows: Rows, work: seq<Work>, changes: seq<seq<Change>>)
    requires AllDo(entry, rows, work, changes)
    ensures AllOwed(work) == Addressed(entry.tableName, EventsOf(entry, Flatten(changes)))
    ensures RowsAfter(rows, work) == ExecuteAll(entry, rows, Flatten(changes))
    decreases |work|
  {
    if work != [] {
      var n := |work| - 1;
      var earlier, last := Flatten(changes[..n]), changes[n];
      WorkIsHistory(entry, rows, work[..n], changes[..n]);
      OwedForStatement(entry, work[n], RowsAfter(rows, work[..n]), last);
      EventsAppend(entry, earlier, last);
      AddressedAppend(entry.tableName, EventsOf(entry, earlier), EventsOf(entry, last));
      ExecuteAppend(entry, rows, earlier, last);
    }
  }

  // --- One model among several ---

  /** The statements on this model's table. */
  function Of(entry: ModelEntry, work: seq<Work>): seq<Work> {
    if work == [] then []
    else
      var before, last := Of(entry, work[..|work| - 1]), work[|work| - 1];
      if last.entry.tableName == entry.tableName then before + [last] else before
  }

  /** Other models have tables and aliases of their own. */
  ghost predicate Apart(entry: ModelEntry, work: seq<Work>) {
    forall i :: 0 <= i < |work| ==>
      work[i].entry == entry
      || (work[i].entry.tableName != entry.tableName && work[i].entry.indexName != entry.indexName)
  }

  function TableOf(entry: ModelEntry, tables: Tables): Rows {
    if entry.tableName in tables then tables[entry.tableName] else map[]
  }

  /** A model's table depends on the statements on it only. */
  lemma {:induction false} TableOfModel(entry: ModelEntry, tables: Tables, work: seq<Work>)
    ensures TableOf(entry, TablesAfter(tables, work)) == RowsAfter(TableOf(entry, tables), Of(entry, work))
    decreases |work|
  {
    if work != [] {
      TableOfModel(entry, tables, work[..|work| - 1]);
    }
  }

  function Operations(events: seq<WriteEvent>): (ops: seq<Operation>)
    ensures |ops| == |events|
    ensures forall i :: 0 <= i < |ops| ==> ops[i] == events[i].op
  {
    seq(|events|, i requires 0 <= i < |events| => events[i].op)
  }

  lemma OperationsAppend(a: seq<WriteEvent>, b: seq<WriteEvent>)
    ensures Operations(a + b) == Operations(a) + Operations(b)
  {
  }

  lemma {:induction false} AllOnAlias(ops: seq<Operation>, alias: string)
    requires forall i :: 0 <= i < |ops| ==> ops[i].key.alias == alias
    ensures OnAlias(ops, alias) == ops
    ensures forall other :: other != alias ==> OnAlias(ops, other) == []
    decreases |ops|
  {
    if ops != [] {
      AllOnAlias(ops[1..], alias);
    }
  }

  lemma OwedOnAlias(work: Work)
    ensures forall i :: 0 <= i < |work.Owed()| ==> work.Owed()[i].op.key.alias == work.entry.indexName
  {
    if work.entry.autoSync && Resolve(work.candidates).Some? {
      EventsAreAbout(work.entry, work.statement, Resolve(work.candidates).value);
    }
  }

  lemma OwedOfOneMore(entry: ModelEntry, work: seq<Work>)
    requires work != []
    ensures var before, last := Of(entry, work[..|work| - 1]), work[|work| - 1];
            AllOwed(Of(entry, work)) ==
            if last.entry.tableName == entry.tableName then AllOwed(before) + last.Owed() else AllOwed(before)
  {
    var before, last := Of(entry, work[..|work| - 1]), work[|work| - 1];
    assert (before + [last])[..|before|] == before;
  }

  lemma OnAliasOneMore(earlier: seq<WriteEvent>, owed: seq<WriteEvent>, mine: seq<WriteEvent>, alias: string,
                       own: string)
    requires OnAlias(Operations(earlier), alias) == Operations(mine)
    requires forall i :: 0 <= i < |owed| ==> owed[i].op.key.alias == own
    ensures OnAlias(Operations(earlier + owed), alias) == Operations(if own == alias then mine + owed else mine)
  {
    OperationsAppend(earlier, owed);
    OperationsAppend(mine, owed);
    OnAliasAppend(Operations(earlier), Operations(owed), alias);
    AllOnAlias(Operations(owed), own);
    if own != alias {
      assert Operations(mine) + [] == Operations(mine);
    }
  }

  /** What all statements owe, seen from one alias, is what the statements on its model owe. */
  lemma {:induction false} OwedToModel(entry: ModelEntry, work: seq<Work>)
    requires Apart(entry, work)
    ensures OnAlias(Operations(AllOwed(work)), entry.indexName) == Operations(AllOwed(Of(entry, work)))
    decreases |work|
  {
    if work != [] {
      var n := |work| - 1;
      OwedToModel(entry, work[..n]);
      OwedOnAlias(work[n]);
      OwedOfOneMore(entry, work);
      assert work[n].entry == entry
             || (work[n].entry.tableName != entry.tableName && work[n].entry.indexName != entry.indexName);
      OnAliasOneMore(AllOwed(work[..n]), work[n].Owed(), AllOwed(Of(entry, work[..n])), entry.indexName,
                     work[n].entry.indexName);
    }
  }

  // --- The drain ---

  function NewEvents(t: Table, ids: seq<int>): (ready: seq<OutboxEvent>)
    requires forall i :: 0 <= i < |ids| ==> ids[i] in t
    ensures |ready| == |ids|
    ensures forall i :: 0 <= i < |ids| ==> ready[i] == OutboxEvent(ids[i], t[ids[i]])
  {
    seq(|ids|, i requires 0 <= i < |ids| => OutboxEvent(ids[i], t[ids[i]]))
  }

  /** A drain at any clock reading finds the committed events, in commit order. */
  lemma CommittedAreReady(t: Table, next: nat, events: seq<WriteEvent>, ids: seq<int>, now: int)
    requires Gained(map[], 1, t, next, events, ids)
    ensures Relay.AllReady(t, now)
    ensures Relay.OpsOf(Candidates(t, now, 1, next, next)) == Operations(events)
  {
    var ready := NewEvents(t, ids);
    forall id | id in t ensures Claimable(t[id], now) && Mentions(ready, id) {
      var i :| 0 <= i < |ids| && ids[i] == id;
      assert IsNew(t[ids[i]], events[i]);
      assert ready[i].id == id;
    }
    assert Relay.Lists(t, now, 1, next, ready);
    Relay.CandidatesAre(t, now, 1, next, next, ready);
    IdsFit(ids, 1, next);
    assert ready[..|ready|] == ready;
    forall i | 0 <= i < |events| ensures ready[i].row.op == events[i].op {
      assert IsNew(t[ids[i]], events[i]);
    }
  }

  lemma {:induction false} IdsFit(ids: seq<int>, from: int, until: int)
    requires from <= until && forall i :: 0 <= i < |ids| ==> from <= ids[i] < until
    requires forall i, j :: 0 <= i < j < |ids| ==> ids[i] < ids[j]
    ensures |ids| <= until - from
    decreases |ids|
  {
    if ids != [] {
      IdsFit(ids[..|ids| - 1], from, ids[|ids| - 1]);
    }
  }

  /** Transactions commit statements on any number of models, whose tables were empty; draining what they
      left in the outbox makes searches under each model's alias see what a full sync of its final table
      would have built. */
  lemma CommittedThenDrainedIsRebuilt(entry: ModelEntry, work: seq<Work>, changes: seq<seq<Change>>,
                                      t: Table, next: nat, ids: seq<int>, now: int, docs: Docs, items: seq<Item>,
                                      exact: bool)
    requires entry.IdsDistinct() && Apart(entry, work) && AllDo(entry, map[], Of(entry, work), changes)
    requires AllLegal(entry, map[], Flatten(changes)) && (exact ==> AllFaithful(entry, map[], Flatten(changes)))
    requires Gained(map[], 1, t, next, AllOwed(work), ids)
    requires forall key :: key in docs ==> key.alias != entry.indexName
    requires IsWholeTable(entry, TableOf(entry, TablesAfter(map[], work)), 0, items)
    ensures Relay.AllReady(t, now)
    ensures SameDocuments(entry, PerformAll(docs, Relay.OpsOf(Candidates(t, now, 1, next, next))),
                          Contents(entry, items), exact)
  {
    var history := Flatten(changes);
    WorkIsHistory(entry, map[], Of(entry, work), changes);
    TableOfModel(entry, map[], work);
    OwedToModel(entry, work);
    assert Operations(Addressed(entry.tableName, EventsOf(entry, history))) == EventsOf(entry, history);
    CommittedAreReady(t, next, AllOwed(work), ids, now);
    IncrementalEqualsRebuild(entry, docs, Operations(AllOwed(work)), history, items, exact);
  }
}
