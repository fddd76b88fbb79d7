/** The outbox side of a business transaction: callback.go's enqueueing, autosync_tx.go and
    insertFromEvents of outbox_store.go. */
module Transactions {
  import opened Wrappers
  import opened Documents
  import opened Policy
  import opened Outbox
  import opened Models
  import opened Callbacks

  /** An event on its way into the outbox: outboxWriteEvent. */
  datatype WriteEvent = WriteEvent(tableName: string, op: Operation) {
    predicate Complete() {
      tableName != "" && op.key.alias != "" && op.key.id != ""
    }
  }

  /** A business statement: what the callback is told, the table once the database has run it, and whether a
      hook that runs after the callback returns an error. */
  datatype Work = Work(entry: ModelEntry, statement: Statement, candidates: seq<seq<Instance>>, result: Rows,
                       hookFails: bool) {
    /** What the statement owes the outbox. */
    function Owed(): seq<WriteEvent> {
      if !entry.autoSync || Resolve(candidates).None? then []
      else Addressed(entry.tableName, EventsFor(entry, statement, Resolve(candidates).value))
    }
  }

  /** The business tables by name. */
  type Tables = map<string, Rows>

  function TablesAfter(tables: Tables, work: seq<Work>): Tables {
    if work == [] then tables
    else
      var last := work[|work| - 1];
      TablesAfter(tables, work[..|work| - 1])[last.entry.tableName := last.result]
  }

  predicate AllComplete(events: seq<WriteEvent>) {
    forall i :: 0 <= i < |events| ==> events[i].Complete()
  }

  function Addressed(tableName: string, ops: seq<Operation>): (events: seq<WriteEvent>)
    ensures |events| == |ops|
    ensures forall i :: 0 <= i < |ops| ==> events[i] == WriteEvent(tableName, ops[i])
  {
    seq(|ops|, i requires 0 <= i < |ops| => WriteEvent(tableName, ops[i]))
  }

  function AllOwed(work: seq<Work>): seq<WriteEvent> {
    if work == [] then [] else AllOwed(work[..|work| - 1]) + work[|work| - 1].Owed()
  }

  lemma OwedByOneMore(work: seq<Work>, k: nat)
    requires k < |work|
    ensures AllOwed(work[..k + 1]) == AllOwed(work[..k]) + work[k].Owed()
    ensures forall tables :: TablesAfter(tables, work[..k + 1]) ==
                             TablesAfter(tables, work[..k])[work[k].entry.tableName := work[k].result]
    ensures AllComplete(AllOwed(work[..k])) && AllComplete(work[k].Owed()) ==> AllComplete(AllOwed(work[..k + 1]))
  {
    assert work[..k + 1][..k] == work[..k];
  }

  lemma CompleteParts(a: seq<WriteEvent>, b: seq<WriteEvent>)
    requires AllComplete(a + b)
    ensures AllComplete(a) && AllComplete(b)
  {
    assert forall i :: 0 <= i < |a| ==> a[i] == (a + b)[i];
    assert forall i :: 0 <= i < |b| ==> b[i] == (a + b)[|a| + i];
  }

  /** Each statement's events are among those owed in all. */
  lemma {:induction false} OwedWithin(work: seq<Work>, k: nat)
    requires k < |work| && AllComplete(AllOwed(work))
    ensures AllComplete(work[k].Owed())
    decreases |work|
  {
    var n := |work| - 1;
    var before, last := AllOwed(work[..n]), work[n].Owed();
    CompleteParts(before, last);
    if k < n {
      OwedWithin(work[..n], k);
    }
  }

  lemma OwedByOne(work: Work)
    ensures AllOwed([work]) == work.Owed()
  {
    assert [work][..0] == [];
    assert [] + work.Owed() == work.Owed();
  }

  // --- What an insert adds ---

  predicate IsNew(row: Row, event: WriteEvent) {
    row == NewRow(event.tableName, event.op, row.createdAt)
  }

  /** From (t, next) to (t', next') the outbox gained exactly these events, in this order, each as one
      pending row under its own fresh id. */
  ghost predicate Gained(t: Table, next: nat, t': Table, next': nat, events: seq<WriteEvent>, ids: seq<int>) {
    && |ids| == |events| && next <= next'
    && (forall i :: 0 <= i < |ids| ==> next <= ids[i] < next')
    && (forall i, j :: 0 <= i < j < |ids| ==> ids[i] < ids[j])
    && (forall i :: 0 <= i < |ids| ==> ids[i] in t' && IsNew(t'[ids[i]], events[i]))
    && (forall id :: id in t ==> id in t' && t'[id] == t[id])
    && (forall id :: id in t' ==> id in t || id in ids)
  }

  /** The rows added are stamped with clock readings between the two. */
  ghost predicate Stamped(t: Table, t': Table, from: int, to: int) {
    from <= to && forall id :: id in t' && id !in t ==> from <= t'[id].createdAt <= to
  }

  ghost predicate IdsBelow(t: Table, next: nat) {
    next >= 1 && forall id :: id in t ==> 1 <= id < next
  }

  lemma GainedMore(t: Table, next: nat, t1: Table, next1: nat, t2: Table, next2: nat,
                   events: seq<WriteEvent>, ids: seq<int>, more: seq<WriteEvent>, moreIds: seq<int>)
    requires IdsBelow(t1, next1)
    requires Gained(t, next, t1, next1, events, ids) && Gained(t1, next1, t2, next2, more, moreIds)
    ensures Gained(t, next, t2, next2, events + more, ids + moreIds)
  {
    var all, allIds := events + more, ids + moreIds;
    forall i | 0 <= i < |allIds| ensures next <= allIds[i] < next2 && allIds[i] in t2 && IsNew(t2[allIds[i]], all[i]) {
      if i < |ids| {
        assert t2[ids[i]] == t1[ids[i]];
      }
    }
  }

  function IdSet(ids: seq<int>): set<int> {
    set id | id in ids
  }

  lemma IdSetOneMore(ids: seq<int>, last: int)
    requires forall i :: 0 <= i < |ids| ==> ids[i] < last
    ensures |IdSet(ids + [last])| == |IdSet(ids)| + 1
  {
    assert last !in ids;
    assert IdSet(ids + [last]) == IdSet(ids) + {last};
  }

  lemma {:induction false} DistinctCount(ids: seq<int>)
    requires forall i, j :: 0 <= i < j < |ids| ==> ids[i] < ids[j]
    ensures |IdSet(ids)| == |ids|
  {
    if ids != [] {
      var init, last := ids[..|ids| - 1], ids[|ids| - 1];
      DistinctCount(init);
      IdSetOneMore(init, last);
      assert ids == init + [last];
    }
  }

  lemma GainedKeys(t: Table, next: nat, t': Table, next': nat, events: seq<WriteEvent>, ids: seq<int>)
    requires IdsBelow(t, next) && Gained(t, next, t', next', events, ids)
    ensures t'.Keys == t.Keys + IdSet(ids) && t.Keys !! IdSet(ids)
  {
    forall id | id in IdSet(ids) ensures id in t' && id !in t {
      var i :| 0 <= i < |ids| && ids[i] == id;
    }
    forall id ensures id in t'.Keys <==> id in t.Keys + IdSet(ids) {
    }
  }

  lemma GainedNothing(t: Table, next: nat, t': Table, next': nat, ids: seq<int>)
    requires Gained(t, next, t', next', [], ids)
    ensures t' == t
  {
    assert forall id :: id in t'.Keys <==> id in t.Keys;
    forall id | id in t' ensures id in t && t'[id] == t[id] {
      assert id in t'.Keys;
    }
  }

  lemma GainedCount(t: Table, next: nat, t': Table, next': nat, events: seq<WriteEvent>, ids: seq<int>)
    requires IdsBelow(t, next) && Gained(t, next, t', next', events, ids)
    ensures |t'| == |t| + |events|
    ensures events == [] ==> t' == t
  {
    GainedKeys(t, next, t', next', events, ids);
    DistinctCount(ids);
    assert |t'| == |t'.Keys| == |t.Keys| + |IdSet(ids)|;
    if events == [] {
      forall id | id in t' ensures id in t && t'[id] == t[id] {
        assert id in t'.Keys;
      }
    }
  }

  /** A committed statement about n identified, auto-synced models added n pending rows and no others,
      the i-th carrying the i-th model's document id; any other statement added none. */
  lemma OneRowPerModel(work: Work, t: Table, next: nat, t': Table, next': nat, ids: seq<int>)
    requires IdsBelow(t, next) && Gained(t, next, t', next', work.Owed(), ids)
    ensures !work.entry.autoSync || Resolve(work.candidates).None? ==> t' == t
    ensures work.entry.autoSync && Resolve(work.candidates).Some? ==>
              var models := Resolve(work.candidates).value;
              && |t'| == |t| + |models|
              && forall i :: 0 <= i < |models| ==>
                   && ids[i] in t' && ids[i] !in t
                   && t'[ids[i]].status.Pending? && t'[ids[i]].attempts == 0
                   && t'[ids[i]].op.key == Key(work.entry.indexName, work.entry.getId(models[i].pk))
                   && t'[ids[i]].tableName == work.entry.tableName
                   && t'[ids[i]].op == EventFor(work.entry, work.statement, models[i])
  {
    GainedCount(t, next, t', next', work.Owed(), ids);
    if work.entry.autoSync && Resolve(work.candidates).Some? {
      EventsAreAbout(work.entry, work.statement, Resolve(work.candidates).value);
    }
  }

  // --- The database ---

  const INSERT_BATCH := 100

  /** The part of the database one transaction works on. Ids come from a sequence that a rollback does
      not turn back and that other transactions draw from as well. */
  class Database {
    const steady: bool   // whether every statement and every commit succeeds and is answered
    var tables: Tables
    var outbox: Table
    var nextId: nat
    var clock: int

    ghost predicate Valid()
      reads this
    {
      IdsBelow(outbox, nextId)
    }

    constructor (steady: bool, tables: Tables, clock: int)
      ensures Valid() && this.steady == steady && this.tables == tables && this.clock == clock
      ensures outbox == map[] && nextId == 1
    {
      this.steady, this.tables, this.clock, outbox, nextId := steady, tables, clock, map[], 1;
    }

    /** One multi-row INSERT: all of the rows or none. */
    method InsertBatch(events: seq<WriteEvent>) returns (ok: bool, ghost ids: seq<int>)
      requires Valid()
      modifies this`outbox, this`nextId, this`clock
      ensures Valid() && Stamped(old(outbox), outbox, old(clock), clock)
      ensures Gained(old(outbox), old(nextId), outbox, nextId, if ok then events else [], ids)
      ensures steady ==> ok
    {
      ids := [];
      var failed: bool := *;
      ok := steady || !failed;
      if !ok {
        return;
      }
      for i := 0 to |events|
        invariant Valid() && Gained(old(outbox), old(nextId), outbox, nextId, events[..i], ids)
        invariant Stamped(old(outbox), outbox, old(clock), clock)
      {
        ghost var before, next := outbox, nextId;
        var gap: nat, duration: nat := *, *;
        var id := nextId + gap;
        clock := clock + duration;
        outbox, nextId := outbox[id := NewRow(events[i].tableName, events[i].op, clock)], id + 1;
        assert Gained(before, next, outbox, nextId, [events[i]], [id]);
        GainedMore(old(outbox), old(nextId), before, next, outbox, nextId, events[..i], ids, [events[i]], [id]);
        assert events[..i + 1] == events[..i] + [events[i]];
        ids := ids + [id];
      }
      assert events[..|events|] == events;
    }

    /** The rows to insert: every event must be complete, and its document must encode. */
    method Validate(events: seq<WriteEvent>) returns (err: Option<string>)
      ensures err.None? ==> AllComplete(events)
      ensures steady && AllComplete(events) ==> err.None?
    {
      for i := 0 to |events|
        invariant forall j :: 0 <= j < i ==> events[j].Complete()
      {
        if events[i].tableName == "" {
          return Some("empty table name");
        }
        if events[i].op.key.alias == "" {
          return Some("empty index alias");
        }
        if events[i].op.key.id == "" {
          return Some("empty document id");
        }
        var encodes: bool := *;
        if !encodes && !steady {
          return Some("marshal payload");
        }
      }
      err := None;
    }

    /** Batch by batch; a batch that fails leaves the earlier ones to the transaction, or undoes them back to a
        savepoint. */
    method CreateInBatches(events: seq<WriteEvent>) returns (ok: bool, ghost ids: seq<int>)
      requires Valid()
      modifies this`outbox, this`nextId, this`clock
      ensures Valid() && |ids| <= |events| && (ok ==> |ids| == |events|) && (steady ==> ok)
      ensures Stamped(old(outbox), outbox, old(clock), clock)
      ensures Gained(old(outbox), old(nextId), outbox, nextId, events[..|ids|], ids)
      ensures !ok ==> |ids| % INSERT_BATCH == 0
    {
      var savepoint := outbox;
      ids, ok := [], true;
      var done := 0;
      while ok && done < |events|
        invariant done == |ids| <= |events| && (!ok || done < |events| ==> done % INSERT_BATCH == 0)
        invariant Valid() && Gained(savepoint, old(nextId), outbox, nextId, events[..done], ids)
        invariant Stamped(savepoint, outbox, old(clock), clock) && (steady ==> ok)
        decreases ok, |events| - done
      {
        ghost var before, next := outbox, nextId;
        var size := Min(INSERT_BATCH, |events| - done);
        ghost var added;
        ok, added := InsertBatch(events[done..done + size]);
        BatchGained(savepoint, old(nextId), before, next, outbox, nextId, events, done, ids,
                    if ok then size else 0, added);
        if ok {
          done, ids := done + size, ids + added;
        } else {
          assert ids + added == ids;
        }
      }
      var undone: bool := *;
      if !ok && undone {
        outbox, ids := savepoint, [];
      }
    }

    /** insertFromEvents */
    method InsertFromEvents(events: seq<WriteEvent>) returns (err: Option<string>, ghost ids: seq<int>)
      requires Valid()
      modifies this`outbox, this`nextId, this`clock
      ensures Valid() && |ids| <= |events| && Stamped(old(outbox), outbox, old(clock), clock)
      ensures Gained(old(outbox), old(nextId), outbox, nextId, events[..|ids|], ids)
      ensures err.None? ==> |ids| == |events|
      ensures err.Some? ==> |ids| % 100 == 0
      ensures (exists e :: e in events && (e.tableName == "" || e.op.key.alias == "" || e.op.key.id == "")) ==>
                err.Some? && outbox == old(outbox)
      ensures steady && (forall e :: e in events ==> e.tableName != "" && e.op.key.alias != "" && e.op.key.id != "") ==>
                err.None?
    {
      ids := [];
      err := Validate(events);
      if err.None? {
        var ok;
        ok, ids := CreateInBatches(events);
        err := if ok then None else Some("create rows");
      }
    }
  }

  lemma BatchGained(t: Table, next: nat, t1: Table, next1: nat, t2: Table, next2: nat,
                    events: seq<WriteEvent>, done: nat, ids: seq<int>, size: nat, added: seq<int>)
    requires done + size <= |events| && IdsBelow(t1, next1)
    requires Gained(t, next, t1, next1, events[..done], ids)
    requires Gained(t1, next1, t2, next2, events[done..done + size], added)
    ensures Gained(t, next, t2, next2, events[..done + size], ids + added) && |added| == size
  {
    GainedMore(t, next, t1, next1, t2, next2, events[..done], ids, events[done..done + size], added);
    assert events[..done + size] == events[..done] + events[done..done + size];
  }

  // --- Statements and transactions ---

  class AutoSync {
    const db: Database

    constructor (db: Database)
      ensures this.db == db
    {
      this.db := db;
    }

    /** The after-callbacks: resolve the models, build their events, hand them to the outbox. */
    method AfterStatement(work: Work) returns (err: Option<string>, ghost ids: seq<int>)
      requires db.Valid()
      modifies db`outbox, db`nextId, db`clock
      ensures db.Valid() && |ids| <= |work.Owed()| && Stamped(old(db.outbox), db.outbox, old(db.clock), db.clock)
      ensures Gained(old(db.outbox), old(db.nextId), db.outbox, db.nextId, work.Owed()[..|ids|], ids)
      ensures err.None? ==> |ids| == |work.Owed()|
      ensures !AllComplete(work.Owed()) ==> err.Some?
      ensures db.steady && AllComplete(work.Owed()) ==> err.None?
    {
      err, ids := None, [];
      if !work.entry.autoSync {
        return;
      }
      var models, identified := ResolveModelCandidates(work.candidates);
      if !identified {
        return;
      }
      var ops := BuildEvents(work.entry, work.statement, models);
      err, ids := db.InsertFromEvents(Addressed(work.entry.tableName, ops));
    }

    /** One statement inside an open transaction: the write, its callback, and hooks that run later. */
    method RunInside(work: Work) returns (err: Option<string>, ghost ids: seq<int>)
      requires db.Valid()
      modifies db
      ensures db.Valid() && db.nextId >= old(db.nextId)
      ensures Stamped(old(db.outbox), db.outbox, old(db.clock), db.clock)
      ensures err.None? ==>
                && db.tables == old(db.tables)[work.entry.tableName := work.result]
                && Gained(old(db.outbox), old(db.nextId), db.outbox, db.nextId, work.Owed(), ids)
      ensures work.hookFails || !AllComplete(work.Owed()) ==> err.Some?
      ensures db.steady && !work.hookFails && AllComplete(work.Owed()) ==> err.None?
    {
      err, ids := None, [];
      var written: bool := *;
      if !written && !db.steady {
        return Some("write"), [];
      }
      db.tables := db.tables[work.entry.tableName := work.result];
      err, ids := AfterStatement(work);
      assert err.None? ==> work.Owed()[..|ids|] == work.Owed();
      if err.None? && work.hookFails {
        err := Some("after hook");
      }
    }

    /** The statements of one transaction, up to the first that fails. */
    method RunEach(work: seq<Work>) returns (err: Option<string>, ghost ids: seq<int>)
      requires db.Valid()
      modifies db
      ensures db.Valid() && db.nextId >= old(db.nextId) && db.clock >= old(db.clock)
      ensures err.None? ==>
                && db.tables == TablesAfter(old(db.tables), work)
                && Gained(old(db.outbox), old(db.nextId), db.outbox, db.nextId, AllOwed(work), ids)
                && AllComplete(AllOwed(work)) && Stamped(old(db.outbox), db.outbox, old(db.clock), db.clock)
                && (forall w :: w in work ==> !w.hookFails)
      ensures db.steady && AllComplete(AllOwed(work)) && (forall w :: w in work ==> !w.hookFails) ==> err.None?
    {
      ghost var outbox, next := db.outbox, db.nextId;
      err, ids := None, [];
      for k := 0 to |work|
        invariant db.Valid() && db.nextId >= next && err.None?
        invariant db.tables == TablesAfter(old(db.tables), work[..k])
        invariant Gained(outbox, next, db.outbox, db.nextId, AllOwed(work[..k]), ids)
        invariant forall w :: w in work[..k] ==> !w.hookFails
        invariant AllComplete(AllOwed(work[..k])) && Stamped(outbox, db.outbox, old(db.clock), db.clock)
      {
        ghost var before, from := db.outbox, db.nextId;
        ghost var added;
        err, added := RunInside(work[k]);
        if AllComplete(AllOwed(work)) {
          OwedWithin(work, k);
        }
        if err.Some? {
          return;
        }
        GainedMore(outbox, next, before, from, db.outbox, db.nextId, AllOwed(work[..k]), ids, work[k].Owed(), added);
        OwedByOneMore(work, k);
        ids := ids + added;
      }
      assert work[..|work|] == work;
    }

    /** Transaction, with a function that runs `work` and returns the first error it meets or, if `abandoned`,
        one of its own. `lost`: the commit took place although its answer did not arrive. Rows committed are
        complete, and stamped while the transaction ran. */
    method Transaction(work: seq<Work>, abandoned: bool)
      returns (err: Option<string>, ghost lost: bool, ghost ids: seq<int>)
      requires db.Valid()
      modifies db
      ensures db.Valid() && db.nextId >= old(db.nextId) && (lost ==> err.Some?)
      ensures err.None? || lost ==>
                && db.tables == TablesAfter(old(db.tables), work)
                && Gained(old(db.outbox), old(db.nextId), db.outbox, db.nextId, AllOwed(work), ids)
      ensures Stamped(old(db.outbox), db.outbox, old(db.clock), db.clock)
      ensures forall id :: id in db.outbox && id !in old(db.outbox) ==>
                && db.outbox[id].tableName != ""
                && db.outbox[id].op.key.alias != "" && db.outbox[id].op.key.id != ""
      ensures err.Some? && !lost ==> db.tables == old(db.tables) && db.outbox == old(db.outbox)
      ensures abandoned || !AllComplete(AllOwed(work)) || (exists w :: w in work && w.hookFails) ==> err.Some? && !lost
      ensures db.steady && !abandoned && AllComplete(AllOwed(work)) && (forall w :: w in work ==> !w.hookFails) ==>
                err.None?
    {
      var tables, outbox := db.tables, db.outbox;
      lost := false;
      err, ids := RunEach(work);
      if err.None? {
        var committed: bool := *;
        if abandoned {
          err := Some("function");
        } else if !committed && !db.steady {
          err := Some("commit");
        }
      }
      if err.Some? {
        Rollback(tables, outbox);
        return;
      }
      var answered: bool := *;
      if !answered && !db.steady {
        err, lost := Some("commit"), true;
      }
    }

    method Rollback(tables: Tables, outbox: Table)
      requires IdsBelow(outbox, db.nextId)
      modifies db`tables, db`outbox
      ensures db.tables == tables && db.outbox == outbox
    {
      db.tables, db.outbox := tables, outbox;
    }

    /** A statement on its own runs in a transaction of its own. */
    method Run(work: Work) returns (err: Option<string>, ghost lost: bool, ghost ids: seq<int>)
      requires db.Valid()
      modifies db
      ensures db.Valid() && db.nextId >= old(db.nextId) && (lost ==> err.Some?)
      ensures err.None? || lost ==>
                && db.tables == old(db.tables)[work.entry.tableName := work.result]
                && Gained(old(db.outbox), old(db.nextId), db.outbox, db.nextId, work.Owed(), ids)
      ensures err.Some? && !lost ==> db.tables == old(db.tables) && db.outbox == old(db.outbox)
      ensures work.hookFails || !AllComplete(work.Owed()) ==> err.Some? && !lost
      ensures db.steady && !work.hookFails && AllComplete(work.Owed()) ==> err.None?
    {
      OwedByOne(work);
      err, lost, ids := Transaction([work], false);
    }
  }
}
