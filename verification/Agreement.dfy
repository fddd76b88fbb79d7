/** The incremental path and the rebuild agree: delivering a history's events in order leaves the
    documents a full sync of the resulting table would build. */
module Agreement {
  import opened Wrappers
  import opened Documents
  import opened Models
  import opened Callbacks
  import opened Scan

  /** A committed statement about one identified row. For an update, `image` is the model in memory,
      which need not have every column loaded; for a delete, `at` is the time the database stores. */
  datatype Change =
    | Created(pk: int, columns: Doc)
    | Updated(pk: int, changed: Doc, image: Doc)
    | Deleted(pk: int, unscoped: bool, at: int, deletedAt: int)

  function EventOf(entry: ModelEntry, change: Change): Operation {
    match change
    case Created(pk, columns) => EventFor(entry, Create, Instance(pk, columns))
    case Updated(pk, changed, image) => EventFor(entry, Statement.Update(changed), Instance(pk, image))
    case Deleted(pk, unscoped, _, deletedAt) => EventFor(entry, Remove(unscoped, deletedAt), Instance(pk, map[]))
  }

  /** What the statement does to the table. Within the default scope an update or a soft delete only
      finds live rows; nothing tells the callback that it found none. */
  function Execute(entry: ModelEntry, rows: Rows, change: Change): Rows {
    match change
    case Created(pk, columns) => rows[pk := Record(columns, None)]
    case Updated(pk, changed, _) =>
      if pk in rows && Finds(entry, rows[pk]) then rows[pk := rows[pk].(columns := rows[pk].columns + changed)]
      else rows
    case Deleted(pk, unscoped, at, _) =>
      if entry.hasSoftDelete && !unscoped then
        if pk in rows && Finds(entry, rows[pk]) then rows[pk := rows[pk].(deletedAt := Some(at))] else rows
      else rows - {pk}
  }

  predicate Finds(entry: ModelEntry, record: Record) {
    !entry.hasSoftDelete || record.Live()
  }

  /** The statement's WHERE clause finds the row. */
  predicate HitsRow(entry: ModelEntry, rows: Rows, pk: int) {
    pk in rows && Finds(entry, rows[pk])
  }

  /** deleted_at is not written as an ordinary column, and new keys are positive. */
  predicate Ordinary(change: Change) {
    match change
    case Created(pk, columns) => pk > 0 && DELETED_AT !in columns
    case Updated(_, changed, image) => DELETED_AT !in changed && DELETED_AT !in image
    case Deleted(_, _, _, _) => true
  }

  /** An update hits a live row, or is sent as changed fields only. Creates and deletes are free. */
  predicate Legal(entry: ModelEntry, rows: Rows, change: Change) {
    && Ordinary(change)
    && (change.Updated? ==> HitsRow(entry, rows, change.pk) || (!entry.fullDocUpdate && change.changed != map[]))
  }

  /** A document shows that its row is soft-deleted. */
  predicate ShowsDeleted(doc: Doc) {
    DELETED_AT in doc && doc[DELETED_AT].Moment?
  }

  /** The document and the row agree about deletion: a live row's deleted_at is null, a deleted row's is a
      time, and without soft deletion there is none. With `exact`, they agree about every other column too. */
  predicate DocAgrees(entry: ModelEntry, doc: Doc, record: Record, exact: bool) {
    && (DELETED_AT in doc <==> entry.hasSoftDelete)
    && (entry.hasSoftDelete ==> if record.Live() then doc[DELETED_AT] == Null else ShowsDeleted(doc))
    && (exact ==> doc - {DELETED_AT} == record.columns)
  }

  /** The alias holds exactly the documents of the rows a full sync would return. */
  ghost predicate Agrees(entry: ModelEntry, rows: Rows, docs: Docs, exact: bool) {
    && (forall pk :: pk in rows ==>
          && pk > 0 && DELETED_AT !in rows[pk].columns
          && (!entry.hasSoftDelete ==> rows[pk].Live())
          && (DocKey(entry, pk) in docs <==> entry.Scans(rows[pk]))
          && (DocKey(entry, pk) in docs ==> DocAgrees(entry, docs[DocKey(entry, pk)], rows[pk], exact)))
    && (forall key :: key in docs && key.alias == entry.indexName ==>
          exists pk :: pk in rows && key == DocKey(entry, pk))
  }

  /** An update that hits its row and, when the whole model is sent, holds the row as saved in memory. */
  predicate Faithful(entry: ModelEntry, rows: Rows, change: Change) {
    change.Updated? ==>
      && HitsRow(entry, rows, change.pk)
      && (entry.fullDocUpdate || change.changed == map[] ==>
            change.image == rows[change.pk].columns + change.changed)
  }

  lemma DocAfterUpdate(entry: ModelEntry, doc: Doc, record: Record, changed: Doc, exact: bool)
    requires DocAgrees(entry, doc, record, exact) && DELETED_AT !in changed
    ensures DocAgrees(entry, doc + changed, record.(columns := record.columns + changed), exact)
  {
    if exact {
      assert (doc + changed) - {DELETED_AT} == (doc - {DELETED_AT}) + changed;
    }
  }

  lemma JsonAgrees(entry: ModelEntry, record: Record, exact: bool)
    requires DELETED_AT !in record.columns && (!entry.hasSoftDelete ==> record.Live())
    ensures DocAgrees(entry, Json(entry, record), record, exact)
  {
    assert Json(entry, record) - {DELETED_AT} == record.columns;
  }

  /** One row and its document change; every other row keeps its agreement. */
  lemma OthersAgree(entry: ModelEntry, rows: Rows, docs: Docs, rows': Rows, docs': Docs, pk: int, exact: bool)
    requires entry.IdsDistinct() && Agrees(entry, rows, docs, exact)
    requires forall other :: other != pk ==>
               (other in rows' <==> other in rows) && (other in rows ==> rows'[other] == rows[other])
    requires forall key :: key != DocKey(entry, pk) ==>
               (key in docs' <==> key in docs) && (key in docs ==> docs'[key] == docs[key])
    requires DocKey(entry, pk) in docs' ==> pk in rows'
    requires pk in rows' ==>
               && pk > 0 && DELETED_AT !in rows'[pk].columns && (!entry.hasSoftDelete ==> rows'[pk].Live())
               && (DocKey(entry, pk) in docs' <==> entry.Scans(rows'[pk]))
               && (DocKey(entry, pk) in docs' ==> DocAgrees(entry, docs'[DocKey(entry, pk)], rows'[pk], exact))
    ensures Agrees(entry, rows', docs', exact)
  {
    forall other | other in rows' && other != pk
      ensures DocKey(entry, other) != DocKey(entry, pk)
    {
      assert entry.getId(other) != entry.getId(pk);
    }
    forall key | key in docs' && key.alias == entry.indexName
      ensures exists other :: other in rows' && key == DocKey(entry, other)
    {
      if key == DocKey(entry, pk) {
        assert pk in rows';
      } else {
        var other :| other in rows && key == DocKey(entry, other);
        assert other in rows';
      }
    }
  }

  /** Delivering a statement's event keeps the agreement with the table the statement leaves. */
  lemma ChangeKeepsAgreement(entry: ModelEntry, rows: Rows, docs: Docs, change: Change, exact: bool)
    requires entry.IdsDistinct() && Agrees(entry, rows, docs, exact) && Legal(entry, rows, change)
    requires exact ==> Faithful(entry, rows, change)
    ensures Agrees(entry, Execute(entry, rows, change), Perform(docs, EventOf(entry, change)), exact)
  {
    var pk := change.pk;
    var key := DocKey(entry, pk);
    var rows', docs' := Execute(entry, rows, change), Perform(docs, EventOf(entry, change));
    NoStrayDocument(entry, rows, docs, pk, exact);
    match change {
      case Created(_, columns) =>
        JsonAgrees(entry, Record(columns, None), exact);
      case Updated(_, changed, image) =>
        JsonAgrees(entry, Record(image, None), exact);
        if key in docs {
          DocAfterUpdate(entry, docs[key], rows[pk], changed, exact);
          assert rows[pk].columns + map[] == rows[pk].columns;
        }
      case Deleted(_, unscoped, at, deletedAt) =>
        if key in docs && entry.hasSoftDelete && !unscoped && entry.softDeleteMode.SoftDeleteModeUpdate? {
          assert (docs[key] + map[DELETED_AT := Moment(deletedAt)]) - {DELETED_AT} == docs[key] - {DELETED_AT};
        }
    }
    OthersAgree(entry, rows, docs, rows', docs', pk, exact);
  }

  lemma NoStrayDocument(entry: ModelEntry, rows: Rows, docs: Docs, pk: int, exact: bool)
    requires entry.IdsDistinct() && Agrees(entry, rows, docs, exact)
    ensures DocKey(entry, pk) in docs ==> pk in rows
  {
  }

  /** The condition on updates is the exact one: an update that hits no live row breaks the agreement
      if and only if the callback sends the whole model. */
  lemma UpdateKeepsAgreementIff(entry: ModelEntry, rows: Rows, docs: Docs, change: Change)
    requires entry.IdsDistinct() && Agrees(entry, rows, docs, false) && change.Updated? && Ordinary(change)
    ensures Agrees(entry, Execute(entry, rows, change), Perform(docs, EventOf(entry, change)), false)
            <==> Legal(entry, rows, change)
  {
    if Legal(entry, rows, change) {
      ChangeKeepsAgreement(entry, rows, docs, change, false);
    } else {
      var key, docs' := DocKey(entry, change.pk), Perform(docs, EventOf(entry, change));
      assert key in docs' && docs'[key] == Json(entry, Record(change.image, None));
      JsonAgrees(entry, Record(change.image, None), false);
      assert Execute(entry, rows, change) == rows;
      if Agrees(entry, rows, docs', false) {
        NoStrayDocument(entry, rows, docs', change.pk, false);
      }
    }
  }

  // --- Histories ---

  function ExecuteAll(entry: ModelEntry, rows: Rows, history: seq<Change>): Rows
    decreases |history|
  {
    if history == [] then rows else ExecuteAll(entry, Execute(entry, rows, history[0]), history[1..])
  }

  function EventsOf(entry: ModelEntry, history: seq<Change>): seq<Operation> {
    if history == [] then [] else [EventOf(entry, history[0])] + EventsOf(entry, history[1..])
  }

  predicate AllLegal(entry: ModelEntry, rows: Rows, history: seq<Change>)
    decreases |history|
  {
    history == [] || (Legal(entry, rows, history[0]) && AllLegal(entry, Execute(entry, rows, history[0]), history[1..]))
  }

  predicate AllFaithful(entry: ModelEntry, rows: Rows, history: seq<Change>)
    decreases |history|
  {
    history == []
    || (Faithful(entry, rows, history[0]) && AllFaithful(entry, Execute(entry, rows, history[0]), history[1..]))
  }

  lemma {:induction false} HistoryKeepsAgreement(entry: ModelEntry, rows: Rows, docs: Docs, history: seq<Change>,
                                                 exact: bool)
    requires entry.IdsDistinct() && Agrees(entry, rows, docs, exact) && AllLegal(entry, rows, history)
    requires exact ==> AllFaithful(entry, rows, history)
    ensures Agrees(entry, ExecuteAll(entry, rows, history), PerformAll(docs, EventsOf(entry, history)), exact)
    decreases |history|
  {
    if history != [] {
      ChangeKeepsAgreement(entry, rows, docs, history[0], exact);
      HistoryKeepsAgreement(entry, Execute(entry, rows, history[0]), Perform(docs, EventOf(entry, history[0])),
                            history[1..], exact);
      assert EventsOf(entry, history)[1..] == EventsOf(entry, history[1..]);
    }
  }

  // --- Against a rebuild ---

  lemma {:induction false} ContentsAre(entry: ModelEntry, items: seq<Item>)
    requires entry.IdsDistinct() && Ordered(items)
    ensures forall i :: 0 <= i < |items| ==>
              && entry.getId(items[i].key) in Contents(entry, items)
              && Contents(entry, items)[entry.getId(items[i].key)] == Json(entry, items[i].record)
    decreases |items|
  {
    if items != [] {
      var init, last := items[..|items| - 1], items[|items| - 1];
      ContentsAre(entry, init);
      forall i | 0 <= i < |init| ensures entry.getId(items[i].key) != entry.getId(last.key) {
        assert items[i].key < last.key;
      }
    }
  }

  lemma {:induction false} ContentsAreOnly(entry: ModelEntry, items: seq<Item>, id: string)
    requires id in Contents(entry, items)
    ensures exists i :: 0 <= i < |items| && id == entry.getId(items[i].key)
    decreases |items|
  {
    var n := |items| - 1;
    if id == entry.getId(items[n].key) {
      assert 0 <= n < |items|;
    } else {
      ContentsAreOnly(entry, items[..n], id);
      var i :| 0 <= i < n && id == entry.getId(items[..n][i].key);
      assert items[i] == items[..n][i];
    }
  }

  /** Two documents that agree with the same row agree with each other. */
  predicate SameUpToDeletionTime(a: Doc, b: Doc, exact: bool) {
    && (DELETED_AT in a <==> DELETED_AT in b)
    && (DELETED_AT in a ==> a[DELETED_AT] == b[DELETED_AT] || (ShowsDeleted(a) && ShowsDeleted(b)))
    && (exact ==> a - {DELETED_AT} == b - {DELETED_AT})
  }

  /** What a full sync of a fixed table builds: one document for each row above the start, soft-deleted ones
      only where deletions are kept as marks, with the row's columns and, under soft deletion, deleted_at:
      null for a live row, else the time stored. */
  lemma RebuiltDocuments(entry: ModelEntry, rows: Rows, start: int, items: seq<Item>, pk: int)
    requires entry.IdsDistinct() && IsWholeTable(entry, rows, start, items)
    requires pk in rows && pk > start
    ensures var index, id := Contents(entry, items), entry.getId(pk);
            && (id in index <==>
                  !entry.hasSoftDelete || rows[pk].deletedAt.None? || entry.softDeleteMode.SoftDeleteModeUpdate?)
            && (id in index && !entry.hasSoftDelete ==> index[id] == rows[pk].columns)
            && (id in index && entry.hasSoftDelete ==>
                  && index[id] - {"deleted_at"} == rows[pk].columns - {"deleted_at"} && "deleted_at" in index[id]
                  && index[id]["deleted_at"] ==
                     if rows[pk].deletedAt.None? then Null else Moment(rows[pk].deletedAt.value))
  {
    var id := entry.getId(pk);
    ContentsAre(entry, items);
    if Scannable(entry, rows, pk) {
      var i :| 0 <= i < |items| && items[i].key == pk;
      assert entry.hasSoftDelete ==> Json(entry, rows[pk]) - {DELETED_AT} == rows[pk].columns - {DELETED_AT};
    } else if id in Contents(entry, items) {
      ContentsAreOnly(entry, items, id);
    }
  }

  /** ... and no others. */
  lemma RebuiltOnly(entry: ModelEntry, rows: Rows, start: int, items: seq<Item>, id: string)
    requires IsWholeTable(entry, rows, start, items) && id in Contents(entry, items)
    ensures exists pk :: pk in rows && pk > start && id == entry.getId(pk)
  {
    ContentsAreOnly(entry, items, id);
    var i :| 0 <= i < |items| && id == entry.getId(items[i].key);
    assert items[i].key in rows;
  }

  /** The alias' documents and the index a full sync from 0 builds: the same document ids, the same
      soft-deletion marks and, with `exact`, the same other fields. */
  ghost predicate SameDocuments(entry: ModelEntry, docs: Docs, index: map<string, Doc>, exact: bool) {
    && (forall id :: Key(entry.indexName, id) in docs <==> id in index)
    && (forall id :: id in index ==> SameUpToDeletionTime(docs[Key(entry.indexName, id)], index[id], exact))
  }

  lemma AgreementMeetsRebuild(entry: ModelEntry, rows: Rows, docs: Docs, items: seq<Item>, exact: bool)
    requires entry.IdsDistinct() && Agrees(entry, rows, docs, exact)
    requires IsWholeTable(entry, rows, 0, items)
    ensures SameDocuments(entry, docs, Contents(entry, items), exact)
  {
    ContentsAre(entry, items);
    var index := Contents(entry, items);
    forall id | Key(entry.indexName, id) in docs ensures id in index {
      var pk :| pk in rows && Key(entry.indexName, id) == DocKey(entry, pk);
      assert Scannable(entry, rows, pk);
      var i :| 0 <= i < |items| && items[i].key == pk;
    }
    forall id | id in index
      ensures Key(entry.indexName, id) in docs
      ensures SameUpToDeletionTime(docs[Key(entry.indexName, id)], index[id], exact)
    {
      ContentsAreOnly(entry, items, id);
      var i :| 0 <= i < |items| && id == entry.getId(items[i].key);
      var pk := items[i].key;
      assert DocKey(entry, pk) == Key(entry.indexName, id);
      JsonAgrees(entry, rows[pk], exact);
    }
  }

  lemma SameDocumentsOn(entry: ModelEntry, a: Docs, b: Docs, index: map<string, Doc>, exact: bool)
    requires SameDocuments(entry, a, index, exact)
    requires forall id :: Lookup(a, Key(entry.indexName, id)) == Lookup(b, Key(entry.indexName, id))
    ensures SameDocuments(entry, b, index, exact)
  {
    forall id
      ensures Key(entry.indexName, id) in b <==> id in index
      ensures id in index ==> SameUpToDeletionTime(b[Key(entry.indexName, id)], index[id], exact)
    {
      assert Lookup(a, Key(entry.indexName, id)) == Lookup(b, Key(entry.indexName, id));
    }
  }

  /** For every history of statements on a table that starts empty, whatever the soft-delete setting, and
      however the events of other models are mixed in: folding the callbacks' events in order gives, under
      the model's alias, the documents of a full sync of the final table. */
  lemma IncrementalEqualsRebuild(entry: ModelEntry, docs: Docs, ops: seq<Operation>, history: seq<Change>,
                                 items: seq<Item>, exact: bool)
    requires entry.IdsDistinct() && AllLegal(entry, map[], history)
    requires exact ==> AllFaithful(entry, map[], history)
    requires OnAlias(ops, entry.indexName) == EventsOf(entry, history)
    requires forall key :: key in docs ==> key.alias != entry.indexName
    requires IsWholeTable(entry, ExecuteAll(entry, map[], history), 0, items)
    ensures SameDocuments(entry, PerformAll(docs, ops), Contents(entry, items), exact)
  {
    var mine := EventsOf(entry, history);
    assert Agrees(entry, map[], docs, exact);
    HistoryKeepsAgreement(entry, map[], docs, history, exact);
    AgreementMeetsRebuild(entry, ExecuteAll(entry, map[], history), PerformAll(docs, mine), items, exact);
    forall id
      ensures var key := Key(entry.indexName, id);
              Lookup(PerformAll(docs, mine), key) == Lookup(PerformAll(docs, ops), key)
    {
      AliasesAreSeparate(docs, ops, Key(entry.indexName, id));
    }
    SameDocumentsOn(entry, PerformAll(docs, mine), PerformAll(docs, ops), Contents(entry, items), exact);
  }
}
