/** The keyset scan of a full sync, against a table that others may change between its queries. */
module Scan {
  import opened Wrappers
  import opened Documents
  import opened Models

  /** Primary keys are 64-bit: signed ones reach 2^63 - 1, unsigned ones 2^64 - 1. */
  const MAX_KEY := 0xffff_ffff_ffff_ffff

  ghost predicate KeysFit(rows: Rows) {
    forall key :: key in rows ==> key <= MAX_KEY
  }

  /** SELECT ... WHERE key >= from ORDER BY key, within the model's scope. */
  function Above(entry: ModelEntry, rows: Rows, from: int): seq<int>
    decreases MAX_KEY + 1 - from
  {
    if from > MAX_KEY then []
    else (if from in rows && entry.Scans(rows[from]) then [from] else []) + Above(entry, rows, from + 1)
  }

  /** Scope: keys after the checkpoint, in order; LIMIT 0 returns nothing and a negative limit is none. */
  function Page(entry: ModelEntry, rows: Rows, checkpoint: int, batchSize: int): seq<int> {
    var all := Above(entry, rows, checkpoint + 1);
    if batchSize < 0 || |all| <= batchSize then all else all[..batchSize]
  }

  ghost predicate Increasing(keys: seq<int>) {
    forall i, j :: 0 <= i < j < |keys| ==> keys[i] < keys[j]
  }

  ghost predicate Scannable(entry: ModelEntry, rows: Rows, key: int) {
    key in rows && entry.Scans(rows[key])
  }

  lemma {:induction false} AboveIsExact(entry: ModelEntry, rows: Rows, from: int)
    requires KeysFit(rows)
    ensures var all := Above(entry, rows, from);
            && Increasing(all)
            && (forall i :: 0 <= i < |all| ==> from <= all[i] <= MAX_KEY)
            && (forall key :: key in all <==> from <= key && Scannable(entry, rows, key))
    decreases MAX_KEY + 1 - from
  {
    if from <= MAX_KEY {
      AboveIsExact(entry, rows, from + 1);
      var rest := Above(entry, rows, from + 1);
      assert forall i :: 0 <= i < |rest| ==> rest[i] in rest;
    }
  }

  // --- The cursor ---

  class IntegerPrimaryKeyScanCursor {
    var checkpoint: int

    constructor (startId: int)
      ensures checkpoint == startId
    {
      checkpoint := startId;
    }

    method Advance(key: int)
      modifies this
      ensures checkpoint == key
    {
      checkpoint := key;
    }
  }

  /** integerPrimaryKeyScanStrategy.Prepare */
  method Prepare(entry: ModelEntry, startId: int) returns (r: Result<IntegerPrimaryKeyScanCursor>)
    ensures r.Failure? <==> entry.unsigned && startId < 0
    ensures r.Success? ==> fresh(r.value) && r.value.checkpoint == startId
  {
    if entry.unsigned && startId < 0 {
      return Failure("negative checkpoint for unsigned primary key");
    }
    var cursor := new IntegerPrimaryKeyScanCursor(startId);
    r := Success(cursor);
  }

  // --- The table ---

  class SourceTable {
    const fixed: bool   // whether nobody writes to it
    var rows: Rows

    constructor (fixed: bool, rows: Rows)
      ensures this.fixed == fixed && this.rows == rows
    {
      this.fixed, this.rows := fixed, rows;
    }

    /** Other transactions commit between two queries of the scan. */
    method Others()
      requires KeysFit(rows)
      modifies this
      ensures KeysFit(rows)
      ensures fixed ==> rows == old(rows)
    {
    }
  }

  /** One document handed to the bulk indexer. */
  datatype Item = Item(key: int, record: Record)

  ghost predicate Ordered(items: seq<Item>) {
    forall i, j :: 0 <= i < j < |items| ==> items[i].key < items[j].key
  }

  ghost predicate HasKey(items: seq<Item>, key: int) {
    exists i :: 0 <= i < |items| && items[i].key == key
  }

  function Items(rows: Rows, keys: seq<int>): (items: seq<Item>)
    requires forall i :: 0 <= i < |keys| ==> keys[i] in rows
    ensures |items| == |keys|
    ensures forall i :: 0 <= i < |items| ==> items[i] == Item(keys[i], rows[keys[i]])
  {
    seq(|keys|, i requires 0 <= i < |keys| => Item(keys[i], rows[keys[i]]))
  }

  /** The documents an index holds once the items are in it. */
  function Contents(entry: ModelEntry, items: seq<Item>): map<string, Doc>
    decreases |items|
  {
    if items == [] then map[]
    else
      var last := items[|items| - 1];
      Contents(entry, items[..|items| - 1])[entry.getId(last.key) := Json(entry, last.record)]
  }

  // --- The scan ---

  /** Everything the scan guarantees about its output, given the table at each of its queries. */
  ghost predicate Emits(entry: ModelEntry, start: int, snapshots: seq<Rows>, items: seq<Item>) {
    && Ordered(items)
    && (forall i :: 0 <= i < |items| ==>
          && items[i].key > start
          && exists q ::
               && 0 <= q < |snapshots| && Scannable(entry, snapshots[q], items[i].key)
               && snapshots[q][items[i].key] == items[i].record)
  }

  /** All the queries so far could see the row. */
  ghost predicate SeenThroughout(entry: ModelEntry, snapshots: seq<Rows>, key: int) {
    forall q :: 0 <= q < |snapshots| ==> Scannable(entry, snapshots[q], key)
  }

  /** Every row in (start, upTo] that all the queries could see has been emitted. */
  ghost predicate Covers(entry: ModelEntry, start: int, upTo: int, snapshots: seq<Rows>, items: seq<Item>) {
    forall key :: start < key <= upTo && SeenThroughout(entry, snapshots, key) ==> HasKey(items, key)
  }

  /** The items are exactly the scannable rows above the start, each once, in key order. */
  ghost predicate IsWholeTable(entry: ModelEntry, rows: Rows, start: int, items: seq<Item>) {
    && Ordered(items)
    && (forall i :: 0 <= i < |items| ==>
          items[i].key > start && Scannable(entry, rows, items[i].key) && rows[items[i].key] == items[i].record)
    && (forall key :: start < key && Scannable(entry, rows, key) ==> HasKey(items, key))
  }

  /** The first `n` rows of a page, as they are emitted. */
  lemma PageItems(entry: ModelEntry, checkpoint: int, rows: Rows, page: seq<int>, n: nat)
    requires KeysFit(rows) && n <= |page| && page <= Above(entry, rows, checkpoint + 1)
    requires forall i :: 0 <= i < |page| ==> page[i] in rows
    ensures var more := Items(rows, page)[..n];
            && Ordered(more)
            && forall i :: 0 <= i < n ==>
                 more[i].key > checkpoint && Scannable(entry, rows, more[i].key) && more[i].record == rows[more[i].key]
  {
    AboveIsExact(entry, rows, checkpoint + 1);
    var all, more := Above(entry, rows, checkpoint + 1), Items(rows, page)[..n];
    assert forall i :: 0 <= i < n ==> more[i].key == all[i] && all[i] in all;
  }

  lemma OrderedAppend(items: seq<Item>, more: seq<Item>, checkpoint: int)
    requires Ordered(items) && Ordered(more) && (items != [] ==> items[|items| - 1].key <= checkpoint)
    requires forall i :: 0 <= i < |more| ==> more[i].key > checkpoint
    ensures Ordered(items + more)
  {
    forall i, j | 0 <= i < j < |items + more| ensures (items + more)[i].key < (items + more)[j].key {
      if i < |items| <= j {
        assert items[i].key <= items[|items| - 1].key;
      }
    }
  }

  /** A page extends what has been emitted, up to its own last key. */
  lemma PageExtends(entry: ModelEntry, start: int, checkpoint: int, snapshots: seq<Rows>, items: seq<Item>,
                    rows: Rows, page: seq<int>, n: nat)
    requires KeysFit(rows) && start <= checkpoint && n <= |page|
    requires page <= Above(entry, rows, checkpoint + 1)
    requires forall i :: 0 <= i < |page| ==> page[i] in rows
    requires Emits(entry, start, snapshots, items) && (items != [] ==> items[|items| - 1].key <= checkpoint)
    ensures Emits(entry, start, snapshots + [rows], items + Items(rows, page)[..n])
  {
    var more := Items(rows, page)[..n];
    var items', snapshots' := items + more, snapshots + [rows];
    PageItems(entry, checkpoint, rows, page, n);
    OrderedAppend(items, more, checkpoint);
    forall i | 0 <= i < |items'|
      ensures items'[i].key > start
      ensures exists q ::
                && 0 <= q < |snapshots'| && Scannable(entry, snapshots'[q], items'[i].key)
                && snapshots'[q][items'[i].key] == items'[i].record
    {
      if i < |items| {
        var q :| 0 <= q < |snapshots| && Scannable(entry, snapshots[q], items[i].key)
                 && snapshots[q][items[i].key] == items[i].record;
        assert snapshots'[q] == snapshots[q];
      } else {
        assert snapshots'[|snapshots|] == rows;
      }
    }
  }

  lemma PageCovers(entry: ModelEntry, start: int, checkpoint: int, upTo: int, snapshots: seq<Rows>, items: seq<Item>,
                   rows: Rows, page: seq<int>)
    requires KeysFit(rows) && start <= checkpoint
    requires page <= Above(entry, rows, checkpoint + 1)
    requires page == Above(entry, rows, checkpoint + 1) || (page != [] && upTo <= page[|page| - 1])
    requires forall i :: 0 <= i < |page| ==> page[i] in rows
    requires Covers(entry, start, checkpoint, snapshots, items)
    ensures Covers(entry, start, upTo, snapshots + [rows], items + Items(rows, page))
  {
    AboveIsExact(entry, rows, checkpoint + 1);
    var all := Above(entry, rows, checkpoint + 1);
    var items', snapshots' := items + Items(rows, page), snapshots + [rows];
    forall key | start < key <= upTo && SeenThroughout(entry, snapshots', key)
      ensures HasKey(items', key)
    {
      assert forall q :: 0 <= q < |snapshots| ==> snapshots'[q] == snapshots[q];
      assert SeenThroughout(entry, snapshots, key);
      assert snapshots'[|snapshots|] == rows;
      if key <= checkpoint {
        var i :| 0 <= i < |items| && items[i].key == key;
        assert items'[i].key == key;
      } else {
        var i :| 0 <= i < |all| && all[i] == key;
        assert i < |page|;
        assert items'[|items| + i].key == page[i] == key;
      }
    }
  }
}
