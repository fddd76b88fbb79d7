/** Rows delivered once each, but not in the order of their ids: when the documents are all the same
    those of delivering them in order. */
module Reordering {
  import opened Wrappers
  import opened Documents
  import opened Fields
  import opened Redelivery

  /** What each row asks to deliver. */
  type Contents = map<int, Operation>

  function OpsAt(rows: Contents, ids: seq<int>): (ops: seq<Operation>)
    requires forall i :: 0 <= i < |ids| ==> ids[i] in rows
    ensures |ops| == |ids|
    ensures forall i :: 0 <= i < |ids| ==> ops[i] == rows[ids[i]]
  {
    seq(|ids|, i requires 0 <= i < |ids| => rows[ids[i]])
  }

  ghost predicate Ascending(ids: seq<int>) {
    forall i, j :: 0 <= i < j < |ids| ==> ids[i] < ids[j]
  }

  /** `order` has the rows of `sorted`, once each, in whatever order. */
  ghost predicate Rearranges(rows: Contents, order: seq<int>, sorted: seq<int>) {
    && (forall i, j :: 0 <= i < j < |order| ==> order[i] != order[j])
    && (forall i :: 0 <= i < |order| ==> order[i] in rows)
    && (forall i :: 0 <= i < |sorted| ==> sorted[i] in rows)
    && Ascending(sorted)
    && (forall id :: id in sorted <==> id in order)
  }

  /** Some row about this document comes after a later row about it. */
  ghost predicate OutOfOrder(rows: Contents, order: seq<int>, key: Key)
    requires forall i :: 0 <= i < |order| ==> order[i] in rows
  {
    exists i, j :: 0 <= i < j < |order| && order[i] > order[j] && rows[order[i]].key == key && rows[order[j]].key == key
  }

  // --- One document at a time ---

  /** The rows about one document. */
  function About(rows: Contents, ids: seq<int>, key: Key): (about: seq<int>)
    requires forall i :: 0 <= i < |ids| ==> ids[i] in rows
    ensures forall i :: 0 <= i < |about| ==> about[i] in rows
  {
    if ids == [] then []
    else (if rows[ids[0]].key == key then [ids[0]] else []) + About(rows, ids[1..], key)
  }

  lemma {:induction false} AboutIs(rows: Contents, ids: seq<int>, key: Key)
    requires forall i :: 0 <= i < |ids| ==> ids[i] in rows
    ensures forall id :: id in About(rows, ids, key) <==> id in ids && rows[id].key == key
    decreases |ids|
  {
    if ids != [] {
      AboutIs(rows, ids[1..], key);
      assert ids == [ids[0]] + ids[1..];
    }
  }

  lemma {:induction false} AboutAscends(rows: Contents, ids: seq<int>, key: Key)
    requires forall i :: 0 <= i < |ids| ==> ids[i] in rows
    requires forall i, j :: 0 <= i < j < |ids| ==> ids[i] != ids[j]
    requires !OutOfOrder(rows, ids, key)
    ensures Ascending(About(rows, ids, key))
    decreases |ids|
  {
    if ids != [] {
      var rest := ids[1..];
      assert forall i :: 0 <= i < |rest| ==> rest[i] == ids[i + 1];
      AboutAscends(rows, rest, key);
      AboutIs(rows, rest, key);
      var later := About(rows, rest, key);
      forall k | 0 <= k < |later| && rows[ids[0]].key == key ensures ids[0] < later[k] {
        assert later[k] in later;
        var j :| 0 <= j < |rest| && rest[j] == later[k];
        assert ids[j + 1] == later[k];
      }
    }
  }

  lemma {:induction false} SameAscending(a: seq<int>, b: seq<int>)
    requires Ascending(a) && Ascending(b) && forall id :: id in a <==> id in b
    ensures a == b
    decreases |a|
  {
    assert b == [] || b[0] in b;
    if a != [] {
      assert a[0] in a;
      var i :| 0 <= i < |b| && b[i] == a[0];
      var j :| 0 <= j < |a| && a[j] == b[0];
      assert a[0] <= a[j] && b[0] <= b[i];
      assert a == [a[0]] + a[1..] && b == [b[0]] + b[1..];
      forall id ensures id in a[1..] <==> id in b[1..] {
        assert id in a[1..] ==> id in a && id != a[0];
        assert id in b[1..] ==> id in b && id != b[0];
      }
      SameAscending(a[1..], b[1..]);
    }
  }

  lemma {:induction false} SummaryOfAbout(rows: Contents, ids: seq<int>, key: Key)
    requires forall i :: 0 <= i < |ids| ==> ids[i] in rows
    ensures Summary(OpsAt(rows, ids), key) == Summary(OpsAt(rows, About(rows, ids, key)), key)
    decreases |ids|
  {
    if ids != [] {
      AboutIs(rows, ids[1..], key);
      var rest := About(rows, ids[1..], key);
      assert forall i :: 0 <= i < |rest| ==> rest[i] in rest;
      SummaryOfAbout(rows, ids[1..], key);
      assert OpsAt(rows, ids)[1..] == OpsAt(rows, ids[1..]);
      if rows[ids[0]].key == key {
        assert About(rows, ids, key) == [ids[0]] + rest;
        assert OpsAt(rows, [ids[0]] + rest)[1..] == OpsAt(rows, rest);
      } else {
        assert About(rows, ids, key) == rest;
        NothingFirst(Summary(OpsAt(rows, ids[1..]), key));
      }
    }
  }

  /** A document none of whose rows came out of order has the summary of the undisturbed order. */
  lemma SameInOrder(rows: Contents, order: seq<int>, sorted: seq<int>, key: Key)
    requires Rearranges(rows, order, sorted)
    requires !OutOfOrder(rows, order, key)
    ensures Summary(OpsAt(rows, order), key) == Summary(OpsAt(rows, sorted), key)
  {
    AboutIs(rows, order, key);
    AboutIs(rows, sorted, key);
    AboutAscends(rows, order, key);
    AboutAscends(rows, sorted, key);
    var mine := About(rows, order, key);
    SameAscending(mine, About(rows, sorted, key));
    assert forall i :: 0 <= i < |mine| ==> mine[i] in mine;
    SummaryOfAbout(rows, order, key);
    SummaryOfAbout(rows, sorted, key);
  }

  // --- Rows in another order ---

  lemma {:induction false} MergesOnly(ops: seq<Operation>, key: Key)
    requires forall op | op in ops :: EffectOf(op, key).Merge?
    ensures Summary(ops, key).Merge?
    ensures forall f :: f in Summary(ops, key).fields ==> exists op :: op in ops && f in EffectOf(op, key).fields
  {
    if ops != [] {
      MergesOnly(ops[1..], key);
      var first, rest := EffectOf(ops[0], key).fields, Summary(ops[1..], key).fields;
      assert Summary(ops, key) == Merge(first + rest);
      assert ops[0] in ops;
      forall f | f in first + rest ensures exists op :: op in ops && f in EffectOf(op, key).fields {
        if f in rest {
          var op :| op in ops[1..] && f in EffectOf(op, key).fields;
          assert op in ops;
        }
      }
    }
  }

  /** Rearranging rows keeps whether they replace the document, and which fields they write. */
  lemma SameShape(a: seq<Operation>, b: seq<Operation>, key: Key)
    requires forall op :: op in a <==> op in b
    ensures Summary(a, key).Merge? <==> Summary(b, key).Merge?
    ensures Summary(a, key).Merge? ==> Summary(a, key).fields.Keys == Summary(b, key).fields.Keys
  {
    SameShapeFrom(a, b, key);
    SameShapeFrom(b, a, key);
  }

  lemma SameShapeFrom(a: seq<Operation>, b: seq<Operation>, key: Key)
    requires forall op :: op in a <==> op in b
    ensures Summary(a, key).Merge? ==>
              Summary(b, key).Merge? && Summary(b, key).fields.Keys <= Summary(a, key).fields.Keys
  {
    if Summary(a, key).Merge? {
      forall op | op in a
        ensures EffectOf(op, key).Merge? && EffectOf(op, key).fields.Keys <= Summary(a, key).fields.Keys
      {
        SummaryCovers(op, a, key);
      }
      MergesOnly(b, key);
    }
  }

  /** Two summaries leave the same document: they are the same, or only merge into a missing one. */
  predicate SameEffect(a: Effect, b: Effect, doc: Option<Doc>) {
    a == b || (a.Merge? && b.Merge? && doc.None?)
  }

  lemma SameEffectIff(a: Effect, b: Effect, doc: Option<Doc>)
    requires a.Merge? <==> b.Merge?
    requires a.Merge? ==> a.fields.Keys == b.fields.Keys
    ensures Run(a, doc) == Run(b, doc) <==> SameEffect(a, b, doc)
  {
    if a.Merge? && doc.Some? && doc.value + a.fields == doc.value + b.fields {
      forall f | f in a.fields ensures a.fields[f] == b.fields[f] {
        assert (doc.value + a.fields)[f] == (doc.value + b.fields)[f];
      }
      assert a.fields == b.fields;
    }
  }

  /** Rows delivered in any order leave the documents of delivering them in id order if and only if, for
      each document some row of which came out of order, its rows leave the same of it in both orders: the
      document deleted, or in each field the value of the last row to write it since the document was last
      replaced. */
  lemma ReorderingShowsIff(docs: Docs, rows: Contents, order: seq<int>, sorted: seq<int>)
    requires Rearranges(rows, order, sorted)
    ensures PerformAll(docs, OpsAt(rows, order)) == PerformAll(docs, OpsAt(rows, sorted))
        <==> forall key :: OutOfOrder(rows, order, key) ==>
               LeaveTheSame(OpsAt(rows, order), OpsAt(rows, sorted), key, Lookup(docs, key))
  {
    var a, b := OpsAt(rows, order), OpsAt(rows, sorted);
    SameOps(rows, order, sorted);
    forall key
      ensures Lookup(PerformAll(docs, a), key) == Lookup(PerformAll(docs, b), key)
          <==> LeaveTheSame(a, b, key, Lookup(docs, key))
      ensures !OutOfOrder(rows, order, key) ==> LeaveTheSame(a, b, key, Lookup(docs, key))
    {
      PerformAllRuns(docs, a, key);
      PerformAllRuns(docs, b, key);
      SameShape(a, b, key);
      SameEffectIff(Summary(a, key), Summary(b, key), Lookup(docs, key));
      SummariesLeaveTheSame(a, b, key, Lookup(docs, key));
      if !OutOfOrder(rows, order, key) {
        SameInOrder(rows, order, sorted, key);
      }
    }
    if forall key :: OutOfOrder(rows, order, key) ==> LeaveTheSame(a, b, key, Lookup(docs, key)) {
      SameDocs(PerformAll(docs, a), PerformAll(docs, b));
    }
  }

  lemma SameOps(rows: Contents, order: seq<int>, sorted: seq<int>)
    requires Rearranges(rows, order, sorted)
    ensures forall op :: op in OpsAt(rows, order) <==> op in OpsAt(rows, sorted)
  {
    OpsWithin(rows, order, sorted);
    OpsWithin(rows, sorted, order);
  }

  lemma OpsWithin(rows: Contents, a: seq<int>, b: seq<int>)
    requires forall i :: 0 <= i < |a| ==> a[i] in rows
    requires forall i :: 0 <= i < |b| ==> b[i] in rows
    requires forall id :: id in a ==> id in b
    ensures forall op :: op in OpsAt(rows, a) ==> op in OpsAt(rows, b)
  {
    forall op | op in OpsAt(rows, a) ensures op in OpsAt(rows, b) {
      var i :| 0 <= i < |a| && OpsAt(rows, a)[i] == op;
      var id := a[i];
      assert id in a;
      var j :| 0 <= j < |b| && b[j] == id;
      assert OpsAt(rows, b)[j] == op;
    }
  }
}
