/** At-least-once delivery: which repeated deliveries leave the documents as if every row
    had been delivered once, in order. */
module Redelivery {
  import opened Wrappers
  import opened Documents

  /** An operation that occurs again in what follows leaves no trace of its early delivery. */
  lemma {:induction false} EarlyEffectAbsorbed(op: Operation, ops: seq<Operation>, key: Key, doc: Option<Doc>)
    requires op in ops
    ensures Run(Summary(ops, key), Run(EffectOf(op, key), doc)) == Run(Summary(ops, key), doc)
    decreases |ops|
  {
    var head, rest := EffectOf(ops[0], key), Summary(ops[1..], key);
    var early := EffectOf(op, key);
    ThenRuns(head, rest, Run(early, doc));
    ThenRuns(head, rest, doc);
    if op == ops[0] {
      if early.Merge? && doc.Some? {
        assert doc.value + early.fields + early.fields == doc.value + early.fields;
      }
    } else if head.Merge? {
      EarlyEffectAbsorbed(op, ops[1..], key, Run(head, doc));
      SwapUnderSummary(op, head, ops[1..], key, doc);
    }
  }

  /** Under a summary that contains `op`, the order of `op` and an earlier merge is invisible. */
  lemma {:induction false} SwapUnderSummary(op: Operation, other: Effect, ops: seq<Operation>, key: Key,
                                            doc: Option<Doc>)
    requires op in ops && other.Merge?
    ensures Run(Summary(ops, key), Run(other, Run(EffectOf(op, key), doc)))
         == Run(Summary(ops, key), Run(EffectOf(op, key), Run(other, doc)))
    decreases |ops|
  {
    var summary := Summary(ops, key);
    SummaryCovers(op, ops, key);
    if summary.Merge? && doc.Some? {
      var fields := EffectOf(op, key).fields;
      assert doc.value + fields + other.fields + summary.fields == doc.value + other.fields + fields + summary.fields;
    }
  }

  /** A summary that only merges still writes every field any of its updates writes. */
  lemma {:induction false} SummaryCovers(op: Operation, ops: seq<Operation>, key: Key)
    requires op in ops
    ensures Summary(ops, key).Merge? ==>
              EffectOf(op, key).Merge? && EffectOf(op, key).fields.Keys <= Summary(ops, key).fields.Keys
  {
    if op != ops[0] {
      SummaryCovers(op, ops[1..], key);
    }
  }

  /** Whatever is delivered beforehand, in any order and any number of times, one complete
      pass over the rows in order decides the documents. */
  lemma {:induction false} CompletePassDecides(docs: Docs, early: seq<Operation>, ops: seq<Operation>)
    requires forall op | op in early :: op in ops
    ensures PerformAll(docs, early + ops) == PerformAll(docs, ops)
    decreases |early|
  {
    if early == [] {
      assert early + ops == ops;
    } else {
      assert (early + ops)[1..] == early[1..] + ops;
      CompletePassDecides(Perform(docs, early[0]), early[1..], ops);
      forall key ensures Lookup(PerformAll(Perform(docs, early[0]), ops), key) == Lookup(PerformAll(docs, ops), key) {
        PerformAllRuns(Perform(docs, early[0]), ops, key);
        PerformAllRuns(docs, ops, key);
        PerformRuns(docs, early[0], key);
        EarlyEffectAbsorbed(early[0], ops, key, Lookup(docs, key));
      }
      SameDocs(PerformAll(Perform(docs, early[0]), ops), PerformAll(docs, ops));
    }
  }

  /** Delivering any sequence of rows twice in order gives the same documents as once. */
  lemma TwiceIsOnce(docs: Docs, ops: seq<Operation>)
    ensures PerformAll(PerformAll(docs, ops), ops) == PerformAll(docs, ops)
  {
    PerformAllAppend(docs, ops, ops);
    CompletePassDecides(docs, ops, ops);
  }

  // --- What a delivery leaves when it comes late ---

  predicate Contains(doc: Doc, fields: Doc) {
    forall f :: f in fields ==> f in doc && doc[f] == fields[f]
  }

  predicate Compatible(a: Doc, b: Doc) {
    forall f :: f in a && f in b ==> a[f] == b[f]
  }

  /** What `effect` did to the document still stands once `later` has run on it. */
  predicate Survives(effect: Effect, later: Effect, doc: Option<Doc>) {
    match effect
    case Replace(None) => later.Merge? || later.result.None?
    case Replace(Some(result)) =>
      (match later
       case Replace(other) => other == effect.result
       case Merge(fields) => Contains(result, fields))
    case Merge(fields) =>
      match later
      case Replace(None) => true
      case Replace(Some(other)) => Contains(other, fields)
      case Merge(others) => doc.None? || Compatible(fields, others)
  }

  lemma MergeChangesNothingIff(doc: Doc, fields: Doc)
    ensures doc + fields == doc <==> Contains(doc, fields)
  {
    if doc + fields == doc {
      forall f | f in fields ensures f in doc && doc[f] == fields[f] {
        assert (doc + fields)[f] == fields[f];
      }
    }
  }

  lemma MergesCommuteIff(doc: Doc, a: Doc, b: Doc)
    ensures doc + a + b == doc + b + a <==> Compatible(a, b)
  {
    if doc + a + b == doc + b + a {
      forall f | f in a && f in b ensures a[f] == b[f] {
        assert (doc + a + b)[f] == b[f] && (doc + b + a)[f] == a[f];
      }
    }
  }

  /** An effect that comes after a later one, instead of before it, makes no difference if and only if
      it would have survived; and the same holds if it comes both before and after. */
  lemma LateEffectIff(effect: Effect, later: Effect, doc: Option<Doc>)
    ensures Run(effect, Run(later, doc)) == Run(later, Run(effect, doc)) <==> Survives(effect, later, doc)
    ensures Run(effect, Run(later, Run(effect, doc))) == Run(later, Run(effect, doc)) <==> Survives(effect, later, doc)
  {
    match (effect, later) {
      case (Replace(result), Merge(fields)) =>
        if result.Some? {
          MergeChangesNothingIff(result.value, fields);
        }
      case (Merge(fields), Replace(result)) =>
        if result.Some? {
          MergeChangesNothingIff(result.value, fields);
        }
      case (Merge(fields), Merge(others)) =>
        if doc.Some? {
          MergesCommuteIff(doc.value, fields, others);
          assert doc.value + fields + others + fields == doc.value + others + fields;
        }
      case (Replace(_), Replace(_)) =>
    }
  }

  // --- Late duplicates ---

  /** What a second, late delivery of `op` does to its document once `later` rows have run. */
  lemma LateDelivery(docs: Docs, before: seq<Operation>, op: Operation, later: seq<Operation>, key: Key)
    returns (reached: Option<Doc>)
    ensures reached == Run(Summary(later, key), Run(EffectOf(op, key), Lookup(PerformAll(docs, before), key)))
    ensures Lookup(PerformAll(docs, before + [op] + later), key) == reached
    ensures Lookup(PerformAll(docs, before + [op] + later + [op]), key) == Run(EffectOf(op, key), reached)
  {
    var base := PerformAll(docs, before);
    assert before + [op] + later == before + ([op] + later);
    PerformAllAppend(docs, before, [op] + later);
    PerformAllAppend(docs, before + [op] + later, [op]);
    assert [op][1..] == [];
    assert ([op] + later)[1..] == later;
    PerformAllRuns(base, [op] + later, key);
    ThenRuns(EffectOf(op, key), Summary(later, key), Lookup(base, key));
    reached := Run(Summary(later, key), Run(EffectOf(op, key), Lookup(base, key)));
    PerformRuns(PerformAll(docs, before + [op] + later), op, key);
  }

  lemma NothingMerged(doc: Option<Doc>)
    ensures Run(Merge(map[]), doc) == doc
  {
    if doc.Some? {
      assert doc.value + map[] == doc.value;
    }
  }

  /** A row that is delivered again after later rows (its first holder outlived its lease) is harmless
      exactly when what its first delivery did to the document survives them. */
  lemma LateDuplicateHarmlessIff(docs: Docs, before: seq<Operation>, op: Operation, later: seq<Operation>)
    ensures PerformAll(docs, before + [op] + later + [op]) == PerformAll(docs, before + [op] + later)
        <==> Survives(EffectOf(op, op.key), Summary(later, op.key), Lookup(PerformAll(docs, before), op.key))
  {
    var twice, once := PerformAll(docs, before + [op] + later + [op]), PerformAll(docs, before + [op] + later);
    var own := LateDelivery(docs, before, op, later, op.key);
    LateEffectIff(EffectOf(op, op.key), Summary(later, op.key), Lookup(PerformAll(docs, before), op.key));
    if Run(EffectOf(op, op.key), own) == own {
      forall key ensures Lookup(twice, key) == Lookup(once, key) {
        var reached := LateDelivery(docs, before, op, later, key);
        NothingMerged(reached);
      }
      SameDocs(twice, once);
    } else {
      assert Lookup(twice, op.key) != Lookup(once, op.key);
    }
  }

  /** A row that is only delivered after later rows (its first holder died before sending it) is
      harmless in the same case. */
  lemma LateRowHarmlessIff(docs: Docs, before: seq<Operation>, op: Operation, later: seq<Operation>)
    ensures PerformAll(docs, before + later + [op]) == PerformAll(docs, before + [op] + later)
        <==> Survives(EffectOf(op, op.key), Summary(later, op.key), Lookup(PerformAll(docs, before), op.key))
  {
    var base := PerformAll(docs, before);
    var late, timely := PerformAll(docs, before + later + [op]), PerformAll(docs, before + [op] + later);
    PerformAllAppend(docs, before + later, [op]);
    PerformAllAppend(docs, before, later);
    assert [op][1..] == [];
    LateEffectIff(EffectOf(op, op.key), Summary(later, op.key), Lookup(base, op.key));
    forall key
      ensures Lookup(late, key) == Run(EffectOf(op, key), Run(Summary(later, key), Lookup(base, key)))
      ensures Lookup(timely, key) == Run(Summary(later, key), Run(EffectOf(op, key), Lookup(base, key)))
    {
      PerformAllRuns(base, later, key);
      PerformRuns(PerformAll(base, later), op, key);
      var reached := LateDelivery(docs, before, op, later, key);
    }
    if Lookup(late, op.key) == Lookup(timely, op.key) {
      forall key ensures Lookup(late, key) == Lookup(timely, key) {
        NothingMerged(Lookup(base, key));
        NothingMerged(Run(Summary(later, key), Lookup(base, key)));
      }
      SameDocs(late, timely);
    }
  }

  /** In particular when no later row touches the same document. */
  lemma LateDuplicateOfUntouchedDocument(docs: Docs, before: seq<Operation>, op: Operation, later: seq<Operation>)
    requires forall other | other in later :: other.key != op.key
    ensures PerformAll(docs, before + [op] + later + [op]) == PerformAll(docs, before + [op] + later)
  {
    UntouchedSummary(later, op.key);
    LateDuplicateHarmlessIff(docs, before, op, later);
  }

  lemma {:induction false} UntouchedSummary(ops: seq<Operation>, key: Key)
    requires forall op | op in ops :: op.key != key
    ensures Summary(ops, key) == Merge(map[])
  {
    if ops != [] {
      UntouchedSummary(ops[1..], key);
      var none: Doc := map[];
      assert none + none == none;
    }
  }

  /** The program's README promises that repeated delivery converges; a late duplicate behind a newer
      version of the same document does not. */
  lemma LateDuplicateReverts()
    ensures exists docs: Docs, stale: Operation, newer: Operation ::
              stale.key == newer.key && PerformAll(docs, [stale, newer, stale]) != PerformAll(docs, [stale, newer])
  {
    var key := Key("articles", "1");
    var stale := Operation(key, Index, map["title" := Text("draft")]);
    var newer := Operation(key, Index, map["title" := Text("final")]);
    LateDuplicateHarmlessIff(map[], [], stale, [newer]);
    assert [newer][1..] == [];
    assert [] + [stale] + [newer] + [stale] == [stale, newer, stale];
    assert [] + [stale] + [newer] == [stale, newer];
    assert stale.fields["title"] != newer.fields["title"];
  }
}
