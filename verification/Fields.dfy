/** What a sequence of operations leaves of one document, field by field: the last operation that replaces
    or removes the document, and for each field the last one that writes it since. */
module Fields {
  import opened Wrappers
  import opened Documents

  /** The operation replaces or removes the document. */
  predicate WholeOn(op: Operation, key: Key) {
    op.key == key && (op.action.Index? || op.action.Delete?)
  }

  predicate WritesField(op: Operation, key: Key, field: string) {
    op.key == key && (op.action.Index? || op.action.Update?) && field in op.fields
  }

  function LastWhole(ops: seq<Operation>, key: Key): (w: int)
    ensures -1 <= w < |ops| && (w >= 0 ==> WholeOn(ops[w], key))
    ensures forall k :: w < k < |ops| ==> !WholeOn(ops[k], key)
  {
    if ops == [] then -1
    else if WholeOn(ops[|ops| - 1], key) then |ops| - 1
    else LastWhole(ops[..|ops| - 1], key)
  }

  function LastWriter(ops: seq<Operation>, key: Key, field: string): (i: int)
    ensures -1 <= i < |ops| && (i >= 0 ==> WritesField(ops[i], key, field))
    ensures forall k :: i < k < |ops| ==> !WritesField(ops[k], key, field)
  {
    if ops == [] then -1
    else if WritesField(ops[|ops| - 1], key, field) then |ops| - 1
    else LastWriter(ops[..|ops| - 1], key, field)
  }

  predicate Deletes(ops: seq<Operation>, key: Key) {
    LastWhole(ops, key) >= 0 && ops[LastWhole(ops, key)].action.Delete?
  }

  /** The value that the last writer of a field leaves, unless the document was replaced after it. */
  function ValueLeft(ops: seq<Operation>, key: Key, field: string): Option<Value> {
    var i := LastWriter(ops, key, field);
    if i >= 0 && i >= LastWhole(ops, key) then Some(ops[i].fields[field]) else None
  }

  /** Both leave the document deleted, or the same value in each field; or neither replaces it, and it does
      not exist. */
  ghost predicate LeaveTheSame(a: seq<Operation>, b: seq<Operation>, key: Key, doc: Option<Doc>) {
    || (LastWhole(a, key) < 0 && LastWhole(b, key) < 0 && doc.None?)
    || (Deletes(a, key) && Deletes(b, key))
    || (!Deletes(a, key) && !Deletes(b, key) && forall field :: ValueLeft(a, key, field) == ValueLeft(b, key, field))
  }

  // --- Against the summary ---

  function FieldOf(effect: Effect, field: string): Option<Value> {
    match effect
    case Merge(fields) => if field in fields then Some(fields[field]) else None
    case Replace(None) => None
    case Replace(Some(doc)) => if field in doc then Some(doc[field]) else None
  }

  lemma ThenAssociates(a: Effect, b: Effect, c: Effect)
    ensures Then(Then(a, b), c) == Then(a, Then(b, c))
  {
    if b.Merge? && c.Merge? {
      match a {
        case Replace(None) =>
        case Replace(Some(doc)) => assert doc + b.fields + c.fields == doc + (b.fields + c.fields);
        case Merge(fields) => assert fields + b.fields + c.fields == fields + (b.fields + c.fields);
      }
    }
  }

  lemma {:induction false} SummaryOneMore(ops: seq<Operation>, op: Operation, key: Key)
    ensures Summary(ops + [op], key) == Then(Summary(ops, key), EffectOf(op, key))
    decreases |ops|
  {
    if ops == [] {
      assert [] + [op] == [op] && [op][1..] == [];
      NothingFirst(EffectOf(op, key));
      NothingLast(EffectOf(op, key));
    } else {
      assert (ops + [op])[1..] == ops[1..] + [op];
      SummaryOneMore(ops[1..], op, key);
      ThenAssociates(EffectOf(ops[0], key), Summary(ops[1..], key), EffectOf(op, key));
    }
  }

  lemma NothingLast(effect: Effect)
    ensures Then(effect, Merge(map[])) == effect
  {
    match effect
    case Merge(fields) => assert fields + map[] == fields;
    case Replace(None) =>
    case Replace(Some(doc)) => assert doc + map[] == doc;
  }

  ghost predicate Shows(ops: seq<Operation>, key: Key, effect: Effect) {
    && (effect.Merge? <==> LastWhole(ops, key) < 0)
    && (effect == Replace(None) <==> Deletes(ops, key))
    && (!Deletes(ops, key) ==> forall field :: FieldOf(effect, field) == ValueLeft(ops, key, field))
  }

  lemma ShowsOneMore(ops: seq<Operation>, op: Operation, key: Key, effect: Effect)
    requires Shows(ops, key, effect)
    ensures Shows(ops + [op], key, Then(effect, EffectOf(op, key)))
  {
    var all, effect' := ops + [op], Then(effect, EffectOf(op, key));
    WholeOneMore(ops, op, key);
    EffectOneMore(effect, op, key);
    if !Deletes(all, key) {
      forall field ensures FieldOf(effect', field) == ValueLeft(all, key, field) {
        FieldOneMore(effect, op, key, field);
        ValueOneMore(ops, op, key, field);
        assert !Deletes(ops, key) ==> FieldOf(effect, field) == ValueLeft(ops, key, field);
      }
    }
  }

  lemma WholeOneMore(ops: seq<Operation>, op: Operation, key: Key)
    ensures LastWhole(ops + [op], key) == if WholeOn(op, key) then |ops| else LastWhole(ops, key)
    ensures Deletes(ops + [op], key) <==> if WholeOn(op, key) then op.action.Delete? else Deletes(ops, key)
  {
    assert (ops + [op])[..|ops|] == ops && (ops + [op])[|ops|] == op;
  }

  lemma EffectOneMore(effect: Effect, op: Operation, key: Key)
    ensures Then(effect, EffectOf(op, key)).Merge? <==> effect.Merge? && !WholeOn(op, key)
    ensures Then(effect, EffectOf(op, key)) == Replace(None) <==>
            if WholeOn(op, key) then op.action.Delete? else effect == Replace(None)
  {
  }

  lemma FieldOneMore(effect: Effect, op: Operation, key: Key, field: string)
    requires effect != Replace(None) || WholeOn(op, key)
    ensures FieldOf(Then(effect, EffectOf(op, key)), field) ==
            if WritesField(op, key, field) then Some(op.fields[field])
            else if WholeOn(op, key) then None
            else FieldOf(effect, field)
  {
    NothingLast(effect);
  }

  lemma ValueOneMore(ops: seq<Operation>, op: Operation, key: Key, field: string)
    ensures ValueLeft(ops + [op], key, field) ==
            if WritesField(op, key, field) then Some(op.fields[field])
            else if WholeOn(op, key) then None
            else ValueLeft(ops, key, field)
  {
    var all := ops + [op];
    assert all[..|ops|] == ops && all[|ops|] == op;
    assert LastWriter(ops, key, field) >= 0 ==> all[LastWriter(ops, key, field)] == ops[LastWriter(ops, key, field)];
  }

  /** A summary says, field by field, what the last writers leave. */
  lemma {:induction false} SummaryShows(ops: seq<Operation>, key: Key)
    ensures Shows(ops, key, Summary(ops, key))
    decreases |ops|
  {
    if ops != [] {
      var init, last := ops[..|ops| - 1], ops[|ops| - 1];
      SummaryShows(init, key);
      SummaryOneMore(init, last, key);
      ShowsOneMore(init, last, key, Summary(init, key));
      assert ops == init + [last];
    }
  }

  lemma SameFields(a: Doc, b: Doc)
    requires forall field :: FieldOf(Merge(a), field) == FieldOf(Merge(b), field)
    ensures a == b
  {
    forall field ensures field in a <==> field in b {
      assert FieldOf(Merge(a), field) == FieldOf(Merge(b), field);
    }
    forall field | field in a ensures a[field] == b[field] {
      assert FieldOf(Merge(a), field) == FieldOf(Merge(b), field);
    }
  }

  lemma SameEffects(a: Effect, b: Effect)
    requires (a.Merge? <==> b.Merge?) && (a == Replace(None) <==> b == Replace(None))
    requires forall field :: FieldOf(a, field) == FieldOf(b, field)
    ensures a == b
  {
    match (a, b) {
      case (Merge(x), Merge(y)) => SameFields(x, y);
      case (Replace(Some(x)), Replace(Some(y))) =>
        assert forall field :: FieldOf(Merge(x), field) == FieldOf(a, field);
        assert forall field :: FieldOf(Merge(y), field) == FieldOf(b, field);
        SameFields(x, y);
      case _ =>
    }
  }

  /** Operations of which both or neither replace the document leave the same of it by their summaries if
      and only if they do field by field. */
  lemma SummariesLeaveTheSame(a: seq<Operation>, b: seq<Operation>, key: Key, doc: Option<Doc>)
    requires Summary(a, key).Merge? <==> Summary(b, key).Merge?
    ensures Summary(a, key) == Summary(b, key) || (Summary(a, key).Merge? && doc.None?)
        <==> LeaveTheSame(a, b, key, doc)
  {
    SummaryShows(a, key);
    SummaryShows(b, key);
    if !Deletes(a, key) && !Deletes(b, key) && forall field :: ValueLeft(a, key, field) == ValueLeft(b, key, field) {
      forall field ensures FieldOf(Summary(a, key), field) == FieldOf(Summary(b, key), field) {
        assert FieldOf(Summary(a, key), field) == ValueLeft(a, key, field);
        assert FieldOf(Summary(b, key), field) == ValueLeft(b, key, field);
      }
      SameEffects(Summary(a, key), Summary(b, key));
    }
    if Summary(a, key) == Summary(b, key) && !Deletes(a, key) {
      forall field ensures ValueLeft(a, key, field) == ValueLeft(b, key, field) {
        assert FieldOf(Summary(a, key), field) == ValueLeft(a, key, field);
        assert FieldOf(Summary(b, key), field) == ValueLeft(b, key, field);
      }
    }
  }
}
