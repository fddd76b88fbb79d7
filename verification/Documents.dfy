/** Elasticsearch as the relay sees it: documents addressed by (alias, document id),
    and what the three outbox actions do to them. */
module Documents {
  import opened Wrappers

  datatype Value = Null | Text(text: string) | Moment(time: int)

  /** A document is a flat JSON object. */
  type Doc = map<string, Value>

  datatype Key = Key(alias: string, id: string)

  type Docs = map<Key, Doc>

  datatype Action = Index | Update | Delete | Other(name: string)

  /** One delivery: what an outbox row asks Elasticsearch to do. */
  datatype Operation = Operation(key: Key, action: Action, fields: Doc)

  function Lookup(docs: Docs, key: Key): Option<Doc> {
    if key in docs then Some(docs[key]) else None
  }

  /** `index` overwrites, `update` merges into an existing document, `delete` removes.
      An update or a delete of a missing document is answered 404 and changes nothing,
      and an action the relay does not know is never sent. */
  function Perform(docs: Docs, op: Operation): Docs {
    match op.action
    case Index => docs[op.key := op.fields]
    case Update => if op.key in docs then docs[op.key := docs[op.key] + op.fields] else docs
    case Delete => docs - {op.key}
    case Other(_) => docs
  }

  /** Whether the request finds what it needs, so that Elasticsearch does not answer 404. */
  predicate Hits(docs: Docs, op: Operation) {
    match op.action
    case Index => true
    case Update => op.key in docs
    case Delete => op.key in docs
    case Other(_) => false
  }

  function PerformAll(docs: Docs, ops: seq<Operation>): Docs
    decreases |ops|
  {
    if ops == [] then docs else PerformAll(Perform(docs, ops[0]), ops[1..])
  }

  lemma {:induction false} PerformAllAppend(docs: Docs, a: seq<Operation>, b: seq<Operation>)
    ensures PerformAll(docs, a + b) == PerformAll(PerformAll(docs, a), b)
    decreases |a|
  {
    if a == [] {
      assert a + b == b;
    } else {
      assert (a + b)[1..] == a[1..] + b;
      PerformAllAppend(Perform(docs, a[0]), a[1..], b);
    }
  }

  // --- What a sequence of deliveries does to one document ---

  /** The effect on one document: replace it outright, or merge fields into it if it exists. */
  datatype Effect = Replace(result: Option<Doc>) | Merge(fields: Doc)

  function Run(effect: Effect, doc: Option<Doc>): Option<Doc> {
    match effect
    case Replace(result) => result
    case Merge(fields) => if doc.Some? then Some(doc.value + fields) else None
  }

  function Then(first: Effect, second: Effect): Effect {
    match second
    case Replace(_) => second
    case Merge(fields) =>
      match first
      case Replace(result) => Replace(Run(second, result))
      case Merge(earlier) => Merge(earlier + fields)
  }

  function EffectOf(op: Operation, key: Key): Effect {
    if op.key != key then Merge(map[])
    else
      match op.action
      case Index => Replace(Some(op.fields))
      case Update => Merge(op.fields)
      case Delete => Replace(None)
      case Other(_) => Merge(map[])
  }

  function Summary(ops: seq<Operation>, key: Key): Effect {
    if ops == [] then Merge(map[]) else Then(EffectOf(ops[0], key), Summary(ops[1..], key))
  }

  lemma ThenRuns(first: Effect, second: Effect, doc: Option<Doc>)
    ensures Run(Then(first, second), doc) == Run(second, Run(first, doc))
  {
    if first.Merge? && second.Merge? && doc.Some? {
      assert doc.value + (first.fields + second.fields) == doc.value + first.fields + second.fields;
    }
  }

  lemma PerformRuns(docs: Docs, op: Operation, key: Key)
    ensures Lookup(Perform(docs, op), key) == Run(EffectOf(op, key), Lookup(docs, key))
  {
    if key in docs {
      assert docs[key] + map[] == docs[key];
    }
  }

  /** Each document evolves by its own summary: deliveries to different documents commute. */
  lemma {:induction false} PerformAllRuns(docs: Docs, ops: seq<Operation>, key: Key)
    ensures Lookup(PerformAll(docs, ops), key) == Run(Summary(ops, key), Lookup(docs, key))
    decreases |ops|
  {
    if ops == [] {
      if key in docs {
        assert docs[key] + map[] == docs[key];
      }
    } else {
      PerformRuns(docs, ops[0], key);
      PerformAllRuns(Perform(docs, ops[0]), ops[1..], key);
      ThenRuns(EffectOf(ops[0], key), Summary(ops[1..], key), Lookup(docs, key));
    }
  }

  lemma NothingFirst(effect: Effect)
    ensures Then(Merge(map[]), effect) == effect
  {
    if effect.Merge? {
      assert map[] + effect.fields == effect.fields;
    }
  }

  /** The operations on one alias, in their order. */
  function OnAlias(ops: seq<Operation>, alias: string): seq<Operation> {
    if ops == [] then []
    else if ops[0].key.alias == alias then [ops[0]] + OnAlias(ops[1..], alias)
    else OnAlias(ops[1..], alias)
  }

  lemma {:induction false} OnAliasAppend(a: seq<Operation>, b: seq<Operation>, alias: string)
    ensures OnAlias(a + b, alias) == OnAlias(a, alias) + OnAlias(b, alias)
    decreases |a|
  {
    if a == [] {
      assert a + b == b;
    } else {
      assert (a + b)[1..] == a[1..] + b;
      OnAliasAppend(a[1..], b, alias);
    }
  }

  lemma {:induction false} SummaryOnAlias(ops: seq<Operation>, key: Key)
    ensures Summary(ops, key) == Summary(OnAlias(ops, key.alias), key)
    decreases |ops|
  {
    if ops != [] {
      var rest := OnAlias(ops[1..], key.alias);
      SummaryOnAlias(ops[1..], key);
      if ops[0].key.alias == key.alias {
        assert ([ops[0]] + rest)[1..] == rest;
      } else {
        NothingFirst(Summary(rest, key));
      }
    }
  }

  /** Operations on other aliases, wherever they are mixed in, do not show in this one. */
  lemma AliasesAreSeparate(docs: Docs, ops: seq<Operation>, key: Key)
    ensures Lookup(PerformAll(docs, ops), key) == Lookup(PerformAll(docs, OnAlias(ops, key.alias)), key)
  {
    PerformAllRuns(docs, ops, key);
    PerformAllRuns(docs, OnAlias(ops, key.alias), key);
    SummaryOnAlias(ops, key);
  }

  lemma SameDocs(a: Docs, b: Docs)
    requires forall key :: Lookup(a, key) == Lookup(b, key)
    ensures a == b
  {
    forall key ensures key in a <==> key in b {
      assert Lookup(a, key) == Lookup(b, key);
    }
    forall key | key in a ensures a[key] == b[key] {
      assert Lookup(a, key) == Lookup(b, key);
    }
  }
}
