/** callback.go: which outbox events a database statement produces. */
module Callbacks {
  import opened Wrappers
  import opened Documents
  import opened Models

  /** A model instance as a callback sees it; primary key 0 means that it was never loaded. */
  datatype Instance = Instance(pk: int, columns: Doc)

  /** The kinds of statement with a callback. `changed` are the columns an update names; `deletedAt`
      is the clock reading afterDelete takes. */
  datatype Statement =
    | Create
    | Update(changed: Doc)
    | Remove(unscoped: bool, deletedAt: int)

  // --- Which models a statement is about ---

  predicate Identified(models: seq<Instance>) {
    forall i :: 0 <= i < |models| ==> models[i].pk != 0
  }

  /** modelsHavePrimaryIdentity */
  method ModelsHavePrimaryIdentity(models: seq<Instance>) returns (identified: bool)
    ensures identified <==> Identified(models)
  {
    for i := 0 to |models|
      invariant Identified(models[..i])
    {
      if models[i].pk == 0 {
        return false;
      }
    }
    assert models[..|models|] == models;
    identified := true;
  }

  /** The first candidate that names models all of which have a primary key. */
  function Resolve(candidates: seq<seq<Instance>>): Option<seq<Instance>> {
    if candidates == [] then None
    else if candidates[0] != [] && Identified(candidates[0]) then Some(candidates[0])
    else Resolve(candidates[1..])
  }

  ghost predicate FirstIdentified(candidates: seq<seq<Instance>>, k: int) {
    && 0 <= k < |candidates| && candidates[k] != [] && Identified(candidates[k])
    && forall j :: 0 <= j < k ==> candidates[j] == [] || !Identified(candidates[j])
  }

  lemma {:induction false} ResolveIsFirst(candidates: seq<seq<Instance>>)
    ensures Resolve(candidates).None? ==>
              forall j :: 0 <= j < |candidates| ==> candidates[j] == [] || !Identified(candidates[j])
    ensures Resolve(candidates).Some? ==>
            exists k :: FirstIdentified(candidates, k) && Resolve(candidates).value == candidates[k]
  {
    if candidates != [] && (candidates[0] == [] || !Identified(candidates[0])) {
      var rest := candidates[1..];
      ResolveIsFirst(rest);
      if Resolve(rest).Some? {
        var k :| FirstIdentified(rest, k) && Resolve(rest).value == rest[k];
        assert forall j :: 1 <= j < |candidates| ==> candidates[j] == rest[j - 1];
        assert FirstIdentified(candidates, k + 1);
      }
      assert Resolve(rest).None? ==> forall j :: 1 <= j < |candidates| ==> candidates[j] == rest[j - 1];
    } else if candidates != [] {
      assert FirstIdentified(candidates, 0);
    }
  }

  /** The first of `n` candidates that names any models at all. */
  ghost predicate FirstNamed(candidates: seq<seq<Instance>>, n: nat, models: seq<Instance>)
    requires n <= |candidates|
  {
    if models == [] then forall j :: 0 <= j < n ==> candidates[j] == []
    else exists k :: 0 <= k < n && candidates[k] == models && forall j :: 0 <= j < k ==> candidates[j] == []
  }

  /** resolveModelCandidates: the models, and whether their rows are known. */
  method ResolveModelCandidates(candidates: seq<seq<Instance>>) returns (models: seq<Instance>, identified: bool)
    ensures identified <==> Resolve(candidates).Some?
    ensures identified ==> models == Resolve(candidates).value
    ensures !identified ==> forall j :: 0 <= j < |candidates| && Identified(candidates[j]) ==> candidates[j] == []
    ensures !identified ==> FirstNamed(candidates, |candidates|, models)
  {
    models := [];
    for i := 0 to |candidates|
      invariant Resolve(candidates) == Resolve(candidates[i..])
      invariant forall j :: 0 <= j < i ==> candidates[j] == [] || !Identified(candidates[j])
      invariant FirstNamed(candidates, i, models)
    {
      assert candidates[i..][1..] == candidates[i + 1..];
      if candidates[i] == [] {
        continue;
      }
      if models == [] {
        models := candidates[i];
      }
      var known := ModelsHavePrimaryIdentity(candidates[i]);
      if known {
        return candidates[i], true;
      }
    }
    identified := false;
  }

  // --- The events ---

  function DocKey(entry: ModelEntry, pk: int): Key {
    Key(entry.indexName, entry.getId(pk))
  }

  /** afterCreate, afterUpdate and afterDelete for one model. */
  function EventFor(entry: ModelEntry, statement: Statement, model: Instance): Operation {
    var key := DocKey(entry, model.pk);
    match statement
    case Create => Operation(key, Index, Json(entry, Record(model.columns, None)))
    case Update(changed) =>
      if entry.fullDocUpdate || changed == map[] then
        Operation(key, Action.Index, Json(entry, Record(model.columns, None)))
      else
        Operation(key, Action.Update, changed)
    case Remove(unscoped, deletedAt) =>
      if entry.hasSoftDelete && !unscoped then
        match entry.softDeleteMode
        case SoftDeleteModeUpdate => Operation(key, Action.Update, map[DELETED_AT := Moment(deletedAt)])
        case SoftDeleteModeDelete => Operation(key, Delete, map[])
      else
        Operation(key, Delete, map[])
  }

  /** A create, or an update that sends the whole model, replaces the document by the model's columns, with
      deleted_at null where the model has soft deletion. */
  lemma DeliveredWhole(entry: ModelEntry, statement: Statement, model: Instance, docs: Docs)
    requires !statement.Remove?
    requires statement.Update? ==> entry.fullDocUpdate || statement.changed == map[]
    ensures var key := Key(entry.indexName, entry.getId(model.pk));
            var docs' := Perform(docs, EventFor(entry, statement, model));
            && docs' - {key} == docs - {key} && key in docs'
            && docs'[key].Keys == model.columns.Keys + (if entry.hasSoftDelete then {"deleted_at"} else {})
            && (entry.hasSoftDelete ==> docs'[key]["deleted_at"] == Null)
            && forall field :: field in model.columns && !(entry.hasSoftDelete && field == "deleted_at") ==>
                 docs'[key][field] == model.columns[field]
  {
  }

  /** Any other update writes exactly the columns it names, whatever the model in memory looks like. */
  lemma DeliveredChange(entry: ModelEntry, changed: Doc, model: Instance, docs: Docs)
    requires !entry.fullDocUpdate && changed != map[]
    ensures var key := Key(entry.indexName, entry.getId(model.pk));
            var docs' := Perform(docs, EventFor(entry, Statement.Update(changed), model));
            && docs' - {key} == docs - {key} && (key in docs' <==> key in docs)
            && (key in docs ==>
                  && docs'[key].Keys == docs[key].Keys + changed.Keys
                  && (forall field :: field in changed ==> docs'[key][field] == changed[field])
                  && forall field :: field in docs[key] && field !in changed ==> docs'[key][field] == docs[key][field])
  {
  }

  /** A soft deletion that is kept as a mark sets deleted_at and nothing else; every other deletion removes
      the document. */
  lemma DeliveredRemoval(entry: ModelEntry, unscoped: bool, deletedAt: int, model: Instance, docs: Docs)
    ensures var key := Key(entry.indexName, entry.getId(model.pk));
            var docs' := Perform(docs, EventFor(entry, Remove(unscoped, deletedAt), model));
            if entry.hasSoftDelete && !unscoped && entry.softDeleteMode.SoftDeleteModeUpdate? then
              if key in docs then docs' == docs[key := docs[key]["deleted_at" := Moment(deletedAt)]] else docs' == docs
            else
              docs' == docs - {key}
  {
    var key := Key(entry.indexName, entry.getId(model.pk));
    if key in docs {
      assert docs[key] + map[DELETED_AT := Moment(deletedAt)] == docs[key][DELETED_AT := Moment(deletedAt)];
    }
  }

  function EventsFor(entry: ModelEntry, statement: Statement, models: seq<Instance>): (events: seq<Operation>)
    ensures |events| == |models|
  {
    if models == [] then []
    else
      EventsFor(entry, statement, models[..|models| - 1]) + [EventFor(entry, statement, models[|models| - 1])]
  }

  /** The loop over the models that the three callbacks share. */
  method BuildEvents(entry: ModelEntry, statement: Statement, models: seq<Instance>) returns (events: seq<Operation>)
    ensures events == EventsFor(entry, statement, models)
  {
    events := [];
    for i := 0 to |models|
      invariant events == EventsFor(entry, statement, models[..i])
    {
      assert models[..i + 1][..i] == models[..i];
      events := events + [EventFor(entry, statement, models[i])];
    }
    assert models[..|models|] == models;
  }

  lemma {:induction false} EventsAreAbout(entry: ModelEntry, statement: Statement, models: seq<Instance>)
    ensures forall i :: 0 <= i < |models| ==>
              && EventsFor(entry, statement, models)[i] == EventFor(entry, statement, models[i])
              && EventsFor(entry, statement, models)[i].key == DocKey(entry, models[i].pk)
    decreases |models|
  {
    if models != [] {
      EventsAreAbout(entry, statement, models[..|models| - 1]);
    }
  }
}
