/** fullsync.go for one model: rebuild into a new index, switch the alias, delete what it replaced. */
module FullSync {
  import opened Wrappers
  import opened Documents
  import opened Policy
  import opened Models
  import opened Scan
  import opened Cluster

  /** The cluster as one client drives it. Unless it is steady, every request may be refused, or be carried
      out and its response lost. `views` records every layout the cluster has had. */
  class SearchCluster {
    const steady: bool
    var indices: Indices
    var aliases: Aliases
    ghost var views: seq<View>

    ghost predicate Valid()
      reads this
    {
      && views != [] && views[|views| - 1] == Layout()
      && forall i :: 0 <= i < |views| ==> views[i].Sound()
    }

    ghost function Layout(): View
      reads this
    {
      View(indices.Keys, aliases)
    }

    constructor (steady: bool, indices: Indices, aliases: Aliases)
      requires View(indices.Keys, aliases).Sound()
      ensures Valid() && this.steady == steady && this.indices == indices && this.aliases == aliases
    {
      this.steady, this.indices, this.aliases := steady, indices, aliases;
      views := [View(indices.Keys, aliases)];
    }

    method ListOf(names: set<string>) returns (list: seq<string>)
      ensures NoRepeats(list) && Elements(list) == names
    {
      list := [];
      var rest := names;
      while rest != {}
        invariant NoRepeats(list) && rest <= names && Elements(list) == names - rest
      {
        var name :| name in rest;
        assert Elements(list + [name]) == Elements(list) + {name};
        list, rest := list + [name], rest - {name};
      }
    }

    /** resolveAliasState: the indices behind the alias, or the legacy index that has its name. */
    method ResolveAliasState(alias: string) returns (r: Result<AliasState>)
      requires Valid()
      ensures r.Success? ==> r.value.aliasName == alias && Describes(r.value, Layout())
      ensures steady ==> r.Success?
    {
      var broken: bool := *;
      if broken && !steady {
        return Failure("get alias");
      }
      if alias in aliases && aliases[alias] != {} {
        var targets := ListOf(aliases[alias]);
        return Success(AliasState(alias, targets, false));
      }
      broken := *;
      if broken && !steady {
        return Failure("check index");
      }
      if alias in indices {
        assert Elements([alias]) == {alias};
        return Success(AliasState(alias, [alias], true));
      }
      r := Success(AliasState(alias, [], false));
    }

    /** createManagedIndex, with the alias attached when one is given. */
    method CreateManagedIndex(name: string, alias: Option<string>) returns (ok: bool)
      requires Valid() && (alias.Some? ==> alias.value != name)
      modifies this
      ensures Valid() && old(views) <= views
      ensures forall i :: |old(views)| <= i < |views| ==> views[i] == Layout()
      ensures ok ==> Added(old(indices), old(aliases), name, alias)
      ensures !ok ==>
                || Added(old(indices), old(aliases), name, alias)
                || (indices == old(indices) && aliases == old(aliases))
      ensures steady && old(Layout()).Resolve(name) == {} && (alias.Some? ==> alias.value !in old(indices)) ==> ok
    {
      var refused: bool := *;
      var taken := name in indices || (name in aliases && aliases[name] != {});
      taken := taken || (alias.Some? && alias.value in indices);
      if (refused && !steady) || taken {
        return false;
      }
      indices := indices[name := map[]];
      if alias.Some? {
        aliases := aliases[alias.value := (if alias.value in aliases then aliases[alias.value] else {}) + {name}];
      }
      views := views + [Layout()];
      var lost: bool := *;
      ok := !lost || steady;
    }

    ghost predicate Added(before: Indices, beforeAliases: Aliases, name: string, alias: Option<string>)
      reads this
    {
      && name !in before && View(before.Keys, beforeAliases).Targets(name) == {}
      && indices == before[name := map[]]
      && (alias.None? ==> aliases == beforeAliases)
      && (alias.Some? ==>
            Layout().Resolve(alias.value) == View(before.Keys, beforeAliases).Resolve(alias.value) + {name})
    }

    /** switchAliasToIndex */
    method SwitchAliasToIndex(state: AliasState, newIndex: string) returns (ok: bool)
      requires Valid() && Describes(state, Layout())
      requires newIndex in indices && newIndex != state.aliasName
      modifies this
      ensures Valid() && old(views) <= views
      ensures forall i :: |old(views)| <= i < |views| ==> views[i] == Layout()
      ensures ok ==> Switched(old(indices), old(aliases), state, newIndex)
      ensures !ok ==>
                || Switched(old(indices), old(aliases), state, newIndex)
                || (indices == old(indices) && aliases == old(aliases))
      ensures steady ==> ok
    {
      var actions := BuildAliasUpdate(state, newIndex);
      SwitchMovesAlias(indices, aliases, state, newIndex);
      var refused: bool := *;
      var done := ActAll(indices, aliases, actions);
      if (refused && !steady) || done.None? {
        return false;
      }
      indices, aliases := done.value.0, done.value.1;
      views := views + [Layout()];
      var lost: bool := *;
      ok := !lost || steady;
    }

    /** The alias has moved to exactly the new index, in one step. */
    ghost predicate Switched(before: Indices, beforeAliases: Aliases, state: AliasState, newIndex: string)
      reads this
    {
      var legacy := if state.legacyConcreteIdx then {state.aliasName} else {};
      && Layout().Resolve(state.aliasName) == {newIndex}
      && indices == before - legacy
      && forall other :: other != state.aliasName ==>
           Layout().Targets(other) == View(before.Keys, beforeAliases).Targets(other) - legacy
    }

    /** deleteIndices: one request, refused unless every name is an index; else a failing request may have
        deleted some of them. */
    method DeleteIndices(names: seq<string>) returns (ok: bool)
      requires Valid()
      modifies this
      ensures Valid() && old(views) <= views
      ensures forall i :: |old(views)| <= i < |views| ==>
              DeletedSome(View(old(indices).Keys, old(aliases)), views[i], Elements(names))
      ensures DeletedSome(View(old(indices).Keys, old(aliases)), Layout(), Elements(names))
      ensures forall name :: name in indices ==> name in old(indices) && indices[name] == old(indices)[name]
      ensures ok ==> Elements(names) !! indices.Keys
      ensures names == [] ==> ok && indices == old(indices) && aliases == old(aliases)
      ensures steady && Elements(names) <= old(indices).Keys ==> ok
      ensures !(Elements(names) <= old(indices).Keys) ==> !ok && indices == old(indices) && aliases == old(aliases)
    {
      DeletedNothing(Layout(), Elements(names));
      if names == [] {
        return true;
      }
      if exists k :: 0 <= k < |names| && names[k] !in indices {
        return false;
      }
      ok := DeleteEach(names);
    }

    method DeleteEach(names: seq<string>) returns (ok: bool)
      requires Valid()
      modifies this
      ensures Valid() && old(views) <= views
      ensures forall i :: |old(views)| <= i < |views| ==>
              DeletedSome(View(old(indices).Keys, old(aliases)), views[i], Elements(names))
      ensures DeletedSome(View(old(indices).Keys, old(aliases)), Layout(), Elements(names))
      ensures forall name :: name in indices ==> name in old(indices) && indices[name] == old(indices)[name]
      ensures ok ==> Elements(names) !! indices.Keys
      ensures steady ==> ok
    {
      for k := 0 to |names|
        invariant Valid() && old(views) <= views
        invariant forall i :: |old(views)| <= i < |views| ==>
                  DeletedSome(View(old(indices).Keys, old(aliases)), views[i], Elements(names))
        invariant DeletedSome(View(old(indices).Keys, old(aliases)), Layout(), Elements(names))
        invariant forall name :: name in indices ==> name in old(indices) && indices[name] == old(indices)[name]
        invariant forall i :: 0 <= i < k ==> names[i] !in indices
      {
        var refused: bool := *;
        if refused && !steady {
          return false;
        }
        assert names[k] in Elements(names);
        indices, aliases := indices - {names[k]}, Without(aliases, names[k]);
        views := views + [Layout()];
      }
      var lost: bool := *;
      ok := !lost || steady;
    }

    // --- Bulk writes ---

    /** A closed bulk indexer has written the documents it accepted; when closing fails, or was
        only part of giving up, it may have written any documents. */
    method Flush(entry: ModelEntry, target: string, items: seq<Item>) returns (ok: bool)
      requires Valid() && target in indices && indices[target] == map[]
      modifies this`indices
      ensures Valid() && indices.Keys == old(indices).Keys
      ensures forall name :: name in indices && name != target ==> indices[name] == old(indices)[name]
      ensures ok ==> indices[target] == Contents(entry, items)
      ensures steady ==> ok
    {
      var written: map<string, Doc> := *;
      var lost: bool := *;
      ok := !lost || steady;
      indices := indices[target := if ok then Contents(entry, items) else written];
    }
  }

  /** `v` is `before` with some of the names deleted. */
  ghost predicate DeletedSome(before: View, v: View, names: set<string>) {
    && v.names <= before.names && before.names - names <= v.names
    && forall alias :: v.Targets(alias) == before.Targets(alias) * v.names
  }

  lemma DeletedNothing(v: View, names: set<string>)
    requires v.Sound()
    ensures DeletedSome(v, v, names)
  {
    forall alias ensures v.Targets(alias) == v.Targets(alias) * v.names {
      assert v.Targets(alias) <= v.names;
    }
  }

  // --- One model's full sync ---

  /** Where a full sync ended. */
  datatype Stage =
    | Preparing                      // no cursor, or the alias could not be resolved
    | Creating(created: bool)        // the create request failed; `created` if it was carried out
    | Scanning(cleaned: bool)        // the scan failed; `cleaned` if the cleanup request succeeded
    | Switching
    | Deleting
    | Done

  class FullSyncer {
    const cluster: SearchCluster
    const table: SourceTable
    const defaultBatchSize: int
    const steady: bool   // whether nothing is canceled, every query answered and every row accepted

    constructor (cluster: SearchCluster, table: SourceTable, defaultBatchSize: int, steady: bool)
      ensures this.cluster == cluster && this.table == table
      ensures this.defaultBatchSize == defaultBatchSize && this.steady == steady
    {
      this.cluster, this.table, this.defaultBatchSize, this.steady := cluster, table, defaultBatchSize, steady;
    }

    function BatchSize(entry: ModelEntry): int {
      if entry.batchSize <= 0 then defaultBatchSize else entry.batchSize
    }

    /** syncFullSyncBatch: hand each row to the indexer and advance the cursor, until something fails. */
    method SyncFullSyncBatch(entry: ModelEntry, page: seq<int>, cursor: IntegerPrimaryKeyScanCursor)
      returns (ok: bool, count: nat)
      modifies cursor
      ensures count <= |page| && (ok ==> count == |page|) && (steady ==> ok)
      ensures ok ==> cursor.checkpoint == if page == [] then old(cursor.checkpoint) else page[|page| - 1]
    {
      count := 0;
      while count < |page|
        invariant count <= |page|
        invariant cursor.checkpoint == if count == 0 then old(cursor.checkpoint) else page[count - 1]
      {
        var added: bool := *;
        if !added && !steady {
          return false, count;
        }
        var advanced: bool := *;
        if !advanced && !steady {
          return false, count + 1;
        }
        cursor.Advance(page[count]);
        count := count + 1;
      }
      ok := true;
    }

    /** One page: query it from the table as it is now, and hand it on. */
    method ScanPage(entry: ModelEntry, batchSize: int, cursor: IntegerPrimaryKeyScanCursor, start: int,
                    items: seq<Item>, ghost snapshots: seq<Rows>)
      returns (ok: bool, rowCount: nat, items': seq<Item>, ghost rows: Rows)
      requires KeysFit(table.rows) && start <= cursor.checkpoint
      requires ScanState(entry, start, cursor.checkpoint, snapshots, items)
      modifies table, cursor
      ensures KeysFit(table.rows) && rows == table.rows && (table.fixed ==> table.rows == old(table.rows))
      ensures Emits(entry, start, snapshots + [rows], items')
      ensures steady ==> ok
      ensures batchSize >= 0 ==> |items'| <= |items| + batchSize && (ok ==> rowCount <= batchSize)
      ensures ok ==> |items'| == |items| + rowCount
      ensures ok && rowCount > 0 ==>
                && old(cursor.checkpoint) < cursor.checkpoint <= MAX_KEY
                && ScanState(entry, start, cursor.checkpoint, snapshots + [rows], items')
      ensures ok && (rowCount < batchSize || (rowCount == 0 && batchSize != 0)) ==>
                Covers(entry, start, MAX_KEY, snapshots + [rows], items')
    {
      table.Others();
      rows := table.rows;
      var slice := table.rows;
      var broken: bool := *;
      PageFacts(entry, rows, cursor.checkpoint, batchSize);
      if broken && !steady {
        PageOutcome(entry, start, cursor.checkpoint, snapshots, items, rows, batchSize, 0);
        return false, 0, items, rows;
      }
      var page := Page(entry, slice, cursor.checkpoint, batchSize);
      rowCount := |page|;
      var count;
      ok, count := SyncFullSyncBatch(entry, page, cursor);
      items' := items + Items(slice, page)[..count];
      PageOutcome(entry, start, old(cursor.checkpoint), snapshots, items, rows, batchSize, count);
    }

    /** The loop of fullSyncFrom: page after page until one comes back short. */
    method ScanAll(entry: ModelEntry, cursor: IntegerPrimaryKeyScanCursor)
      returns (ok: bool, items: seq<Item>, ghost snapshots: seq<Rows>)
      requires KeysFit(table.rows)
      modifies table, cursor
      ensures KeysFit(table.rows) && (table.fixed ==> table.rows == old(table.rows))
      ensures Emits(entry, old(cursor.checkpoint), snapshots, items)
      ensures steady ==> ok
      ensures ok ==>
                FullScan(entry, defaultBatchSize, old(table.rows), table.fixed, old(cursor.checkpoint),
                         snapshots, items)
      ensures entry.batchSize > 0 ==> |items| <= |snapshots| * entry.batchSize
      ensures entry.batchSize <= 0 && defaultBatchSize >= 0 ==> |items| <= |snapshots| * defaultBatchSize
    {
      var batchSize := BatchSize(entry);
      var start := cursor.checkpoint;
      items, ok := [], true;
      snapshots := [];
      while true
        invariant KeysFit(table.rows) && (table.fixed ==> table.rows == old(table.rows))
        invariant table.fixed ==> forall q :: 0 <= q < |snapshots| ==> snapshots[q] == old(table.rows)
        invariant start <= cursor.checkpoint && ok
        invariant batchSize >= 0 ==> |items| == |snapshots| * batchSize
        invariant ScanState(entry, start, cursor.checkpoint, snapshots, items)
        decreases MAX_KEY - cursor.checkpoint
      {
        var canceled: bool := *;
        if canceled && !steady {
          return false, items, snapshots;
        }
        var beforeCheckpoint := cursor.checkpoint;
        var rowCount: nat;
        ghost var rows;
        ok, rowCount, items, rows := ScanPage(entry, batchSize, cursor, start, items, snapshots);
        OnePageMore(|snapshots|, Max(batchSize, 0));
        snapshots := snapshots + [rows];
        if !ok {
          return;
        }
        if rowCount == 0 {
          break;
        }
        if rowCount == batchSize && beforeCheckpoint == cursor.checkpoint {
          // "did not advance": an integer cursor always does.
          assert false;
        }
        if rowCount < batchSize {
          break;
        }
      }
      if table.fixed && batchSize != 0 {
        FixedScan(entry, old(table.rows), start, snapshots, items);
      }
    }

    /** fullSyncFrom: scan into a bulk indexer of its own, and close it whatever happened. */
    method FullSyncFrom(entry: ModelEntry, target: string, cursor: IntegerPrimaryKeyScanCursor)
      returns (ok: bool, synced: nat, ghost items: seq<Item>, ghost snapshots: seq<Rows>)
      requires cluster.Valid() && target in cluster.indices && cluster.indices[target] == map[]
      requires KeysFit(table.rows)
      modifies cluster`indices, table, cursor
      ensures cluster.Valid() && cluster.indices.Keys == old(cluster.indices).Keys
      ensures forall name :: name in cluster.indices && name != target ==>
              cluster.indices[name] == old(cluster.indices)[name]
      ensures KeysFit(table.rows) && (table.fixed ==> table.rows == old(table.rows))
      ensures synced == |items| && Emits(entry, old(cursor.checkpoint), snapshots, items)
      ensures ok ==> cluster.indices[target] == Contents(entry, items)
      ensures ok ==>
                FullScan(entry, defaultBatchSize, old(table.rows), table.fixed, old(cursor.checkpoint),
                         snapshots, items)
      ensures steady && cluster.steady ==> ok
    {
      var accepted: seq<Item>;
      ok, accepted, snapshots := ScanAll(entry, cursor);
      items, synced := accepted, |accepted|;
      var closed := cluster.Flush(entry, target, accepted);
      ok := ok && closed;
    }

    /** The first half of fullSyncTableAt: create the index and scan into it. */
    method BuildIndex(entry: ModelEntry, cursor: IntegerPrimaryKeyScanCursor, rebuild: string)
      returns (ok: bool, synced: nat, ghost stage: Stage, ghost items: seq<Item>, ghost snapshots: seq<Rows>)
      requires cluster.Valid() && KeysFit(table.rows)
      modifies cluster, table, cursor
      ensures cluster.Valid() && old(cluster.views) <= cluster.views
      ensures table.fixed ==> table.rows == old(table.rows)
      ensures forall i :: |old(cluster.views)| <= i < |cluster.views| ==>
              Extended(old(cluster.Layout()), cluster.views[i], rebuild)
      ensures Extended(old(cluster.Layout()), cluster.Layout(), rebuild)
      ensures forall name :: name in old(cluster.indices) && name != rebuild ==>
                name in cluster.indices && cluster.indices[name] == old(cluster.indices)[name]
      ensures synced == |items|
      ensures !ok ==>
                || stage == Creating(rebuild in cluster.indices && rebuild !in old(cluster.indices))
                || (stage.Scanning? && rebuild !in old(cluster.indices)
                    && (stage.cleaned ==> rebuild !in cluster.indices))
      ensures ok ==>
                && rebuild !in old(cluster.indices)
                && rebuild in cluster.indices && cluster.indices[rebuild] == Contents(entry, items)
                && FullScan(entry, defaultBatchSize, old(table.rows), table.fixed, old(cursor.checkpoint),
                            snapshots, items)
      ensures steady && cluster.steady && old(cluster.Layout()).Resolve(rebuild) == {} ==> ok
      ensures cluster.steady && !ok && stage.Scanning? ==> stage.cleaned
    {
      ok, synced := false, 0;
      items, snapshots, stage := [], [], Preparing;
      var created := cluster.CreateManagedIndex(rebuild, None);
      if !created {
        stage := Creating(rebuild in cluster.indices && rebuild !in old(cluster.indices));
        return;
      }
      assert Extended(old(cluster.Layout()), cluster.Layout(), rebuild);
      ok, synced, items, snapshots := FullSyncFrom(entry, rebuild, cursor);
      if !ok {
        var cleaned := CleanupDetachedIndex(rebuild, old(cluster.Layout()));
        stage := Scanning(cleaned);
      }
    }

    /** cleanupDetachedIndex */
    method CleanupDetachedIndex(rebuild: string, ghost before: View) returns (cleaned: bool)
      requires cluster.Valid() && before.Sound()
      requires rebuild !in before.names && Extended(before, cluster.Layout(), rebuild)
      modifies cluster
      ensures cluster.Valid() && old(cluster.views) <= cluster.views
      ensures forall i :: |old(cluster.views)| <= i < |cluster.views| ==> Extended(before, cluster.views[i], rebuild)
      ensures Extended(before, cluster.Layout(), rebuild)
      ensures forall name :: name in old(cluster.indices) && name != rebuild ==>
                name in cluster.indices && cluster.indices[name] == old(cluster.indices)[name]
      ensures cleaned ==> rebuild !in cluster.indices
      ensures cluster.steady && rebuild in old(cluster.indices) ==> cleaned
    {
      ghost var mid := cluster.Layout();
      assert Elements([rebuild]) == {rebuild};
      cleaned := cluster.DeleteIndices([rebuild]);
      forall v: View | DeletedSome(mid, v, {rebuild}) ensures Extended(before, v, rebuild) {
        DetachedIsExtended(before, mid, v, rebuild);
      }
    }

    /** The second half: switch the alias, then delete what it pointed at before. */
    method Publish(state: AliasState, rebuild: string) returns (ok: bool, ghost stage: Stage)
      requires cluster.Valid() && Describes(state, cluster.Layout())
      requires rebuild in cluster.indices && rebuild != state.aliasName
               && rebuild !in cluster.Layout().Resolve(state.aliasName)
      modifies cluster
      ensures cluster.Valid() && old(cluster.views) <= cluster.views
      ensures forall i :: |old(cluster.views)| <= i < |cluster.views| ==>
                cluster.views[i] == old(cluster.Layout())
                    || Moved(old(cluster.Layout()), cluster.views[i], state.aliasName, rebuild)
      ensures cluster.Layout() == old(cluster.Layout())
              || Moved(old(cluster.Layout()), cluster.Layout(), state.aliasName, rebuild)
      ensures forall name :: name in cluster.indices ==>
              name in old(cluster.indices) && cluster.indices[name] == old(cluster.indices)[name]
      ensures rebuild in cluster.indices
      ensures ok <==> stage.Done?
      ensures cluster.steady ==> ok
      ensures !ok ==> stage.Switching? || stage.Deleting?
      ensures stage.Switching? ==> old(cluster.Layout()).names - {state.aliasName} <= cluster.Layout().names
      ensures stage.Deleting? || stage.Done? ==> cluster.Layout().Resolve(state.aliasName) == {rebuild}
      ensures ok ==>
                cluster.Layout().names == old(cluster.Layout()).names - old(cluster.Layout()).Resolve(state.aliasName)
    {
      ok := false;
      var switched := cluster.SwitchAliasToIndex(state, rebuild);
      if !switched {
        stage := Switching;
        return;
      }
      var deleted := DeleteReplacedIndices(state, rebuild, old(cluster.Layout()));
      stage, ok := if deleted then Done else Deleting, deleted;
    }

    /** deleteReplacedIndices: a legacy index is already gone with the switch. */
    method DeleteReplacedIndices(state: AliasState, rebuild: string, ghost before: View) returns (ok: bool)
      requires cluster.Valid() && before.Sound() && Describes(state, before)
               && Moved(before, cluster.Layout(), state.aliasName, rebuild)
      requires rebuild in cluster.indices && rebuild != state.aliasName && rebuild !in before.Resolve(state.aliasName)
      requires cluster.Layout().names == before.names - if state.legacyConcreteIdx then {state.aliasName} else {}
      modifies cluster
      ensures cluster.Valid() && old(cluster.views) <= cluster.views
      ensures forall i :: |old(cluster.views)| <= i < |cluster.views| ==>
              Moved(before, cluster.views[i], state.aliasName, rebuild)
      ensures Moved(before, cluster.Layout(), state.aliasName, rebuild)
      ensures forall name :: name in cluster.indices ==>
              name in old(cluster.indices) && cluster.indices[name] == old(cluster.indices)[name]
      ensures rebuild in cluster.indices
      ensures ok ==> cluster.Layout().names == before.names - before.Resolve(state.aliasName)
      ensures cluster.steady ==> ok
    {
      if state.legacyConcreteIdx || state.targets == [] {
        return true;
      }
      ghost var moved := cluster.Layout();
      ok := cluster.DeleteIndices(state.targets);
      forall v: View | DeletedSome(moved, v, Elements(state.targets))
        ensures Moved(before, v, state.aliasName, rebuild)
      {
        DeletionKeepsMoved(before, moved, v, state.aliasName, rebuild, Elements(state.targets));
      }
    }

    /** fullSyncTableAt. `rebuild` is the name drawn from the clock for the new index. */
    method FullSyncTableAt(entry: ModelEntry, startId: int, rebuild: string)
      returns (synced: nat, err: Option<string>, ghost stage: Stage, ghost items: seq<Item>, ghost snapshots: seq<Rows>)
      requires cluster.Valid() && KeysFit(table.rows) && rebuild != entry.indexName
      modifies cluster, table
      ensures err.None? <==> stage.Done?
      ensures cluster.Valid() && old(cluster.views) <= cluster.views
      ensures table.fixed ==> table.rows == old(table.rows)
      ensures forall i :: |old(cluster.views)| <= i < |cluster.views| ==>
                SafeAt(old(cluster.Layout()), cluster.views[i], entry.indexName, rebuild)
      ensures OthersKept(old(cluster.indices), old(cluster.Layout()), cluster.indices, cluster.Layout(),
              entry.indexName, rebuild)
      ensures entry.unsigned && startId < 0 ==> stage == Preparing
      ensures synced == |items|
      ensures AsStaged(old(cluster.Layout()), cluster.Layout(), entry.indexName, rebuild, stage)
      ensures stage.Switching? || stage.Deleting? || stage.Done? ==>
                && rebuild in cluster.indices && cluster.indices[rebuild] == Contents(entry, items)
                && FullScan(entry, defaultBatchSize, old(table.rows), table.fixed, startId, snapshots, items)
      ensures steady && cluster.steady && old(cluster.Layout()).Resolve(rebuild) == {} ==>
                stage.Done? || (entry.unsigned && startId < 0)
      ensures cluster.steady && stage.Scanning? ==> stage.cleaned
    {
      synced, err := 0, Some("prepare");
      items, snapshots, stage := [], [], Preparing;
      ExtendedIsSafe(cluster.Layout(), cluster.Layout(), entry.indexName, rebuild);
      var prepared := Prepare(entry, startId);
      if prepared.Failure? {
        return;
      }
      var resolved := cluster.ResolveAliasState(entry.indexName);
      if resolved.Failure? {
        return;
      }
      synced, err, stage, items, snapshots := Rebuild(entry, prepared.value, resolved.value, rebuild);
    }

    /** ... once the cursor is prepared and the alias resolved. */
    method Rebuild(entry: ModelEntry, cursor: IntegerPrimaryKeyScanCursor, state: AliasState, rebuild: string)
      returns (synced: nat, err: Option<string>, ghost stage: Stage, ghost items: seq<Item>, ghost snapshots: seq<Rows>)
      requires cluster.Valid() && KeysFit(table.rows) && rebuild != entry.indexName
      requires state.aliasName == entry.indexName && Describes(state, cluster.Layout())
      modifies cluster, table, cursor
      ensures (err.None? <==> stage.Done?) && synced == |items|
      ensures cluster.Valid() && old(cluster.views) <= cluster.views
      ensures table.fixed ==> table.rows == old(table.rows)
      ensures forall i :: |old(cluster.views)| <= i < |cluster.views| ==>
                SafeAt(old(cluster.Layout()), cluster.views[i], entry.indexName, rebuild)
      ensures OthersKept(old(cluster.indices), old(cluster.Layout()), cluster.indices, cluster.Layout(),
              entry.indexName, rebuild)
      ensures AsStaged(old(cluster.Layout()), cluster.Layout(), entry.indexName, rebuild, stage)
      ensures stage.Switching? || stage.Deleting? || stage.Done? ==>
                && rebuild in cluster.indices && cluster.indices[rebuild] == Contents(entry, items)
                && FullScan(entry, defaultBatchSize, old(table.rows), table.fixed, old(cursor.checkpoint),
                            snapshots, items)
      ensures steady && cluster.steady && old(cluster.Layout()).Resolve(rebuild) == {} ==> stage.Done?
      ensures cluster.steady && stage.Scanning? ==> stage.cleaned
    {
      ghost var before := cluster.Layout();
      var ok;
      ok, synced, stage, items, snapshots := BuildIndex(entry, cursor, rebuild);
      ExtendedAreSafe(before, entry.indexName, rebuild);
      ExtendedIsSafe(before, cluster.Layout(), entry.indexName, rebuild);
      if !ok {
        err := Some("full sync");
        return;
      }
      ok, stage := PublishRebuilt(state, rebuild, old(cluster.indices), before);
      err := if ok then None else Some("switch alias or delete indices");
    }

    /** Publish, as seen from before the rebuild. */
    method PublishRebuilt(state: AliasState, rebuild: string, ghost indices: Indices, ghost before: View)
      returns (ok: bool, ghost stage: Stage)
      requires cluster.Valid() && Describes(state, cluster.Layout()) && rebuild != state.aliasName
      requires before.Sound() && before.names == indices.Keys && Extended(before, cluster.Layout(), rebuild)
      requires rebuild in cluster.indices && rebuild !in indices
      requires forall name :: name in indices ==> name in cluster.indices && cluster.indices[name] == indices[name]
      modifies cluster
      ensures cluster.Valid() && old(cluster.views) <= cluster.views
      ensures forall i :: |old(cluster.views)| <= i < |cluster.views| ==>
                SafeAt(before, cluster.views[i], state.aliasName, rebuild)
      ensures OthersKept(indices, before, cluster.indices, cluster.Layout(), state.aliasName, rebuild)
      ensures AsStaged(before, cluster.Layout(), state.aliasName, rebuild, stage)
      ensures (ok <==> stage.Done?) && (!ok ==> stage.Switching? || stage.Deleting?) && (cluster.steady ==> ok)
      ensures rebuild in cluster.indices && cluster.indices[rebuild] == old(cluster.indices)[rebuild]
    {
      ghost var built := cluster.Layout();
      ExtendedIsSafe(before, built, state.aliasName, rebuild);
      ok, stage := Publish(state, rebuild);
      PublishedAreSafe(before, built, state.aliasName, rebuild);
      PublishedIsSafe(before, built, cluster.Layout(), state.aliasName, rebuild);
    }

    /** ensureIndexEntry: a first index with the alias on it, unless searches already reach one. */
    method EnsureIndexEntry(entry: ModelEntry, bootstrap: string) returns (ok: bool)
      requires cluster.Valid() && bootstrap != entry.indexName
      modifies cluster
      ensures cluster.Valid() && old(cluster.views) <= cluster.views
      ensures ok ==> cluster.Layout().Resolve(entry.indexName) != {}
      ensures old(cluster.Layout()).Resolve(entry.indexName) != {} ==> cluster.Layout() == old(cluster.Layout())
      ensures forall name :: name in old(cluster.indices) ==>
              name in cluster.indices && cluster.indices[name] == old(cluster.indices)[name]
      ensures cluster.Layout().Resolve(entry.indexName) == old(cluster.Layout()).Resolve(entry.indexName)
              || cluster.Layout().Resolve(entry.indexName) == {bootstrap}
      ensures cluster.steady && old(cluster.Layout()).Resolve(bootstrap) == {} ==> ok
    {
      var resolved := cluster.ResolveAliasState(entry.indexName);
      if resolved.Failure? {
        return false;
      }
      if resolved.value.targets != [] {
        assert resolved.value.targets[0] in Elements(resolved.value.targets);
        return true;
      }
      assert Elements([]) == {};
      ok := cluster.CreateManagedIndex(bootstrap, Some(entry.indexName));
    }
  }

  /** `v` is `before`, possibly with the index being built. */
  ghost predicate Extended(before: View, v: View, rebuild: string) {
    && (v.names == before.names || (v.names == before.names + {rebuild} && rebuild !in before.names))
    && forall alias :: v.Targets(alias) == before.Targets(alias)
  }

  /** `v` is `before` after the alias has moved, possibly with old indices deleted. */
  ghost predicate Moved(before: View, v: View, alias: string, rebuild: string) {
    && v.Resolve(alias) == {rebuild}
    && v.names <= before.names && before.names - before.Resolve(alias) <= v.names
    && forall other :: other != alias ==> v.Targets(other) == before.Targets(other) * v.names
  }

  lemma DetachedIsExtended(before: View, mid: View, v: View, rebuild: string)
    requires before.Sound() && rebuild !in before.names && Extended(before, mid, rebuild)
    requires DeletedSome(mid, v, {rebuild})
    ensures Extended(before, v, rebuild)
  {
    assert v.names == before.names || v.names == before.names + {rebuild};
    forall alias ensures v.Targets(alias) == before.Targets(alias) {
      assert before.Targets(alias) <= before.names;
      assert v.Targets(alias) == mid.Targets(alias) * v.names;
    }
  }

  lemma DeletionKeepsMoved(before: View, moved: View, v: View, alias: string, rebuild: string, names: set<string>)
    requires Moved(before, moved, alias, rebuild) && DeletedSome(moved, v, names)
    requires names <= before.Resolve(alias) && rebuild in moved.names - names && rebuild != alias
    ensures Moved(before, v, alias, rebuild)
  {
    assert alias !in moved.names;
    forall other | other != alias ensures v.Targets(other) == before.Targets(other) * v.names {
      assert v.Targets(other) == moved.Targets(other) * v.names;
    }
  }

  lemma ExtendedIsSafe(before: View, v: View, alias: string, rebuild: string)
    requires before.Sound() && v.Sound() && Extended(before, v, rebuild) && rebuild != alias
    ensures SafeAt(before, v, alias, rebuild) && v.Resolve(alias) == before.Resolve(alias)
    ensures forall other :: v.Targets(other) == before.Targets(other) * v.names
  {
    assert before.Targets(alias) <= before.names;
    forall other ensures v.Targets(other) == before.Targets(other) * v.names {
      assert before.Targets(other) <= before.names;
    }
  }

  lemma PublishedIsSafe(before: View, built: View, v: View, alias: string, rebuild: string)
    requires before.Sound() && built.Sound() && v.Sound()
    requires Extended(before, built, rebuild) && rebuild != alias
    requires v == built || Moved(built, v, alias, rebuild)
    ensures SafeAt(before, v, alias, rebuild)
    ensures forall other :: other != alias ==> v.Targets(other) == before.Targets(other) * v.names
  {
    ExtendedIsSafe(before, built, alias, rebuild);
    if v != built {
      forall other | other != alias ensures v.Targets(other) == before.Targets(other) * v.names {
        assert built.Targets(other) * v.names == before.Targets(other) * v.names;
      }
    }
  }

  lemma ExtendedAreSafe(before: View, alias: string, rebuild: string)
    requires before.Sound() && rebuild != alias
    ensures forall v: View :: v.Sound() && Extended(before, v, rebuild) ==> SafeAt(before, v, alias, rebuild)
  {
    forall v: View | v.Sound() && Extended(before, v, rebuild) ensures SafeAt(before, v, alias, rebuild) {
      ExtendedIsSafe(before, v, alias, rebuild);
    }
  }

  lemma PublishedAreSafe(before: View, built: View, alias: string, rebuild: string)
    requires before.Sound() && built.Sound() && Extended(before, built, rebuild) && rebuild != alias
    ensures forall v: View :: v.Sound() && (v == built || Moved(built, v, alias, rebuild)) ==>
              SafeAt(before, v, alias, rebuild)
  {
    forall v: View | v.Sound() && (v == built || Moved(built, v, alias, rebuild))
      ensures SafeAt(before, v, alias, rebuild)
    {
      PublishedIsSafe(before, built, v, alias, rebuild);
    }
  }

  /** A scan that ran to its end, in pages of the model's own batch size if that is positive, else of the
      default one. A default of zero reads nothing, and so rebuilds an empty index. */
  ghost predicate FullScan(entry: ModelEntry, defaultBatchSize: int, rows: Rows, fixed: bool, start: int,
                           snapshots: seq<Rows>, items: seq<Item>) {
    && Emits(entry, start, snapshots, items)
    && (entry.batchSize > 0 || defaultBatchSize != 0 ==>
          && Covers(entry, start, MAX_KEY, snapshots, items)
          && (fixed ==> IsWholeTable(entry, rows, start, items)))
    && (entry.batchSize <= 0 && defaultBatchSize == 0 ==> items == [])
    && (entry.batchSize > 0 ==> Paged(|items|, |snapshots|, entry.batchSize))
    && (entry.batchSize <= 0 && defaultBatchSize > 0 ==> Paged(|items|, |snapshots|, defaultBatchSize))
  }

  /** That many queries for that many rows: every page is full but the last. */
  ghost predicate Paged(rows: nat, queries: nat, size: nat) {
    (queries - 1) * size <= rows < queries * size
  }

  lemma OnePageMore(queries: nat, size: nat)
    ensures (queries + 1) * size == queries * size + size
  {
  }

  /** What a full sync of `alias` keeps true of every layout it passes through: searches reach either
      exactly the old indices or exactly the rebuilt one, and an old index is missing only once they
      reach the rebuilt one. */
  ghost predicate SafeAt(before: View, v: View, alias: string, rebuild: string) {
    && v.Sound()
    && (v.Resolve(alias) == before.Resolve(alias) || v.Resolve(alias) == {rebuild})
    && (before.Resolve(alias) <= v.names || v.Resolve(alias) == {rebuild})
  }

  /** Other indices and aliases are left alone; an alias that shared an old index loses it. */
  ghost predicate OthersKept(indices: Indices, before: View, indices': Indices, v: View, alias: string,
                             rebuild: string)
  {
    && (forall name :: name in indices && name !in before.Resolve(alias) && name != rebuild ==>
          name in indices' && indices'[name] == indices[name])
    && (forall name :: name in indices' && name != rebuild ==> name in indices && indices'[name] == indices[name])
    && (forall other :: other != alias ==> v.Targets(other) == before.Targets(other) * v.names)
  }

  /** The outcome by stage: who answers searches, which old indices are gone, and whether the index
      being built is left behind. */
  ghost predicate AsStaged(before: View, v: View, alias: string, rebuild: string, stage: Stage) {
    match stage
    case Preparing => v == before
    case Creating(created) =>
      v.Resolve(alias) == before.Resolve(alias) && v.names == before.names + (if created then {rebuild} else {})
      && (created ==> rebuild !in before.names)
    case Scanning(cleaned) =>
      v.Resolve(alias) == before.Resolve(alias) && before.names <= v.names && rebuild !in before.names
      && (cleaned ==> v.names == before.names)
    case Switching =>
      rebuild in v.names && rebuild !in before.names && before.names - {alias} <= v.names
    case Deleting => rebuild in v.names && v.Resolve(alias) == {rebuild}
    case Done => v.Resolve(alias) == {rebuild} && v.names == before.names - before.Resolve(alias) + {rebuild}
  }

  lemma PageFacts(entry: ModelEntry, rows: Rows, checkpoint: int, batchSize: int)
    requires KeysFit(rows)
    ensures var page, all := Page(entry, rows, checkpoint, batchSize), Above(entry, rows, checkpoint + 1);
            && page <= all && (|page| < batchSize || batchSize < 0 ==> page == all)
            && (page == [] && batchSize != 0 ==> all == [])
            && (batchSize == 0 ==> page == [])
            && (forall i :: 0 <= i < |page| ==> page[i] in rows && checkpoint < page[i] <= MAX_KEY)
  {
    AboveIsExact(entry, rows, checkpoint + 1);
    var all := Above(entry, rows, checkpoint + 1);
    assert forall i :: 0 <= i < |all| ==> all[i] in all;
  }

  /** Where the scan stands after a whole page: at the page's last key, or through if the page was the rest. */
  lemma NextPage(entry: ModelEntry, start: int, checkpoint: int, snapshots: seq<Rows>, items: seq<Item>, rows: Rows,
                 batchSize: int)
    requires KeysFit(rows) && start <= checkpoint && ScanState(entry, start, checkpoint, snapshots, items)
    requires forall i :: 0 <= i < |Page(entry, rows, checkpoint, batchSize)| ==>
             Page(entry, rows, checkpoint, batchSize)[i] in rows
    ensures var page := Page(entry, rows, checkpoint, batchSize);
            var items', snapshots' := items + Items(rows, page), snapshots + [rows];
            && Emits(entry, start, snapshots', items')
            && (page != [] ==> ScanState(entry, start, page[|page| - 1], snapshots', items'))
            && (page == Above(entry, rows, checkpoint + 1) ==> Covers(entry, start, MAX_KEY, snapshots', items'))
  {
    PageFacts(entry, rows, checkpoint, batchSize);
    var page := Page(entry, rows, checkpoint, batchSize);
    assert Items(rows, page)[..|page|] == Items(rows, page);
    PageExtends(entry, start, checkpoint, snapshots, items, rows, page, |page|);
    if page != [] {
      PageCovers(entry, start, checkpoint, page[|page| - 1], snapshots, items, rows, page);
    }
    if page == Above(entry, rows, checkpoint + 1) {
      PageCovers(entry, start, checkpoint, MAX_KEY, snapshots, items, rows, page);
    }
  }

  /** What the items are once the first `count` rows of a page are handed on. */
  lemma PageOutcome(entry: ModelEntry, start: int, checkpoint: int, snapshots: seq<Rows>, items: seq<Item>,
                    rows: Rows, batchSize: int, count: nat)
    requires KeysFit(rows) && start <= checkpoint && ScanState(entry, start, checkpoint, snapshots, items)
    requires forall i :: 0 <= i < |Page(entry, rows, checkpoint, batchSize)| ==>
             Page(entry, rows, checkpoint, batchSize)[i] in rows
    requires count <= |Page(entry, rows, checkpoint, batchSize)|
    ensures var page := Page(entry, rows, checkpoint, batchSize);
            var items', snapshots' := items + Items(rows, page)[..count], snapshots + [rows];
            && Emits(entry, start, snapshots', items')
            && (count == 0 || batchSize == 0 ==> items' == items)
            && (count == |page| ==>
                  && (count > 0 ==>
                        && checkpoint < page[count - 1] <= MAX_KEY
                        && ScanState(entry, start, page[count - 1], snapshots', items'))
                  && (count < batchSize || (count == 0 && batchSize != 0) ==>
                        Covers(entry, start, MAX_KEY, snapshots', items')))
  {
    var page := Page(entry, rows, checkpoint, batchSize);
    PageFacts(entry, rows, checkpoint, batchSize);
    PageExtends(entry, start, checkpoint, snapshots, items, rows, page, count);
    NextPage(entry, start, checkpoint, snapshots, items, rows, batchSize);
    if count == |page| {
      assert Items(rows, page)[..count] == Items(rows, page);
    }
  }

  lemma FixedScan(entry: ModelEntry, rows: Rows, start: int, snapshots: seq<Rows>, items: seq<Item>)
    requires KeysFit(rows) && forall q :: 0 <= q < |snapshots| ==> snapshots[q] == rows
    requires Emits(entry, start, snapshots, items) && Covers(entry, start, MAX_KEY, snapshots, items)
    ensures IsWholeTable(entry, rows, start, items)
  {
    forall key | start < key && Scannable(entry, rows, key) ensures HasKey(items, key) {
      assert SeenThroughout(entry, snapshots, key);
    }
  }

  ghost predicate ScanState(entry: ModelEntry, start: int, checkpoint: int, snapshots: seq<Rows>, items: seq<Item>) {
    && Emits(entry, start, snapshots, items)
    && Covers(entry, start, checkpoint, snapshots, items)
    && (items != [] ==> items[|items| - 1].key <= checkpoint)
  }
}
