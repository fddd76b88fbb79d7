/** Elasticsearch's indices and aliases, and index_alias.go's handling of them. */
module Cluster {
  import opened Wrappers
  import opened Documents

  type Indices = map<string, map<string, Doc>>
  type Aliases = map<string, set<string>>

  /** What searches can see of the cluster's layout. */
  datatype View = View(names: set<string>, aliases: Aliases) {
    function Targets(alias: string): set<string> {
      if alias in aliases then aliases[alias] else {}
    }

    /** The indices a search under `name` reaches. */
    function Resolve(name: string): set<string> {
      if name in names then {name} else Targets(name)
    }

    /** No alias points at a missing index, and no name is both an index and an alias. */
    ghost predicate Sound() {
      && (forall alias :: alias in aliases ==> aliases[alias] <= names)
      && (forall name :: name in names ==> Targets(name) == {})
    }
  }

  /** What resolveAliasState finds: the old indices, or one legacy index under the alias' own name. */
  datatype AliasState = AliasState(aliasName: string, targets: seq<string>, legacyConcreteIdx: bool)

  datatype AliasAction =
    | RemoveIndex(index: string)
    | RemoveAlias(index: string, alias: string)
    | AddAlias(index: string, alias: string)

  function Elements(names: seq<string>): set<string> {
    set name | name in names
  }

  function Without(aliases: Aliases, name: string): Aliases {
    map alias | alias in aliases :: aliases[alias] - {name}
  }

  // --- The _aliases request ---

  /** One action on the cluster being built; None when Elasticsearch rejects the request. */
  function Act(indices: Indices, aliases: Aliases, action: AliasAction): Option<(Indices, Aliases)> {
    match action
    case RemoveIndex(index) =>
      if index in indices then Some((indices - {index}, Without(aliases, index))) else None
    case RemoveAlias(index, alias) =>
      if alias in aliases && index in aliases[alias] then
        Some((indices, aliases[alias := aliases[alias] - {index}]))
      else None
    case AddAlias(index, alias) =>
      if index in indices && alias !in indices then
        Some((indices, aliases[alias := (if alias in aliases then aliases[alias] else {}) + {index}]))
      else None
  }

  /** Whatever is accepted, no alias comes to point at a missing index or to share an index' name. */
  lemma ActKeepsSound(indices: Indices, aliases: Aliases, action: AliasAction)
    requires View(indices.Keys, aliases).Sound() && Act(indices, aliases, action).Some?
    ensures var next := Act(indices, aliases, action).value; View(next.0.Keys, next.1).Sound()
  {
    var v := View(indices.Keys, aliases);
    var next := Act(indices, aliases, action).value;
    forall alias | alias in next.1 ensures next.1[alias] <= next.0.Keys {
      assert alias in aliases ==> aliases[alias] <= indices.Keys;
    }
    forall name | name in next.0.Keys ensures View(next.0.Keys, next.1).Targets(name) == {} {
      assert v.Targets(name) == {};
    }
  }

  /** All actions or none. */
  function ActAll(indices: Indices, aliases: Aliases, actions: seq<AliasAction>): Option<(Indices, Aliases)>
    decreases |actions|
  {
    if actions == [] then Some((indices, aliases))
    else match Act(indices, aliases, actions[0])
      case None => None
      case Some(next) => ActAll(next.0, next.1, actions[1..])
  }

  function RemovalOf(state: AliasState, current: string): AliasAction {
    if state.legacyConcreteIdx && current == state.aliasName then RemoveIndex(current)
    else RemoveAlias(current, state.aliasName)
  }

  function Removals(state: AliasState, targets: seq<string>): (actions: seq<AliasAction>)
    ensures |actions| == |targets|
  {
    if targets == [] then [] else Removals(state, targets[..|targets| - 1]) + [RemovalOf(state, targets[|targets| - 1])]
  }

  /** buildAliasUpdateBody */
  method BuildAliasUpdate(state: AliasState, newIndex: string) returns (actions: seq<AliasAction>)
    ensures actions == Removals(state, state.targets) + [AddAlias(newIndex, state.aliasName)]
  {
    actions := [];
    for i := 0 to |state.targets|
      invariant actions == Removals(state, state.targets[..i])
    {
      assert state.targets[..i + 1][..i] == state.targets[..i];
      var current := state.targets[i];
      if state.legacyConcreteIdx && current == state.aliasName {
        actions := actions + [RemoveIndex(current)];
        continue;
      }
      actions := actions + [RemoveAlias(current, state.aliasName)];
    }
    assert state.targets[..|state.targets|] == state.targets;
    actions := actions + [AddAlias(newIndex, state.aliasName)];
  }

  predicate NoRepeats(names: seq<string>) {
    forall i, j :: 0 <= i < j < |names| ==> names[i] != names[j]
  }

  /** The state describes the alias as it is in the cluster. */
  ghost predicate Describes(state: AliasState, v: View) {
    && NoRepeats(state.targets)
    && Elements(state.targets) == v.Resolve(state.aliasName)
    && (state.legacyConcreteIdx <==> state.aliasName in v.names)
    && (state.legacyConcreteIdx ==> state.targets == [state.aliasName])
  }

  lemma {:induction false} ActAllAppend(indices: Indices, aliases: Aliases, a: seq<AliasAction>, b: seq<AliasAction>)
    ensures ActAll(indices, aliases, a + b) ==
            match ActAll(indices, aliases, a) case None => None case Some(next) => ActAll(next.0, next.1, b)
    decreases |a|
  {
    if a == [] {
      assert a + b == b;
    } else {
      assert (a + b)[1..] == a[1..] + b;
      match Act(indices, aliases, a[0]) {
        case None =>
        case Some(next) => ActAllAppend(next.0, next.1, a[1..], b);
      }
    }
  }

  lemma {:induction false} RemovalsRun(indices: Indices, aliases: Aliases, state: AliasState, targets: seq<string>)
    requires !state.legacyConcreteIdx && state.aliasName in aliases
    requires NoRepeats(targets) && Elements(targets) <= aliases[state.aliasName]
    ensures ActAll(indices, aliases, Removals(state, targets)) ==
            Some((indices, aliases[state.aliasName := aliases[state.aliasName] - Elements(targets)]))
    decreases |targets|
  {
    var alias := state.aliasName;
    if targets == [] {
      assert Elements(targets) == {} && aliases[alias] - {} == aliases[alias];
      assert aliases[alias := aliases[alias]] == aliases;
    } else {
      var init, last := targets[..|targets| - 1], targets[|targets| - 1];
      assert Elements(init) <= Elements(targets);
      RemovalsRun(indices, aliases, state, init);
      ActAllAppend(indices, aliases, Removals(state, init), [RemovalOf(state, last)]);
      assert last in Elements(targets) && last !in init;
      assert Elements(targets) == Elements(init) + {last};
      assert [RemovalOf(state, last)][1..] == [];
      var left, done := aliases[alias] - Elements(init), aliases[alias] - Elements(targets);
      assert left - {last} == done;
      assert aliases[alias := left][alias := done] == aliases[alias := done];
    }
  }

  /** The request the code builds for what it resolved is accepted and moves the alias, in one
      step, from exactly the old indices to exactly the new one. */
  lemma SwitchMovesAlias(indices: Indices, aliases: Aliases, state: AliasState, newIndex: string)
    requires var v := View(indices.Keys, aliases); v.Sound() && Describes(state, v)
    requires newIndex in indices && newIndex != state.aliasName
    ensures var before := View(indices.Keys, aliases);
            var actions := Removals(state, state.targets) + [AddAlias(newIndex, state.aliasName)];
            var done := ActAll(indices, aliases, actions);
            && done.Some?
            && var v' := View(done.value.0.Keys, done.value.1);
            && v'.Sound()
            && v'.Resolve(state.aliasName) == {newIndex}
            && done.value.0 == (if state.legacyConcreteIdx then indices - {state.aliasName} else indices)
            && (forall other :: other != state.aliasName ==>
                  v'.Targets(other) ==
                  before.Targets(other) - (if state.legacyConcreteIdx then {state.aliasName} else {}))
  {
    var alias := state.aliasName;
    var add := [AddAlias(newIndex, alias)];
    assert add[1..] == [];
    ActAllAppend(indices, aliases, Removals(state, state.targets), add);
    if state.legacyConcreteIdx {
      assert state.targets[..0] == [];
      assert Removals(state, state.targets) == [RemoveIndex(alias)];
      assert [RemoveIndex(alias)][1..] == [];
    } else if state.targets == [] {
      assert Removals(state, state.targets) == [];
    } else {
      assert state.targets[0] in Elements(state.targets);
      RemovalsRun(indices, aliases, state, state.targets);
    }
  }
}
