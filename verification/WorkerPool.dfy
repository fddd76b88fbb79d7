/** FullSync's worker pool: which tables are selected, and how workers share them out through two
    channels, for every schedule. */
module WorkerPool {
  import opened Wrappers
  import opened Policy

  // --- The selection ---

  ghost predicate Distinct(tables: seq<string>) {
    forall i, j :: 0 <= i < j < |tables| ==> tables[i] != tables[j]
  }

  /** The tables in the order in which they are first named. */
  function FirstMentions(models: seq<string>): seq<string> {
    if models == [] then []
    else
      var before, last := FirstMentions(models[..|models| - 1]), models[|models| - 1];
      if last in models[..|models| - 1] then before else before + [last]
  }

  lemma {:induction false} FirstMentionsAreDistinct(models: seq<string>)
    ensures Distinct(FirstMentions(models))
    ensures forall table :: table in FirstMentions(models) <==> table in models
  {
    if models != [] {
      var n := |models| - 1;
      FirstMentionsAreDistinct(models[..n]);
      assert models == models[..n] + [models[n]];
    }
  }

  /** entriesForModels: every registered table, or the named ones once each. */
  method EntriesForModels(registered: set<string>, models: seq<string>) returns (r: Result<seq<string>>)
    ensures r.Failure? <==> exists table :: table in models && table !in registered
    ensures r.Success? ==>
              && Distinct(r.value)
              && (models == [] ==> forall table :: table in r.value <==> table in registered)
              && (models != [] ==> r.value == FirstMentions(models))
  {
    var entries: seq<string> := [];
    if models == [] {
      var rest := registered;
      while rest != {}
        invariant rest <= registered && Distinct(entries)
        invariant forall table :: table in registered <==> table in entries || table in rest
        invariant forall table :: table in entries ==> table !in rest
      {
        var table :| table in rest;
        rest, entries := rest - {table}, entries + [table];
      }
      return Success(entries);
    }
    var seen: set<string> := {};
    for i := 0 to |models|
      invariant entries == FirstMentions(models[..i])
      invariant forall table :: table in seen <==> table in models[..i]
      invariant forall j :: 0 <= j < i ==> models[j] in registered
    {
      if models[i] !in registered {
        return Failure("model not registered");
      }
      assert models[..i + 1][..i] == models[..i] && models[..i + 1] == models[..i] + [models[i]];
      if models[i] in seen {
        continue;
      }
      seen, entries := seen + {models[i]}, entries + [models[i]];
    }
    assert models[..|models|] == models;
    FirstMentionsAreDistinct(models);
    r := Success(entries);
  }

  // --- The pool ---

  datatype Outcome = Synced | Failed | Panicked | Canceled

  datatype FullSyncResult = FullSyncResult(table: string, outcome: Outcome)

  datatype Worker =
    | Waiting                   // about to receive from the task channel
    | Holding(table: string)    // received a table, about to look at the context
    | Syncing(table: string)
    | Exited(canceled: bool)

  datatype Pool = Pool(
    tasks: seq<string>, workers: seq<Worker>, channel: seq<FullSyncResult>,
    results: seq<FullSyncResult>, canceled: bool)
  {
    /** Everything sent on the result channel so far. */
    function Sent(): seq<FullSyncResult> { results + channel }

    predicate AllExited() { forall w :: 0 <= w < |workers| ==> workers[w].Exited? }

    /** FullSync returns: the workers are gone, the channel is closed and read to its end. */
    predicate Returned() { AllExited() && channel == [] }
  }

  datatype Step =
    | Cancel
    | Take(worker: int)                      // a task, or the end of the closed channel
    | Look(worker: int)                      // the select on ctx.Done()
    | Finish(worker: int, outcome: Outcome)  // fullSyncTableGuarded returns
    | Receive

  /** One worker at least, and no more than there are tables. */
  function Start(tables: seq<string>, workers: int): Pool {
    Pool(tables, seq(Min(Max(workers, 1), |tables|), _ => Waiting), [], [], false)
  }

  /** ... all of them waiting, and every table still to be taken. */
  lemma StartsWorkers(tables: seq<string>, workers: int)
    ensures var p := Start(tables, workers);
            && (tables == [] ==> p.workers == [])
            && (tables != [] && workers <= 1 ==> |p.workers| == 1)
            && (1 <= workers <= |tables| ==> |p.workers| == workers)
            && (workers >= |tables| ==> tables == [] || |p.workers| == |tables|)
            && (forall w :: 0 <= w < |p.workers| ==> p.workers[w].Waiting?)
            && p.tasks == tables && p.channel == [] && p.results == [] && !p.canceled
  {
  }

  /** A worker that would send can do so only while the buffered channel has room for it. */
  predicate Enabled(capacity: nat, p: Pool, step: Step) {
    match step
    case Cancel => !p.canceled
    case Take(w) => 0 <= w < |p.workers| && p.workers[w].Waiting?
    case Look(w) => 0 <= w < |p.workers| && p.workers[w].Holding? && (p.canceled ==> |p.channel| < capacity)
    case Finish(w, outcome) =>
      0 <= w < |p.workers| && p.workers[w].Syncing? && !outcome.Canceled? && |p.channel| < capacity
    case Receive => p.channel != []
  }

  function Apply(capacity: nat, p: Pool, step: Step): Pool
    requires Enabled(capacity, p, step)
  {
    match step
    case Cancel => p.(canceled := true)
    case Take(w) =>
      if p.tasks == [] then p.(workers := p.workers[w := Exited(false)])
      else p.(tasks := p.tasks[1..], workers := p.workers[w := Holding(p.tasks[0])])
    case Look(w) =>
      var table := p.workers[w].table;
      if p.canceled then
        p.(workers := p.workers[w := Exited(true)], channel := p.channel + [FullSyncResult(table, Canceled)])
      else
        p.(workers := p.workers[w := Syncing(table)])
    case Finish(w, outcome) =>
      p.(workers := p.workers[w := Waiting], channel := p.channel + [FullSyncResult(p.workers[w].table, outcome)])
    case Receive =>
      p.(channel := p.channel[1..], results := p.results + [p.channel[0]])
  }

  predicate Allowed(capacity: nat, p: Pool, steps: seq<Step>)
    decreases |steps|
  {
    steps == [] || (Enabled(capacity, p, steps[0]) && Allowed(capacity, Apply(capacity, p, steps[0]), steps[1..]))
  }

  function Exec(capacity: nat, p: Pool, steps: seq<Step>): Pool
    requires Allowed(capacity, p, steps)
    decreases |steps|
  {
    if steps == [] then p else Exec(capacity, Apply(capacity, p, steps[0]), steps[1..])
  }

  // --- What is conserved ---

  function TablesOf(results: seq<FullSyncResult>): (tables: seq<string>)
    ensures |tables| == |results|
    ensures forall i :: 0 <= i < |results| ==> tables[i] == results[i].table
  {
    seq(|results|, i requires 0 <= i < |results| => results[i].table)
  }

  predicate Busy(w: Worker) {
    w.Holding? || w.Syncing?
  }

  function Hand(w: Worker, table: string): nat {
    if Busy(w) && w.table == table then 1 else 0
  }

  /** How many workers have this table in hand. */
  function InHand(workers: seq<Worker>, table: string): nat {
    if workers == [] then 0 else InHand(workers[..|workers| - 1], table) + Hand(workers[|workers| - 1], table)
  }

  function BusyWorkers(workers: seq<Worker>): nat {
    if workers == [] then 0 else BusyWorkers(workers[..|workers| - 1]) + if Busy(workers[|workers| - 1]) then 1 else 0
  }

  lemma {:induction false} WorkerMoves(workers: seq<Worker>, w: int, worker: Worker, table: string)
    requires 0 <= w < |workers|
    ensures InHand(workers[w := worker], table) + Hand(workers[w], table) ==
            InHand(workers, table) + Hand(worker, table)
    ensures BusyWorkers(workers[w := worker]) + (if Busy(workers[w]) then 1 else 0) ==
            BusyWorkers(workers) + if Busy(worker) then 1 else 0
  {
    var n := |workers| - 1;
    if w < n {
      assert workers[w := worker][..n] == workers[..n][w := worker];
      WorkerMoves(workers[..n], w, worker, table);
    } else {
      assert workers[w := worker][..n] == workers[..n];
    }
  }

  /** No table is lost or doubled: each is waiting, in hand or reported. */
  ghost predicate Conserved(tables: seq<string>, p: Pool) {
    && (forall table :: multiset(tables)[table] ==
          multiset(p.tasks)[table] + InHand(p.workers, table) + multiset(TablesOf(p.Sent()))[table])
    && |tables| == |p.tasks| + BusyWorkers(p.workers) + |p.Sent()|
  }

  /** A worker stops before the tasks run out only on cancellation. */
  ghost predicate Stops(p: Pool) {
    && (forall w :: 0 <= w < |p.workers| && p.workers[w] == Exited(false) ==> p.tasks == [])
    && (forall w :: 0 <= w < |p.workers| && p.workers[w] == Exited(true) ==> p.canceled)
    && (forall r :: r in p.Sent() && r.outcome.Canceled? ==> p.canceled)
  }

  ghost predicate Inv(tables: seq<string>, p: Pool) {
    Conserved(tables, p) && Stops(p)
  }

  lemma StepKeeps(tables: seq<string>, capacity: nat, p: Pool, step: Step)
    requires Inv(tables, p) && Enabled(capacity, p, step)
    ensures Inv(tables, Apply(capacity, p, step))
  {
    StopsKept(capacity, p, step);
    match step {
      case Cancel =>
      case Take(w) => TakeKeeps(tables, capacity, p, w);
      case Look(w) => SentKeeps(tables, p, Apply(capacity, p, step), w);
      case Finish(w, outcome) => SentKeeps(tables, p, Apply(capacity, p, step), w);
      case Receive => assert Apply(capacity, p, step).Sent() == p.Sent();
    }
  }

  lemma StopsKept(capacity: nat, p: Pool, step: Step)
    requires Stops(p) && Enabled(capacity, p, step)
    ensures Stops(Apply(capacity, p, step))
  {
  }

  lemma TakeKeeps(tables: seq<string>, capacity: nat, p: Pool, w: int)
    requires Conserved(tables, p) && Enabled(capacity, p, Take(w))
    ensures Conserved(tables, Apply(capacity, p, Take(w)))
  {
    var p' := Apply(capacity, p, Take(w));
    if p.tasks != [] {
      assert multiset(p.tasks) == multiset{p.tasks[0]} + multiset(p'.tasks) by {
        assert p.tasks == [p.tasks[0]] + p.tasks[1..];
      }
    }
    forall table: string
      ensures multiset(p.tasks)[table] + InHand(p.workers, table) ==
              multiset(p'.tasks)[table] + InHand(p'.workers, table)
    {
      WorkerMoves(p.workers, w, p'.workers[w], table);
    }
    WorkerMoves(p.workers, w, p'.workers[w], "");
  }

  /** A worker that has a table keeps it in hand or turns it into a result. */
  lemma SentKeeps(tables: seq<string>, p: Pool, p': Pool, w: int)
    requires Conserved(tables, p) && 0 <= w < |p.workers| && Busy(p.workers[w])
    requires p'.tasks == p.tasks && p'.results == p.results
    requires |p'.workers| == |p.workers| && p'.workers == p.workers[w := p'.workers[w]]
    requires var table := p.workers[w].table;
             || (p'.channel == p.channel && Busy(p'.workers[w]) && p'.workers[w].table == table)
             || (exists outcome :: p'.channel == p.channel + [FullSyncResult(table, outcome)] && !Busy(p'.workers[w]))
    ensures Conserved(tables, p')
  {
    forall table: string {
      WorkerMoves(p.workers, w, p'.workers[w], table);
    }
    WorkerMoves(p.workers, w, p'.workers[w], "");
    if p'.channel != p.channel {
      var last := p'.channel[|p.channel|];
      assert p'.Sent() == p.Sent() + [last];
      assert TablesOf(p'.Sent()) == TablesOf(p.Sent()) + [last.table];
    }
  }

  lemma {:induction false} NothingInHand(workers: seq<Worker>, table: string)
    requires forall w :: 0 <= w < |workers| ==> !Busy(workers[w])
    ensures InHand(workers, table) == 0 && BusyWorkers(workers) == 0
    decreases |workers|
  {
    if workers != [] {
      NothingInHand(workers[..|workers| - 1], table);
    }
  }

  lemma StartHolds(tables: seq<string>, workers: int)
    ensures Inv(tables, Start(tables, workers))
  {
    forall table: string {
      NothingInHand(Start(tables, workers).workers, table);
    }
    NothingInHand(Start(tables, workers).workers, "");
  }

  lemma {:induction false} RunKeeps(tables: seq<string>, capacity: nat, p: Pool, steps: seq<Step>)
    requires Inv(tables, p) && Allowed(capacity, p, steps)
    ensures Inv(tables, Exec(capacity, p, steps))
    decreases |steps|
  {
    if steps != [] {
      StepKeeps(tables, capacity, p, steps[0]);
      RunKeeps(tables, capacity, Apply(capacity, p, steps[0]), steps[1..]);
    }
  }

  // --- The results ---

  ghost predicate Reached(tables: seq<string>, workers: int, p: Pool) {
    exists steps ::
      Allowed(|tables|, Start(tables, workers), steps) && Exec(|tables|, Start(tables, workers), steps) == p
  }

  lemma ReachedInv(tables: seq<string>, workers: int, p: Pool)
    requires Reached(tables, workers, p)
    ensures Inv(tables, p)
  {
    var steps :| Allowed(|tables|, Start(tables, workers), steps) && Exec(|tables|, Start(tables, workers), steps) == p;
    StartHolds(tables, workers);
    RunKeeps(tables, |tables|, Start(tables, workers), steps);
  }

  /** Whatever the schedule, every selected table gets at most one result, and only selected ones do. */
  lemma AtMostOneResult(tables: seq<string>, workers: int, p: Pool)
    requires Distinct(tables) && Reached(tables, workers, p)
    ensures Distinct(TablesOf(p.Sent()))
    ensures forall r :: r in p.Sent() ==> r.table in tables
  {
    ReachedInv(tables, workers, p);
    var sent := TablesOf(p.Sent());
    forall i, j | 0 <= i < j < |sent| ensures sent[i] != sent[j] {
      if sent[i] == sent[j] {
        TwiceCounted(sent, i, j);
        OnceCounted(tables, sent[i]);
      }
    }
    forall r | r in p.Sent() ensures r.table in tables {
      var i :| 0 <= i < |p.Sent()| && p.Sent()[i] == r;
      assert sent[i] in multiset(sent);
      assert r.table in multiset(tables);
    }
  }

  lemma TwiceCounted(s: seq<string>, i: int, j: int)
    requires 0 <= i < j < |s| && s[i] == s[j]
    ensures multiset(s)[s[i]] >= 2
  {
    assert s == s[..i] + [s[i]] + s[i + 1..j] + [s[j]] + s[j + 1..];
  }

  lemma {:induction false} OnceCounted(s: seq<string>, x: string)
    requires Distinct(s)
    ensures multiset(s)[x] <= 1
    decreases |s|
  {
    if s != [] {
      var n := |s| - 1;
      OnceCounted(s[..n], x);
      assert s == s[..n] + [s[n]];
      if s[n] == x {
        assert x !in s[..n];
      }
    }
  }

  lemma {:induction false} HandCounted(workers: seq<Worker>, w: int)
    requires 0 <= w < |workers| && Busy(workers[w])
    ensures BusyWorkers(workers) >= 1
    decreases |workers|
  {
    if w < |workers| - 1 {
      HandCounted(workers[..|workers| - 1], w);
    }
  }

  /** Sending a result never blocks: the result channel always has room for a worker with a table in hand. */
  lemma SendsNeverBlock(tables: seq<string>, workers: int, p: Pool, w: int)
    requires Reached(tables, workers, p) && 0 <= w < |p.workers| && Busy(p.workers[w])
    ensures |p.channel| < |tables|
    ensures p.workers[w].Holding? ==> Enabled(|tables|, p, Look(w))
    ensures p.workers[w].Syncing? ==>
              forall outcome: Outcome :: !outcome.Canceled? ==> Enabled(|tables|, p, Finish(w, outcome))
  {
    ReachedInv(tables, workers, p);
    HandCounted(p.workers, w);
  }

  /** Without cancellation the results are a permutation of the selection, however many tables failed
      or panicked; with it, only tables that no worker ever took are missing, and then every worker
      has stopped on the cancellation. */
  lemma ReturnedResults(tables: seq<string>, workers: int, p: Pool)
    requires Reached(tables, workers, p) && p.Returned()
    ensures !p.canceled ==> multiset(TablesOf(p.results)) == multiset(tables)
    ensures multiset(TablesOf(p.results)) + multiset(p.tasks) == multiset(tables)
    ensures p.tasks != [] ==> forall w :: 0 <= w < |p.workers| ==> p.workers[w] == Exited(true)
    ensures !p.canceled ==> forall r :: r in p.results ==> !r.outcome.Canceled?
  {
    ReachedInv(tables, workers, p);
    assert p.Sent() == p.results;
    forall table: string
      ensures multiset(TablesOf(p.results))[table] + multiset(p.tasks)[table] == multiset(tables)[table]
    {
      NothingInHand(p.workers, table);
    }
    forall w | 0 <= w < |p.workers| && p.tasks != [] ensures p.workers[w] == Exited(true) {
      assert p.workers[w].Exited?;
    }
    if !p.canceled && tables != [] {
      WorkersStay(tables, workers, p);
      assert p.workers[0] == Exited(false);
    }
  }

  lemma WorkersStay(tables: seq<string>, workers: int, p: Pool)
    requires Reached(tables, workers, p)
    ensures |p.workers| == Min(Max(workers, 1), |tables|)
  {
    var steps :| Allowed(|tables|, Start(tables, workers), steps) && Exec(|tables|, Start(tables, workers), steps) == p;
    SameWorkers(|tables|, Start(tables, workers), steps);
  }

  lemma {:induction false} SameWorkers(capacity: nat, p: Pool, steps: seq<Step>)
    requires Allowed(capacity, p, steps)
    ensures |Exec(capacity, p, steps).workers| == |p.workers|
    decreases |steps|
  {
    if steps != [] {
      SameWorkers(capacity, Apply(capacity, p, steps[0]), steps[1..]);
    }
  }

  // --- Termination ---

  function Cost(w: Worker): nat {
    match w
    case Waiting => 1
    case Holding(_) => 4
    case Syncing(_) => 3
    case Exited(_) => 0
  }

  function Costs(workers: seq<Worker>): nat {
    if workers == [] then 0 else Costs(workers[..|workers| - 1]) + Cost(workers[|workers| - 1])
  }

  lemma {:induction false} CostsAfter(workers: seq<Worker>, w: int, worker: Worker)
    requires 0 <= w < |workers|
    ensures Costs(workers[w := worker]) + Cost(workers[w]) == Costs(workers) + Cost(worker)
  {
    var n := |workers| - 1;
    if w < n {
      assert workers[w := worker][..n] == workers[..n][w := worker];
      CostsAfter(workers[..n], w, worker);
    } else {
      assert workers[w := worker][..n] == workers[..n];
    }
  }

  function Left(p: Pool): nat {
    4 * |p.tasks| + Costs(p.workers) + |p.channel| + if p.canceled then 0 else 1
  }

  lemma StepUses(capacity: nat, p: Pool, step: Step)
    requires Enabled(capacity, p, step)
    ensures Left(Apply(capacity, p, step)) < Left(p)
  {
    var p' := Apply(capacity, p, step);
    match step {
      case Cancel =>
      case Take(w) => CostsAfter(p.workers, w, p'.workers[w]);
      case Look(w) => CostsAfter(p.workers, w, p'.workers[w]);
      case Finish(w, _) => CostsAfter(p.workers, w, p'.workers[w]);
      case Receive =>
    }
  }

  lemma {:induction false} WaitingCosts(n: nat)
    ensures Costs(seq(n, _ => Waiting)) == n
  {
    if n > 0 {
      assert seq(n, _ => Waiting)[..n - 1] == seq(n - 1, _ => Waiting);
      WaitingCosts(n - 1);
    }
  }

  lemma {:induction false} RunIsShort(capacity: nat, p: Pool, steps: seq<Step>)
    requires Allowed(capacity, p, steps)
    ensures |steps| + Left(Exec(capacity, p, steps)) <= Left(p)
    decreases |steps|
  {
    if steps != [] {
      StepUses(capacity, p, steps[0]);
      RunIsShort(capacity, Apply(capacity, p, steps[0]), steps[1..]);
    }
  }

  /** No schedule runs forever, and none stops before FullSync returns: some worker can move, or a
      result can be received. */
  lemma PoolTerminates(tables: seq<string>, workers: int, steps: seq<Step>)
    requires Allowed(|tables|, Start(tables, workers), steps)
    ensures |steps| <= 4 * |tables| + Min(Max(workers, 1), |tables|) + 1
    ensures var p := Exec(|tables|, Start(tables, workers), steps);
            !p.Returned() ==> exists step: Step :: !step.Cancel? && Enabled(|tables|, p, step)
  {
    var p := Exec(|tables|, Start(tables, workers), steps);
    RunIsShort(|tables|, Start(tables, workers), steps);
    WaitingCosts(Min(Max(workers, 1), |tables|));
    if !p.AllExited() {
      var w :| 0 <= w < |p.workers| && !p.workers[w].Exited?;
      if p.workers[w].Waiting? {
        assert Enabled(|tables|, p, Take(w));
      } else {
        SendsNeverBlock(tables, workers, p, w);
        assert p.workers[w].Syncing? ==> Enabled(|tables|, p, Finish(w, Synced));
      }
    } else if p.channel != [] {
      assert Enabled(|tables|, p, Receive);
    }
  }
}
