/** The outbox lease protocol as a state machine: any number of relays, each with its own
    memory, interleaved statement by statement over one table and one clock. */
module Protocol {
  import opened Wrappers
  import opened Documents
  import opened Policy
  import opened Outbox

  /** Where a relay is in runOutboxBatch, with what it holds in memory. `seen` marks how much of
      the log had been written when the candidates were read; it is not visible to the code. */
  datatype Phase =
    | Idle
    | Started(now: int)
    | Claiming(now: int, seen: nat, candidates: seq<OutboxEvent>, claimed: seq<OutboxEvent>)
    | Delivering(now: int, batch: seq<OutboxEvent>)
    | Answered(now: int, batch: seq<OutboxEvent>, result: SendResult)
    | Timed(now: int, batch: seq<OutboxEvent>, result: SendResult, readAt: int)
  {
    function Held(): seq<OutboxEvent> {
      match this
      case Idle => []
      case Started(_) => []
      case Claiming(_, _, _, claimed) => claimed
      case Delivering(_, batch) => batch
      case Answered(_, batch, _) => batch
      case Timed(_, batch, _, _) => batch
    }
  }

  /** The statements that changed a row, in the order the database ran them. */
  datatype Event =
    | Claimed(relay: nat, id: int, token: nat, now: int)
    | Wrote(relay: nat, id: int, token: nat, attempts: nat, mark: Mark, result: SendResult, readAt: int, at: int)
    | Replayed(id: int)
    | Removed(id: int)

  /** One request that Elasticsearch carried out; `ok` if it also answered so. `at` marks how much of the
      log had been written by then. */
  datatype Delivery = Delivery(id: int, op: Operation, token: nat, ok: bool, at: nat)

  /** `used` are the ids ever given to a row, all below `nextId`; ids need not appear in order, since
      transactions commit in their own order. */
  datatype State = State(
    table: Table, used: set<int>, nextId: nat, clock: int, issued: nat,
    relays: map<nat, Phase>, log: seq<Event>, delivered: seq<Delivery>)

  datatype Step =
    | Tick(duration: nat)                                  // time passes
    | Insert(id: int, tableName: string, op: Operation)    // a business transaction commits a row
    | Begin(relay: nat)                                    // claimPending reads the clock
    | Query(relay: nat)                                    // ... and the candidates
    | Claim(relay: nat)                                    // tryClaimRow on the next candidate
    | Release(relay: nat)                                  // claimPending returns its batch
    | Send(relay: nat, result: SendResult, served: bool)   // sendOutboxRow for the first row
    | ReadClock(relay: nat)                                // time.Now() before the write-back
    | Write(relay: nat, acknowledged: bool)                // markSent / markRetry / markDead
    | Crash(relay: nat)                                    // the process dies, or a statement fails
    | Replay(id: int)                                      // ReplayOutbox, row by row
    | Remove(id: int)                                      // CleanupOutbox, row by row

  function PhaseOf(s: State, relay: nat): Phase {
    if relay in s.relays then s.relays[relay] else Idle
  }

  function Put(s: State, relay: nat, phase: Phase): State {
    s.(relays := s.relays[relay := phase])
  }

  function InitialState(clock: int): State {
    State(map[], {}, 1, clock, 0, map[], [], [])
  }

  predicate Enabled(cfg: Config, s: State, step: Step) {
    match step
    case Tick(_) => true
    case Insert(id, _, _) => id > 0 && id !in s.used
    case Begin(relay) => PhaseOf(s, relay).Idle?
    case Query(relay) => PhaseOf(s, relay).Started?
    case Claim(relay) =>
      var p := PhaseOf(s, relay);
      p.Claiming? && p.candidates != [] && |p.claimed| < cfg.batchSize
    case Release(relay) =>
      var p := PhaseOf(s, relay);
      p.Claiming? && (p.candidates == [] || |p.claimed| >= cfg.batchSize)
    case Send(relay, result, served) =>
      var p := PhaseOf(s, relay);
      && p.Delivering? && p.batch != [] && (result.Ok() ==> served)
      && (result.error.UnsupportedAction? <==> p.batch[0].row.op.action.Other?)
      && (served ==> !result.error.UnsupportedAction?)
    case ReadClock(relay) => PhaseOf(s, relay).Answered?
    case Write(relay, _) =>
      var p := PhaseOf(s, relay);
      p.Timed? && p.batch != []
    case Crash(_) => true
    case Replay(id) => id in s.table
    case Remove(id) => id in s.table
  }

  function AfterWrite(p: Phase): Phase
    requires p.Timed? && p.batch != []
  {
    if |p.batch| > 1 then Delivering(p.now, p.batch[1..]) else Idle
  }

  function Apply(cfg: Config, s: State, step: Step): State
    requires cfg.Normalized() && Enabled(cfg, s, step)
  {
    match step
    case Tick(duration) => s.(clock := s.clock + duration)
    case Insert(id, tableName, op) =>
      s.(table := s.table[id := NewRow(tableName, op, s.clock)], used := s.used + {id}, nextId := Max(s.nextId, id + 1))
    case Begin(relay) => Put(s, relay, Started(s.clock))
    case Query(relay) =>
      var now := PhaseOf(s, relay).now;
      Put(s, relay, Claiming(now, |s.log|, Candidates(s.table, now, 1, s.nextId, 4 * cfg.batchSize), []))
    case Claim(relay) =>
      var p := PhaseOf(s, relay);
      var candidate, token := p.candidates[0], s.issued + 1;
      var (table, won) := TryClaim(s.table, candidate.id, p.now, p.now + cfg.lease, token);
      var claimed := if won
        then p.claimed + [OutboxEvent(candidate.id, LeaseRow(candidate.row, p.now + cfg.lease, token))]
        else p.claimed;
      Put(s, relay, p.(candidates := p.candidates[1..], claimed := claimed))
        .(table := table, issued := token,
          log := if won then s.log + [Claimed(relay, candidate.id, token, p.now)] else s.log)
    case Release(relay) =>
      var p := PhaseOf(s, relay);
      Put(s, relay, if p.claimed == [] then Idle else Delivering(p.now, p.claimed))
    case Send(relay, result, served) =>
      var p := PhaseOf(s, relay);
      var first := p.batch[0];
      Put(s, relay, Answered(p.now, p.batch, result))
        .(delivered := if served
            then s.delivered + [Delivery(first.id, first.row.op, first.row.leaseToken, result.Ok(), |s.log|)]
            else s.delivered)
    case ReadClock(relay) =>
      var p := PhaseOf(s, relay);
      Put(s, relay, Timed(p.now, p.batch, p.result, s.clock))
    case Write(relay, acknowledged) =>
      var p := PhaseOf(s, relay);
      var event := p.batch[0];
      var mark := Decide(cfg, event.row.attempts, p.result, p.readAt);
      (match WriteBack(s.table, event, mark, p.result.Reason())
       case Failure(_) => Put(s, relay, Idle)
       case Success(table) =>
         Put(s, relay, if acknowledged then AfterWrite(p) else Idle)
           .(table := table,
             log := s.log + [Wrote(relay, event.id, event.row.leaseToken, event.row.attempts, mark,
                                   p.result, p.readAt, s.clock)]))
    case Crash(relay) => Put(s, relay, Idle)
    case Replay(id) => s.(table := s.table[id := Reset(s.table[id])], log := s.log + [Replayed(id)])
    case Remove(id) => s.(table := s.table - {id}, log := s.log + [Removed(id)])
  }

  predicate TakenBy(step: Step, relay: nat) {
    match step
    case Begin(r) => r == relay
    case Query(r) => r == relay
    case Claim(r) => r == relay
    case Release(r) => r == relay
    case Send(r, _, _) => r == relay
    case ReadClock(r) => r == relay
    case Write(r, _) => r == relay
    case Crash(r) => r == relay
    case _ => false
  }

  /** The steps can be taken one after the other from `s`. */
  predicate Allowed(cfg: Config, s: State, steps: seq<Step>)
    requires cfg.Normalized()
    decreases |steps|
  {
    steps == [] || (Enabled(cfg, s, steps[0]) && Allowed(cfg, Apply(cfg, s, steps[0]), steps[1..]))
  }

  function Exec(cfg: Config, s: State, steps: seq<Step>): State
    requires cfg.Normalized() && Allowed(cfg, s, steps)
    decreases |steps|
  {
    if steps == [] then s else Exec(cfg, Apply(cfg, s, steps[0]), steps[1..])
  }

  /** `s` can be reached from an empty outbox by some interleaving. */
  ghost predicate Reachable(cfg: Config, s: State)
    requires cfg.Normalized()
  {
    exists clock: int, steps: seq<Step> ::
      Allowed(cfg, InitialState(clock), steps) && Exec(cfg, InitialState(clock), steps) == s
  }

  lemma Reach(cfg: Config, s: State, step: Step)
    requires cfg.Normalized() && Reachable(cfg, s) && Enabled(cfg, s, step)
    ensures Reachable(cfg, Apply(cfg, s, step))
  {
    var clock: int, steps: seq<Step> :|
      Allowed(cfg, InitialState(clock), steps) && Exec(cfg, InitialState(clock), steps) == s;
    OneMore(cfg, InitialState(clock), steps, step);
    assert Exec(cfg, InitialState(clock), steps + [step]) == Apply(cfg, s, step);
  }

  lemma {:induction false} OneMore(cfg: Config, s: State, steps: seq<Step>, step: Step)
    requires cfg.Normalized() && Allowed(cfg, s, steps) && Enabled(cfg, Exec(cfg, s, steps), step)
    ensures Allowed(cfg, s, steps + [step])
    ensures Exec(cfg, s, steps + [step]) == Apply(cfg, Exec(cfg, s, steps), step)
    decreases |steps|
  {
    if steps == [] {
      assert (steps + [step])[1..] == [];
    } else {
      assert (steps + [step])[1..] == steps[1..] + [step];
      OneMore(cfg, Apply(cfg, s, steps[0]), steps[1..], step);
    }
  }

  /** `steps` lead from an empty outbox to `s`. */
  ghost predicate Led(cfg: Config, epoch: int, steps: seq<Step>, s: State)
    requires cfg.Normalized()
  {
    Allowed(cfg, InitialState(epoch), steps) && Exec(cfg, InitialState(epoch), steps) == s
  }

  lemma {:induction false} ExecSplit(cfg: Config, s: State, a: seq<Step>, b: seq<Step>)
    requires cfg.Normalized() && Allowed(cfg, s, a + b)
    ensures Allowed(cfg, s, a) && Allowed(cfg, Exec(cfg, s, a), b)
    ensures Exec(cfg, s, a + b) == Exec(cfg, Exec(cfg, s, a), b)
    decreases |a|
  {
    if a == [] {
      assert a + b == b;
    } else {
      assert (a + b)[1..] == a[1..] + b;
      ExecSplit(cfg, Apply(cfg, s, a[0]), a[1..], b);
    }
  }

  lemma {:induction false} LogExtends(cfg: Config, s: State, steps: seq<Step>)
    requires cfg.Normalized() && Allowed(cfg, s, steps)
    ensures s.log <= Exec(cfg, s, steps).log
    decreases |steps|
  {
    if steps != [] {
      LogExtends(cfg, Apply(cfg, s, steps[0]), steps[1..]);
    }
  }

  // --- The latest statement about a row ---

  /** The statement that marks a row sent or dead. */
  predicate Final(e: Event) {
    e.Wrote? && !e.mark.MarkRetry?
  }

  /** Position of the last log entry about row `id`, or -1. */
  function LastAbout(log: seq<Event>, id: int): (i: int)
    ensures -1 <= i < |log|
    ensures i >= 0 ==> log[i].id == id
    ensures forall k :: i < k < |log| ==> log[k].id != id
  {
    if log == [] then -1
    else if log[|log| - 1].id == id then |log| - 1
    else LastAbout(log[..|log| - 1], id)
  }

  function Latest(log: seq<Event>, id: int): Option<Event> {
    var i := LastAbout(log, id);
    if i < 0 then None else Some(log[i])
  }

  lemma LatestAfter(log: seq<Event>, e: Event, id: int)
    ensures Latest(log + [e], id) == if e.id == id then Some(e) else Latest(log, id)
  {
    assert (log + [e])[..|log|] == log;
    var i := LastAbout(log, id);
    assert i >= 0 ==> (log + [e])[i] == log[i];
  }
}
